/** The budgeted tool loop of one turn, and what the answer reports about it. */
module AgentLoop {
  import opened Text
  import opened Llm
  import opened Anthropic
  import opened History
  import opened Options

  datatype Usage = Usage(input: nat, output: nat, total: nat)

  datatype Response = Response(text: string, calls: seq<ToolCall>, usage: Option<Usage>)

  /** What one provider call came to; saying nothing is heard as a reply without calls. */
  datatype Generated = Reply(response: Response) | EmptyReply(usage: Option<Usage>) | GenerateFailed

  /** What one tool call came to; a failure ends the turn. */
  datatype ToolOutcome = Output(text: string) | ToolFailed

  /** Everything a turn depends on but does not decide: the card's prompt, the tools, the options, the provider's
      replies by call number, the tools' outcomes by call number and position, and how text is fenced and measured. */
  datatype Env = Env(
    system: string,
    tools: seq<string>,
    maxIterations: int,
    maxTokens: int,
    generate: nat -> Generated,
    runTool: (nat, nat) -> ToolOutcome,
    fence: (string, string) -> string,
    argChars: seq<string> -> nat)

  datatype CallRecord = CallRecord(name: string, args: string)

  datatype Answer = Answer(
    text: string,
    results: seq<string>,
    records: seq<CallRecord>,
    iterations: nat,
    truncated: bool,
    usage: Usage,
    promptTokens: nat,
    completionTokens: nat,
    estimated: bool)

  // Stand-ins for the three notices: how they are worded is left open, and nothing rests on more than that they say
  // something.
  const TOOL_BUDGET_SPENT := "budget spent, answer now"
  const TOOL_BUDGET_SPENT_RESULT := "not run"
  const NO_ANSWER_PRODUCED := "no answer"

  function Heard(g: Generated): Response
    requires !g.GenerateFailed?
  {
    if g.Reply? then g.response else Response("", [], g.usage)
  }

  function Join(parts: seq<string>, sep: string): string {
    if |parts| == 0 then "" else if |parts| == 1 then parts[0] else parts[0] + sep + Join(parts[1..], sep)
  }

  function Advice(name: string, tools: seq<string>): string {
    "Error: " + name + " is not a valid tool, try one of [" + Join(tools, ", ") + "]."
  }

  /** The outcome of call i of round n; an unknown name runs nothing and gets advice. */
  function Outcome(env: Env, n: nat, i: nat, call: ToolCall): ToolOutcome {
    if call.name in env.tools then env.runTool(n, i) else Output(Advice(call.name, env.tools))
  }

  function Estimated(env: Env, ms: seq<Message>): nat {
    Chars([Asked(env.system)] + ms, env.argChars) / 4
  }

  predicate Spent(env: Env, ms: seq<Message>, iterations: nat) {
    iterations >= env.maxIterations || Estimated(env, ms) >= env.maxTokens
  }

  function Report(env: Env, n: nat, i: nat, call: ToolCall): Message {
    var o := Outcome(env, n, i, call);
    Reported(call.id, call.name, env.fence(OutputText(o), call.name))
  }

  /** The messages that answer the calls of a round that ran. */
  function Reports(env: Env, n: nat, calls: seq<ToolCall>): seq<Message> {
    seq(|calls|, i requires 0 <= i < |calls| => Report(env, n, i, calls[i]))
  }

  /** The messages that answer the calls the budget refused, and the notice behind them. */
  function Refusals(calls: seq<ToolCall>): seq<Message> {
    seq(|calls|, i requires 0 <= i < |calls| => Reported(calls[i].id, calls[i].name, TOOL_BUDGET_SPENT_RESULT))
    + [Asked(TOOL_BUDGET_SPENT)]
  }

  function SaidBy(r: Response): Message {
    Said(r.text, r.calls)
  }

  /** What follows a request once its reply is heard: the reply, then its calls answered or refused. */
  function Continued(env: Env, ms: seq<Message>, n: nat, r: Response): seq<Message> {
    ms + [SaidBy(r)] + if Spent(env, ms + [SaidBy(r)], n + 1) then Refusals(r.calls) else Reports(env, n, r.calls)
  }

  /** The provider accepts it: tools are there to choose from, and the turns it encodes to are legal. */
  ghost predicate Sendable(req: Request) {
    && (req.choice.Any? ==> req.tools != [])
    && AllEncode(req.messages)
    && Legal(Wire(req.messages))
  }

  lemma {:induction false} ToolRun(run: seq<Message>)
    requires forall i | 0 <= i < |run| :: run[i].role.Tool?
    ensures Texts(run) == [] && |Results(run)| == |run|
    ensures forall i | 0 <= i < |run| :: Results(run)[i] == ToolResult(run[i].callId, run[i].text)
  {
    if run != [] {
      ToolRun(run[..|run| - 1]);
    }
  }

  /** Both ways of going on answer every call, in call order, ahead of any text. */
  lemma {:induction false} AnsweredAtOnce(run: seq<Message>, calls: seq<ToolCall>)
    requires |run| == |calls| && forall i | 0 <= i < |calls| :: run[i].role.Tool? && run[i].callId == calls[i].id
    ensures Answers(Results(run) + Texts(run), CallIds(calls))
    ensures Answers(Results(run + [Asked(TOOL_BUDGET_SPENT)]) + Texts(run + [Asked(TOOL_BUDGET_SPENT)]), CallIds(calls))
  {
    ToolRun(run);
    assert (run + [Asked(TOOL_BUDGET_SPENT)])[..|run|] == run;
  }

  lemma {:induction false} ContinuedIsLegal(env: Env, ms: seq<Message>, n: nat, r: Response)
    requires Legal(Wire(ms)) && AllEncode(ms) && r.calls != []
    ensures Legal(Wire(Continued(env, ms, n, r))) && AllEncode(Continued(env, ms, n, r))
  {
    var said := SaidBy(r);
    var refused := Refusals(r.calls)[..|r.calls|];
    assert Refusals(r.calls) == refused + [Asked(TOOL_BUDGET_SPENT)];
    AnsweredAtOnce(refused, r.calls);
    var reports := Reports(env, n, r.calls);
    assert forall i | 0 <= i < |reports| :: reports[i] == Report(env, n, i, r.calls[i]);
    AnsweredAtOnce(reports, r.calls);
    LegalStep(ms, said, if Spent(env, ms + [said], n + 1) then Refusals(r.calls) else Reports(env, n, r.calls));
  }

  // ---- what the answer is made of ----

  function FinalText(replies: seq<Response>): string {
    if replies == [] then NO_ANSWER_PRODUCED
    else if TrimSpace(replies[|replies| - 1].text) != "" then TrimSpace(replies[|replies| - 1].text)
    else FinalText(replies[..|replies| - 1])
  }

  function AllCalls(replies: seq<Response>): seq<ToolCall> {
    if replies == [] then [] else AllCalls(replies[..|replies| - 1]) + replies[|replies| - 1].calls
  }

  function Recorded(calls: seq<ToolCall>, refused: set<string>): seq<CallRecord> {
    if calls == [] then [] else
      var c := calls[|calls| - 1];
      var before := Recorded(calls[..|calls| - 1], refused);
      before + if c.id in refused then [] else [CallRecord(c.name, OrEmptyObject(c.args))]
  }

  /** The outputs of rounds 0 to n, in round and call order. */
  function Outputs(env: Env, replies: seq<Response>, n: nat): seq<string>
    requires n <= |replies|
  {
    if n == 0 then [] else Outputs(env, replies, n - 1) + RoundOutputs(env, n - 1, replies[n - 1].calls)
  }

  function OutputText(o: ToolOutcome): string {
    if o.Output? then o.text else ""
  }

  function RoundOutputs(env: Env, n: nat, calls: seq<ToolCall>): seq<string> {
    seq(|calls|, i requires 0 <= i < |calls| => OutputText(Outcome(env, n, i, calls[i])))
  }

  function IdSet(calls: seq<ToolCall>): set<string> {
    set c | c in calls :: c.id
  }

  function Plus(a: Usage, b: Usage): Usage {
    Usage(a.input + b.input, a.output + b.output, a.total + b.total)
  }

  function UsageSum(replies: seq<Response>): Usage {
    if replies == [] then Usage(0, 0, 0) else
      var u := replies[|replies| - 1].usage;
      Plus(UsageSum(replies[..|replies| - 1]), if u.Some? then u.value else Usage(0, 0, 0))
  }

  function PromptEstimate(env: Env, requests: seq<Request>): nat {
    if requests == [] then 0 else
      PromptEstimate(env, requests[..|requests| - 1]) + Estimated(env, requests[|requests| - 1].messages)
  }

  function CompletionEstimate(env: Env, replies: seq<Response>): nat {
    if replies == [] then 0 else
      CompletionEstimate(env, replies[..|replies| - 1]) + Chars([SaidBy(replies[|replies| - 1])], env.argChars) / 4
  }

  // ---- the run ----

  ghost predicate Continues(env: Env, requests: seq<Request>, replies: seq<Response>, i: nat)
    requires i + 1 < |requests| && i < |replies|
  {
    requests[i + 1].messages == Continued(env, requests[i].messages, i, replies[i])
  }

  /** The provider calls a turn made: the first must use a tool, and each later one repeats the one before it
      and adds the reply and what became of its calls. */
  ghost predicate Talk(env: Env, first: seq<Message>, requests: seq<Request>, replies: seq<Response>) {
    && |replies| <= |requests| <= |replies| + 1
    && (forall i | 0 <= i < |requests| ::
          requests[i] == Request(env.system, requests[i].messages, env.tools, if i == 0 then Any else Auto))
    && (forall i | 0 <= i < |replies| :: !env.generate(i).GenerateFailed? && replies[i] == Heard(env.generate(i)))
    && (requests != [] ==> requests[0].messages == first)
    && (forall i | 0 <= i < |requests| - 1 :: Continues(env, requests, replies, i))
  }

  ghost predicate RefusedAt(env: Env, requests: seq<Request>, replies: seq<Response>, i: nat)
    requires i < |requests| && i < |replies|
  {
    Spent(env, requests[i].messages + [SaidBy(replies[i])], i + 1)
  }

  /** How a run ends: on the first reply without calls, or one reply past the round the budget refused. */
  ghost predicate Ended(env: Env, requests: seq<Request>, replies: seq<Response>, truncated: bool, ran: nat) {
    && |requests| == |replies| == ran + (if truncated then 2 else 1)
    && (forall i | 0 <= i < ran :: replies[i].calls != [] && !RefusedAt(env, requests, replies, i))
    && (if truncated
        then replies[ran].calls != [] && RefusedAt(env, requests, replies, ran)
        else replies[ran].calls == [])
  }

  /** The answer accounts for its run: ran rounds of tool calls, then perhaps one refused. */
  ghost predicate Accounts(env: Env, requests: seq<Request>, replies: seq<Response>, refused: set<string>, a: Answer,
                           ran: nat) {
    && Ended(env, requests, replies, a.truncated, ran)
    && refused == (if a.truncated then IdSet(replies[ran].calls) else {})
    && a.results == Outputs(env, replies, ran)
    && Faithful(env, requests, replies, refused, a)
  }

  /** What the answer says of its provider calls, whichever way the run ended. */
  ghost predicate Faithful(env: Env, requests: seq<Request>, replies: seq<Response>, refused: set<string>, a: Answer) {
    && a.iterations == |replies|
    && a.text == FinalText(replies)
    && a.records == Recorded(AllCalls(replies), refused)
    && a.usage == UsageSum(replies)
    && (a.estimated <==> !AllReported(replies))
    && a.promptTokens == (if a.estimated then PromptEstimate(env, requests) else UsageSum(replies).input)
    && a.completionTokens == (if a.estimated then CompletionEstimate(env, replies) else UsageSum(replies).output)
  }

  datatype Failure = LatestSnapshot | CardFailed | ProviderFailed | ToolCallFailed

  /** Runs the calls of one round; the results keep call order, and one failure fails the round. */
  method RunTools(env: Env, n: nat, calls: seq<ToolCall>) returns (r: Result<seq<string>, Failure>)
    ensures r.Ok? <==> forall i | 0 <= i < |calls| :: Outcome(env, n, i, calls[i]).Output?
    ensures r.Ok? ==> r.value == RoundOutputs(env, n, calls)
    ensures r.Err? ==> r.error == ToolCallFailed
  {
    var out: seq<string> := [];
    for i := 0 to |calls|
      invariant out == RoundOutputs(env, n, calls)[..i]
      invariant forall j | 0 <= j < i :: Outcome(env, n, j, calls[j]).Output?
    {
      var o := if calls[i].name in env.tools then env.runTool(n, i) else Output(Advice(calls[i].name, env.tools));
      if o.ToolFailed? {
        return Err(ToolCallFailed);
      }
      out := out + [o.text];
    }
    r := Ok(out);
  }

  method Estimate(env: Env, ms: seq<Message>) returns (tokens: nat)
    ensures tokens == Estimated(env, ms)
  {
    tokens := EstimateTokens([Asked(env.system)] + ms, env.argChars);
  }

  /** The last reply that says something, or the apology. */
  method PickText(replies: seq<Response>) returns (text: string)
    ensures text == FinalText(replies)
  {
    text := NO_ANSWER_PRODUCED;
    var i := |replies|;
    assert replies[..i] == replies;
    while i > 0
      invariant 0 <= i <= |replies|
      invariant FinalText(replies) == FinalText(replies[..i])
      invariant text == NO_ANSWER_PRODUCED
    {
      i := i - 1;
      assert replies[..i + 1][..i] == replies[..i];
      if TrimSpace(replies[i].text) != "" {
        return TrimSpace(replies[i].text);
      }
    }
  }

  lemma {:induction false} RecordedConcat(a: seq<ToolCall>, b: seq<ToolCall>, refused: set<string>)
    ensures Recorded(a + b, refused) == Recorded(a, refused) + Recorded(b, refused)
  {
    if b == [] {
      assert a + b == a;
    } else {
      RecordedConcat(a, b[..|b| - 1], refused);
      assert (a + b)[..|a + b| - 1] == a + b[..|b| - 1];
    }
  }

  method RecordCalls(calls: seq<ToolCall>, refused: set<string>) returns (records: seq<CallRecord>)
    ensures records == Recorded(calls, refused)
  {
    records := [];
    for j := 0 to |calls|
      invariant records == Recorded(calls[..j], refused)
    {
      assert calls[..j + 1][..j] == calls[..j];
      if calls[j].id !in refused {
        records := records + [CallRecord(calls[j].name, OrEmptyObject(calls[j].args))];
      }
    }
    assert calls[..|calls|] == calls;
  }

  predicate AllReported(replies: seq<Response>) {
    forall r | r in replies :: r.usage.Some?
  }

  lemma {:induction false} TallySnoc(replies: seq<Response>, r: Response)
    ensures AllCalls(replies + [r]) == AllCalls(replies) + r.calls
    ensures UsageSum(replies + [r]) == Plus(UsageSum(replies), if r.usage.Some? then r.usage.value else Usage(0, 0, 0))
    ensures AllReported(replies + [r]) <==> AllReported(replies) && r.usage.Some?
  {
    assert (replies + [r])[..|replies|] == replies;
  }

  lemma {:induction false} TallyNothing(refused: set<string>)
    ensures Recorded(AllCalls([]), refused) == [] && UsageSum([]) == Usage(0, 0, 0) && AllReported([])
  {
  }

  /** Every call that was not refused, and the usage the provider reported. */
  method Tally(replies: seq<Response>, refused: set<string>)
    returns (records: seq<CallRecord>, usage: Usage, reported: bool)
    ensures records == Recorded(AllCalls(replies), refused)
    ensures usage == UsageSum(replies)
    ensures reported <==> AllReported(replies)
  {
    hide AllReported, Recorded, AllCalls, UsageSum;
    TallyNothing(refused);
    records, usage, reported := [], Usage(0, 0, 0), true;
    for i := 0 to |replies|
      invariant records == Recorded(AllCalls(replies[..i]), refused)
      invariant usage == UsageSum(replies[..i])
      invariant reported <==> AllReported(replies[..i])
    {
      var r := replies[i];
      TallySnoc(replies[..i], r);
      assert replies[..i + 1] == replies[..i] + [r];
      var more := RecordCalls(r.calls, refused);
      RecordedConcat(AllCalls(replies[..i]), r.calls, refused);
      records := records + more;
      if r.usage.None? {
        reported := false;
      } else {
        usage := Plus(usage, r.usage.value);
      }
    }
    assert replies[..|replies|] == replies;
  }

  /** What the next request will hold. */
  function Upcoming(env: Env, first: seq<Message>, requests: seq<Request>, replies: seq<Response>): seq<Message>
    requires |requests| == |replies|
  {
    var n := |replies|;
    if n == 0 then first else Continued(env, requests[n - 1].messages, n - 1, replies[n - 1])
  }

  /** Between two provider calls: ran rounds have run, and perhaps one more was refused. */
  ghost predicate InProgress(env: Env, first: seq<Message>, requests: seq<Request>, replies: seq<Response>,
                             refused: set<string>, truncated: bool, ran: nat) {
    && |requests| == |replies| == ran + (if truncated then 1 else 0)
    && Talk(env, first, requests, replies)
    && (forall i | 0 <= i < ran :: replies[i].calls != [] && !RefusedAt(env, requests, replies, i))
    && (truncated ==> replies[ran].calls != [] && RefusedAt(env, requests, replies, ran))
    && refused == (if truncated then IdSet(replies[ran].calls) else {})
  }

  lemma {:induction false} NothingYet(env: Env, first: seq<Message>)
    ensures InProgress(env, first, [], [], {}, false, 0)
    ensures Outputs(env, [], 0) == [] && PromptEstimate(env, []) == 0 && CompletionEstimate(env, []) == 0
  {
  }

  lemma {:induction false} TalkExtends(env: Env, first: seq<Message>, requests: seq<Request>, replies: seq<Response>,
                                       req: Request)
    requires |requests| == |replies| && Talk(env, first, requests, replies)
    requires req == Request(env.system, Upcoming(env, first, requests, replies), env.tools,
                            if requests == [] then Any else Auto)
    ensures Talk(env, first, requests + [req], replies)
    ensures !env.generate(|replies|).GenerateFailed? ==>
      Talk(env, first, requests + [req], replies + [Heard(env.generate(|replies|))])
  {
    hide Continued, Heard;
    var n := |replies|;
    var requests' := requests + [req];
    forall i | 0 <= i < n
      ensures Continues(env, requests', replies, i)
    {
      assert i < n - 1 ==> Continues(env, requests, replies, i);
    }
    if !env.generate(n).GenerateFailed? {
      var replies' := replies + [Heard(env.generate(n))];
      forall i | 0 <= i < n
        ensures Continues(env, requests', replies', i)
      {
        assert Continues(env, requests', replies, i);
      }
    }
  }

  /** One more provider call ends the run or leaves it in progress, one round further or refused. */
  lemma {:induction false} OneCall(env: Env, first: seq<Message>, requests: seq<Request>, replies: seq<Response>,
                                   refused: set<string>,
                truncated: bool, ran: nat, req: Request, reply: Response)
    requires InProgress(env, first, requests, replies, refused, truncated, ran)
    requires Talk(env, first, requests + [req], replies + [reply])
    ensures var requests', replies' := requests + [req], replies + [reply];
      if reply.calls == [] || truncated then
        && Ended(env, requests', replies', truncated, ran)
        && refused == (if truncated then IdSet(replies'[ran].calls) else {})
      else if Spent(env, req.messages + [SaidBy(reply)], |replies'|) then
        InProgress(env, first, requests', replies', IdSet(reply.calls), true, ran)
      else
        InProgress(env, first, requests', replies', {}, false, ran + 1)
  {
    hide Talk, Spent, IdSet;
    var requests', replies' := requests + [req], replies + [reply];
    assert forall i | 0 <= i < |replies| :: requests'[i] == requests[i] && replies'[i] == replies[i];
    assert forall i | 0 <= i < |replies| ::
             RefusedAt(env, requests', replies', i) <==> RefusedAt(env, requests, replies, i);
  }

  lemma {:induction false} EstimatesSnoc(env: Env, requests: seq<Request>, req: Request, replies: seq<Response>,
                                         reply: Response)
    ensures PromptEstimate(env, requests + [req]) == PromptEstimate(env, requests) + Estimated(env, req.messages)
    ensures CompletionEstimate(env, replies + [reply])
         == CompletionEstimate(env, replies) + Chars([SaidBy(reply)], env.argChars) / 4
  {
    assert (requests + [req])[..|requests|] == requests && (replies + [reply])[..|replies|] == replies;
  }

  /** Answers the calls of a round the budget refused. */
  method Refuse(messages: seq<Message>, calls: seq<ToolCall>) returns (out: seq<Message>, refused: set<string>)
    ensures out == messages + Refusals(calls)
    ensures refused == IdSet(calls)
  {
    out, refused := messages, {};
    for i := 0 to |calls|
      invariant refused == IdSet(calls[..i])
      invariant out == messages + Refusals(calls)[..i]
    {
      assert calls[..i + 1] == calls[..i] + [calls[i]];
      refused := refused + {calls[i].id};
      out := out + [Reported(calls[i].id, calls[i].name, TOOL_BUDGET_SPENT_RESULT)];
    }
    out := out + [Asked(TOOL_BUDGET_SPENT)];
    assert calls[..|calls|] == calls;
  }

  /** Answers the calls of a round that ran. */
  method Answered(env: Env, n: nat, messages: seq<Message>, calls: seq<ToolCall>, outputs: seq<string>)
    returns (out: seq<Message>)
    requires outputs == RoundOutputs(env, n, calls)
    ensures out == messages + Reports(env, n, calls)
  {
    out := messages;
    for i := 0 to |calls|
      invariant out == messages + Reports(env, n, calls)[..i]
    {
      out := out + [Reported(calls[i].id, calls[i].name, env.fence(outputs[i], calls[i].name))];
    }
  }

  lemma {:induction false} OutputsExtend(env: Env, replies: seq<Response>, reply: Response, n: nat)
    requires n <= |replies|
    ensures Outputs(env, replies + [reply], n) == Outputs(env, replies, n)
    ensures n == |replies| ==>
      Outputs(env, replies + [reply], n + 1) == Outputs(env, replies, n) + RoundOutputs(env, n, reply.calls)
  {
    if n > 0 {
      OutputsExtend(env, replies, reply, n - 1);
    }
  }

  /** The answer from everything the run holds; token counts are all reported or all estimated, never mixed. */
  method Finish(env: Env, requests: seq<Request>, replies: seq<Response>, refused: set<string>, results: seq<string>,
                truncated: bool, estPrompt: nat, estCompletion: nat) returns (a: Answer)
    requires estPrompt == PromptEstimate(env, requests) && estCompletion == CompletionEstimate(env, replies)
    ensures a.results == results && a.truncated == truncated
    ensures Faithful(env, requests, replies, refused, a)
  {
    var text := PickText(replies);
    var records, usage, reported := Tally(replies, refused);
    a := Answer(text, results, records, |replies|, truncated, usage, estPrompt, estCompletion, true);
    if reported {
      a := a.(promptTokens := usage.input, completionTokens := usage.output, estimated := false);
    }
  }

  /** Alternates provider calls and rounds of tools until a reply makes no calls or the round past the budget is in.
      */
  method Run(env: Env, first: seq<Message>)
    returns (outcome: Result<Answer, Failure>, requests: seq<Request>, replies: seq<Response>, refused: set<string>,
             ghost ran: nat)
    ensures Talk(env, first, requests, replies)
    ensures env.tools != [] && Legal(Wire(first)) && AllEncode(first) ==> forall req | req in requests :: Sendable(req)
    ensures |requests| <= (if env.maxIterations >= 1 then env.maxIterations else 1) + 1
    ensures outcome.Ok? ==> Accounts(env, requests, replies, refused, outcome.value, ran)
    ensures outcome == Err(ProviderFailed) ==> |requests| == |replies| + 1 && env.generate(|replies|).GenerateFailed?
    ensures outcome == Err(ToolCallFailed) ==>
      && |requests| == |replies| > 0
      && var n := |replies| - 1;
         exists i :: 0 <= i < |replies[n].calls| && Outcome(env, n, i, replies[n].calls[i]).ToolFailed?
  {
    hide Wire, Legal, AllEncode, Chars, Estimated, Talk, Ended, Faithful, RefusedAt, IdSet, Reports, Refusals,
      RoundOutputs, Outputs, PromptEstimate, CompletionEstimate, Heard, Outcome, Report, OutputText;
    var messages := first;
    var results: seq<string> := [];
    var iterations := 0;
    var truncated := false;
    var estPrompt, estCompletion := 0, 0;
    requests, replies, refused := [], [], {};
    ran := 0;
    ghost var sound := env.tools != [] && Legal(Wire(first)) && AllEncode(first);
    NothingYet(env, first);
    while true
      invariant InProgress(env, first, requests, replies, refused, truncated, ran)
      invariant iterations == |replies|
      invariant messages == Upcoming(env, first, requests, replies)
      invariant sound ==> Legal(Wire(messages)) && AllEncode(messages)
      invariant sound ==> forall req | req in requests :: Sendable(req)
      invariant iterations > 0 && !truncated ==> iterations < env.maxIterations
      invariant truncated ==> iterations <= if env.maxIterations >= 1 then env.maxIterations else 1
      invariant results == Outputs(env, replies, ran)
      invariant estPrompt == PromptEstimate(env, requests)
      invariant estCompletion == CompletionEstimate(env, replies)
      decreases !truncated, if iterations == 0 then 1 else 0, env.maxIterations - iterations
    {
      var choice := if iterations == 0 then Any else Auto;
      var held := Estimate(env, messages);
      estPrompt := estPrompt + held;
      var req := Request(env.system, messages, env.tools, choice);
      TalkExtends(env, first, requests, replies, req);
      EstimatesSnoc(env, requests, req, replies, Response("", [], None));
      requests := requests + [req];
      var generated := env.generate(iterations);
      if generated.GenerateFailed? {
        outcome := Err(ProviderFailed);
        return;
      }
      var reply := Heard(generated);
      var said := SaidBy(reply);
      messages := messages + [said];
      var spoken := EstimateTokens([said], env.argChars);
      estCompletion := estCompletion + spoken;
      OneCall(env, first, requests[..iterations], replies, refused, truncated, ran, req, reply);
      OutputsExtend(env, replies, reply, ran);
      EstimatesSnoc(env, requests, req, replies, reply);
      replies := replies + [reply];
      iterations := iterations + 1;
      if |reply.calls| == 0 || truncated {
        break;
      }
      held := Estimate(env, messages);
      if sound {
        ContinuedIsLegal(env, req.messages, iterations - 1, reply);
      }
      if iterations >= env.maxIterations || held >= env.maxTokens {
        messages, refused := Refuse(messages, reply.calls);
        truncated := true;
        continue;
      }
      var out := RunTools(env, iterations - 1, reply.calls);
      if out.Err? {
        assert replies[iterations - 1] == reply;
        outcome := Err(out.error);
        return;
      }
      results := results + out.value;
      messages := Answered(env, iterations - 1, messages, reply.calls, out.value);
      ran := ran + 1;
    }
    var answer := Finish(env, requests, replies, refused, results, truncated, estPrompt, estCompletion);
    outcome := Ok(answer);
    assert Accounts(env, requests, replies, refused, answer, ran);
  }

  /** A question behind its history, cut and converted, run against one snapshot that must be named outright. */
  method AnswerQuestion(env: Env, question: string, snapshotId: string, history: seq<Stored>, maxHistory: int,
                        cardFound: bool)
    returns (outcome: Result<Answer, Failure>, requests: seq<Request>, replies: seq<Response>)
    ensures snapshotId == "latest" ==> outcome == Err(LatestSnapshot) && requests == []
    ensures snapshotId != "latest" && !cardFound ==> outcome == Err(CardFailed) && requests == []
    ensures snapshotId != "latest" && cardFound ==>
      exists kept :: Truncates(history, maxHistory, kept)
        && Talk(env, Converted(kept) + [Asked(question)], requests, replies)
    ensures |requests| <= (if env.maxIterations >= 1 then env.maxIterations else 1) + 1
    ensures env.tools != [] && Shaped(history) && question != "" ==> forall req | req in requests :: Sendable(req)
    ensures outcome.Ok? ==> exists refused, ran :: Accounts(env, requests, replies, refused, outcome.value, ran)
  {
    hide Talk, Accounts, Legal, Wire, Sendable, Truncates;
    requests, replies := [], [];
    if snapshotId == "latest" {
      outcome := Err(LatestSnapshot);
      return;
    }
    var kept := TruncateHistory(history, maxHistory);
    var messages := ToLLMMessages(kept);
    messages := messages + [Asked(question)];
    if Shaped(history) && question != "" {
      TruncatedIsPlain(history, maxHistory, kept);
      QuestionLast(Converted(kept), question);
    }
    if !cardFound {
      outcome := Err(CardFailed);
      return;
    }
    var refused;
    ghost var ran;
    outcome, requests, replies, refused, ran := Run(env, messages);
  }

  lemma {:induction false} QuestionLast(ms: seq<Message>, question: string)
    requires Plain(ms)
    ensures Legal(Wire(ms + [Asked(question)])) && AllEncode(ms + [Asked(question)])
  {
    var all := ms + [Asked(question)];
    forall i | 0 <= i < |all|
      ensures RepliesToUser(all, i)
    {
      assert i < |ms| ==> RepliesToUser(ms, i);
    }
    PlainIsLegal(all);
  }

  // ---- the account the answer gives ----

  lemma {:induction false} AllCallsSplit(replies: seq<Response>, k: nat)
    requires k <= |replies|
    ensures AllCalls(replies) == AllCalls(replies[..k]) + AllCalls(replies[k..])
  {
    if k == |replies| {
      assert replies[..k] == replies;
    } else {
      AllCallsSplit(replies[..|replies| - 1], k);
      assert replies[..|replies| - 1][..k] == replies[..k];
      assert replies[k..][..|replies| - k - 1] == replies[..|replies| - 1][k..];
    }
  }

  lemma {:induction false} RecordedOutside(calls: seq<ToolCall>, refused: set<string>)
    ensures (forall c | c in calls :: c.id !in refused) ==> Recorded(calls, refused) == Recorded(calls, {})
    ensures (forall c | c in calls :: c.id in refused) ==> Recorded(calls, refused) == []
  {
    if calls != [] {
      RecordedOutside(calls[..|calls| - 1], refused);
      assert calls[|calls| - 1] in calls;
      assert forall c | c in calls[..|calls| - 1] :: c in calls;
    }
  }

  lemma {:induction false} OutputsCount(env: Env, replies: seq<Response>, n: nat)
    requires n <= |replies|
    ensures |Outputs(env, replies, n)| == |AllCalls(replies[..n])|
  {
    if n > 0 {
      OutputsCount(env, replies, n - 1);
      assert replies[..n][..n - 1] == replies[..n - 1];
    }
  }

  ghost predicate DistinctIds(calls: seq<ToolCall>) {
    forall i, j | 0 <= i < j < |calls| :: calls[i].id != calls[j].id
  }

  /** Every call requested was run, refused or left in the reply past the budget, and the records are all but the
      refused. Only the calls that ran have results, so a call left over is recorded without having been run. */
  lemma {:induction false} EveryCallAccounted(env: Env, requests: seq<Request>, replies: seq<Response>,
                                              refused: set<string>, a: Answer, ran: nat)
    returns (run: seq<ToolCall>, turnedAway: seq<ToolCall>, left: seq<ToolCall>)
    requires Accounts(env, requests, replies, refused, a, ran) && DistinctIds(AllCalls(replies))
    ensures AllCalls(replies) == run + turnedAway + left
    ensures |a.results| == |run|
    ensures a.records == Recorded(run + left, {})
    ensures refused == IdSet(turnedAway)
    ensures a.truncated <==> turnedAway != []
    ensures !a.truncated ==> left == []
    ensures |a.records| == |a.results| <==> left == []
  {
    run := AllCalls(replies[..ran]);
    AllCallsSplit(replies, ran);
    OutputsCount(env, replies, ran);
    var rest := replies[ran..];
    if a.truncated {
      turnedAway, left := rest[0].calls, rest[1].calls;
      assert rest[..1][..0] == [] && AllCalls(rest[..1]) == turnedAway;
    } else {
      turnedAway, left := [], [];
      assert rest[..0] == [] && AllCalls(rest) == rest[0].calls;
    }
    assert AllCalls(replies) == run + turnedAway + left;
    RecordsSkipRefused(run, turnedAway, left);
    RecordedAll(run + left);
  }

  lemma {:induction false} RecordedAll(calls: seq<ToolCall>)
    ensures |Recorded(calls, {})| == |calls|
  {
    if calls != [] {
      RecordedAll(calls[..|calls| - 1]);
    }
  }

  const FIRST := ToolCall("a", "find", "")
  const SECOND := ToolCall("b", "find", "")

  /** A run that records a call it never ran: a budget of one round and a provider that asks for a tool each time. The
      first call is refused, the second left in the last reply. */
  lemma RecordedUnrun(env: Env, first: seq<Message>) returns (requests: seq<Request>, replies: seq<Response>, a: Answer)
    requires env.maxIterations == 1
    requires env.generate(0) == Reply(Response("", [FIRST], None))
    requires env.generate(1) == Reply(Response("", [SECOND], None))
    ensures Talk(env, first, requests, replies) && Accounts(env, requests, replies, {FIRST.id}, a, 0)
    ensures DistinctIds(AllCalls(replies)) && |a.results| == 0 && |a.records| == 1
  {
    var r0, r1 := Response("", [FIRST], None), Response("", [SECOND], None);
    replies := [r0, r1];
    requests := [Request(env.system, first, env.tools, Any),
                 Request(env.system, Continued(env, first, 0, r0), env.tools, Auto)];
    a := Answer(FinalText(replies), [], Recorded([FIRST, SECOND], {FIRST.id}), 2, true, UsageSum(replies),
                PromptEstimate(env, requests), CompletionEstimate(env, replies), true);
    UnrunTalk(env, first, requests, replies);
    UnrunCalls(replies);
    hide Talk, Continued, PromptEstimate, CompletionEstimate, Estimated, FinalText, Recorded, UsageSum, AllCalls;
    assert !AllReported(replies) by { assert replies[0].usage.None?; }
    assert RefusedAt(env, requests, replies, 0);
    assert Outputs(env, replies, 0) == [];
  }

  lemma UnrunTalk(env: Env, first: seq<Message>, requests: seq<Request>, replies: seq<Response>)
    requires env.generate(0) == Reply(Response("", [FIRST], None))
    requires env.generate(1) == Reply(Response("", [SECOND], None))
    requires replies == [Response("", [FIRST], None), Response("", [SECOND], None)]
    requires requests == [Request(env.system, first, env.tools, Any),
                          Request(env.system, Continued(env, first, 0, replies[0]), env.tools, Auto)]
    ensures Talk(env, first, requests, replies)
  {
    hide Continued;
    assert Continues(env, requests, replies, 0);
  }

  lemma UnrunCalls(replies: seq<Response>)
    requires replies == [Response("", [FIRST], None), Response("", [SECOND], None)]
    ensures AllCalls(replies) == [FIRST, SECOND] && DistinctIds([FIRST, SECOND]) && IdSet([FIRST]) == {FIRST.id}
    ensures |Recorded([FIRST, SECOND], {FIRST.id})| == 1
  {
    assert FIRST.id[0] != SECOND.id[0];
    hide Recorded;
    assert replies[..1] == [replies[0]] && [replies[0]][..0] == [];
    assert AllCalls([replies[0]]) == [FIRST];
    assert IdSet([FIRST]) == {FIRST.id};
    RecordsSkipRefused([], [FIRST], [SECOND]);
    assert [] + [FIRST] + [SECOND] == [FIRST, SECOND] && [] + [SECOND] == [SECOND];
    RecordedAll([SECOND]);
  }

  lemma {:induction false} RecordsSkipRefused(run: seq<ToolCall>, turnedAway: seq<ToolCall>, left: seq<ToolCall>)
    requires DistinctIds(run + turnedAway + left)
    ensures Recorded(run + turnedAway + left, IdSet(turnedAway)) == Recorded(run + left, {})
  {
    hide Recorded;
    var refused := IdSet(turnedAway);
    DistinctApart(run, turnedAway, left);
    RecordedConcat(run + turnedAway, left, refused);
    RecordedConcat(run, turnedAway, refused);
    RecordedConcat(run, left, {});
    RecordedOutside(run, refused);
    RecordedOutside(turnedAway, refused);
    RecordedOutside(left, refused);
  }

  lemma {:induction false} DistinctApart(run: seq<ToolCall>, mid: seq<ToolCall>, left: seq<ToolCall>)
    requires DistinctIds(run + mid + left)
    ensures forall c | c in run || c in left :: c.id !in IdSet(mid)
  {
    var all := run + mid + left;
    forall i, j | 0 <= i < |run| && 0 <= j < |mid|
      ensures run[i].id != mid[j].id
    {
      assert all[i] == run[i] && all[|run| + j] == mid[j];
    }
    forall i, j | 0 <= i < |left| && 0 <= j < |mid|
      ensures left[i].id != mid[j].id
    {
      assert all[|run| + |mid| + i] == left[i] && all[|run| + j] == mid[j];
    }
  }
}
