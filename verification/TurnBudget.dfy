/** What a turn's budget and its account come to, in characters, rounds and replies. */
module TurnBudget {
  import opened Text
  import opened Llm
  import opened Anthropic
  import opened History
  import opened Options
  import opened AgentLoop

  // ---- what is measured ----

  /** Characters add up message by message: the text, and the arguments of the calls as one list. */
  lemma {:induction false} CharsAdd(a: seq<Message>, b: seq<Message>, argChars: seq<string> -> nat)
    ensures Chars(a + b, argChars) == Chars(a, argChars) + Chars(b, argChars)
  {
    if b == [] {
      assert a + b == a;
    } else {
      CharsAdd(a, b[..|b| - 1], argChars);
      assert (a + b)[..|a + b| - 1] == a + b[..|b| - 1];
    }
  }

  lemma {:induction false} CharsOfOne(m: Message, args: seq<string>, argChars: seq<string> -> nat)
    requires |args| == |m.calls|
    requires forall k | 0 <= k < |args| :: args[k] == if m.calls[k].args == "" then "{}" else m.calls[k].args
    ensures Chars([], argChars) == 0
    ensures Chars([m], argChars) == |m.text| + if m.calls == [] then 0 else argChars(args)
  {
    assert [m][..0] == [];
    assert CallArgs(m.calls) == args;
  }

  /** The budget after a reply, in full: the system prompt, the request and the reply itself. */
  lemma {:induction false} SpentIs(env: Env, ms: seq<Message>, r: Response, args: seq<string>, iterations: nat)
    requires |args| == |r.calls|
    requires forall k | 0 <= k < |args| :: args[k] == if r.calls[k].args == "" then "{}" else r.calls[k].args
    ensures var chars := |env.system| + Chars(ms, env.argChars) + |r.text|
                         + if r.calls == [] then 0 else env.argChars(args);
      Spent(env, ms + [SaidBy(r)], iterations) <==> iterations >= env.maxIterations || chars / 4 >= env.maxTokens
  {
    hide Chars;
    CharsOfOne(SaidBy(r), args, env.argChars);
    CharsOfOne(Asked(env.system), [], env.argChars);
    CharsAdd(ms, [SaidBy(r)], env.argChars);
    CharsAdd([Asked(env.system)], ms + [SaidBy(r)], env.argChars);
  }

  // ---- the budget ----

  function Args(calls: seq<ToolCall>): seq<string> {
    seq(|calls|, k requires 0 <= k < |calls| => if calls[k].args == "" then "{}" else calls[k].args)
  }

  /** What the model hears of one call of a round that ran. */
  function Told(env: Env, round: nat, k: nat, call: ToolCall): Message {
    var text :=
      if call.name in env.tools then (var o := env.runTool(round, k); if o.Output? then o.text else "")
      else "Error: " + call.name + " is not a valid tool, try one of [" + Join(env.tools, ", ") + "].";
    Message(Tool, env.fence(text, call.name), [], call.id, call.name)
  }

  /** next is the request behind this one when the reply's calls ran: the reply, then each call's output. */
  ghost predicate RanTools(env: Env, ms: seq<Message>, round: nat, r: Response, next: seq<Message>) {
    && |next| == |ms| + 1 + |r.calls|
    && next[..|ms|] == ms && next[|ms|] == Message(Assistant, r.text, r.calls, "", "")
    && forall k | 0 <= k < |r.calls| :: next[|ms| + 1 + k] == Told(env, round, k, r.calls[k])
  }

  /** next is the request behind this one when the calls were turned away: each is told so, and a notice follows. */
  ghost predicate TurnedAway(ms: seq<Message>, r: Response, next: seq<Message>) {
    && |next| == |ms| + 1 + |r.calls| + 1
    && next[..|ms|] == ms && next[|ms|] == Message(Assistant, r.text, r.calls, "", "")
    && (forall k | 0 <= k < |r.calls| ::
          next[|ms| + 1 + k]
          == Message(Tool, TOOL_BUDGET_SPENT_RESULT, [], r.calls[k].id, r.calls[k].name))
    && next[|next| - 1] == Message(User, TOOL_BUDGET_SPENT, [], "", "")
  }

  lemma {:induction false} ContinuedIs(env: Env, ms: seq<Message>, n: nat, r: Response)
    ensures var next := Continued(env, ms, n, r);
      if Spent(env, ms + [SaidBy(r)], n + 1) then TurnedAway(ms, r, next) else RanTools(env, ms, n, r, next)
  {
    hide Spent;
  }

  /** Of every reply that calls tools and is followed by another request: its calls were run exactly when a round and
      some of the tokens were left, and turned away otherwise. The rounds before ran all had both. */
  lemma {:induction false} BudgetKept(env: Env, first: seq<Message>, requests: seq<Request>, replies: seq<Response>,
                                      refused: set<string>, a: Answer, ran: nat)
    requires Talk(env, first, requests, replies) && Accounts(env, requests, replies, refused, a, ran)
    ensures |requests| == |replies| == a.iterations == ran + if a.truncated then 2 else 1
    ensures forall i | 0 <= i < |requests| - 1 ::
      var ms, r, next := requests[i].messages, replies[i], requests[i + 1].messages;
      var chars := |env.system| + Chars(ms, env.argChars) + |r.text| + env.argChars(Args(r.calls));
      var left := i + 1 < env.maxIterations && chars / 4 < env.maxTokens;
      && r.calls != []
      && (RanTools(env, ms, i, r, next) <==> left)
      && (TurnedAway(ms, r, next) <==> !left)
      && (left <==> i < ran)
    ensures a.truncated
       <==> (|requests| >= 2
             && var i := |requests| - 2; TurnedAway(requests[i].messages, replies[i], requests[i + 1].messages))
  {
    hide Chars, Continued, Spent, FinalText, Recorded, UsageSum, PromptEstimate, CompletionEstimate, RanTools,
      TurnedAway, Outputs, IdSet;
    forall i | 0 <= i < |requests| - 1
      ensures
        var ms, r, next := requests[i].messages, replies[i], requests[i + 1].messages;
        var chars := |env.system| + Chars(ms, env.argChars) + |r.text| + env.argChars(Args(r.calls));
        var left := i + 1 < env.maxIterations && chars / 4 < env.maxTokens;
        && r.calls != []
        && (RanTools(env, ms, i, r, next) <==> left)
        && (TurnedAway(ms, r, next) <==> !left)
        && (left <==> i < ran)
    {
      assert Continues(env, requests, replies, i);
      assert RefusedAt(env, requests, replies, i) <==> i >= ran;
      SpentIs(env, requests[i].messages, replies[i], Args(replies[i].calls), i + 1);
      ContinuedIs(env, requests[i].messages, i, replies[i]);
      OneOrOther(env, requests[i].messages, i, replies[i], requests[i + 1].messages);
    }
  }

  /** Every call sends the system prompt and the tools, and only the first has to use one. A reply is heard as it
      came, and nothing said as a reply without words or calls. */
  lemma RequestsAre(env: Env, first: seq<Message>, requests: seq<Request>, replies: seq<Response>, i: nat)
    requires Talk(env, first, requests, replies) && i < |requests|
    ensures requests[i].system == env.system && requests[i].tools == env.tools
    ensures requests[i].choice == Any <==> i == 0
    ensures requests[0].messages == first
    ensures i < |replies| && env.generate(i).Reply? ==> replies[i] == env.generate(i).response
    ensures i < |replies| && env.generate(i).EmptyReply? ==> replies[i] == Response("", [], env.generate(i).usage)
  {
    hide Continues;
  }

  lemma OneOrOther(env: Env, ms: seq<Message>, n: nat, r: Response, next: seq<Message>)
    ensures !(RanTools(env, ms, n, r, next) && TurnedAway(ms, r, next))
  {
  }

  // ---- the account ----

  /** The text is that of the last reply that says something, without the white space around it, or the apology. */
  lemma {:induction false} TextIsTheLastSaid(replies: seq<Response>)
    ensures if forall r | r in replies :: Blank(r.text) then FinalText(replies) == NO_ANSWER_PRODUCED else
      exists i :: 0 <= i < |replies| && !Blank(replies[i].text) && FinalText(replies) == TrimSpace(replies[i].text)
        && forall j | i < j < |replies| :: Blank(replies[j].text)
  {
    if replies != [] {
      var n := |replies| - 1;
      var lo, hi := TrimSpaceSlice(replies[n].text);
      if TrimSpace(replies[n].text) == "" {
        TextIsTheLastSaid(replies[..n]);
        assert replies == replies[..n] + [replies[n]];
      }
    }
  }

  /** Reported usage adds up reply by reply, count by count. */
  lemma {:induction false} UsageAdds(a: seq<Response>, b: seq<Response>)
    ensures UsageSum(a + b).input == UsageSum(a).input + UsageSum(b).input
    ensures UsageSum(a + b).output == UsageSum(a).output + UsageSum(b).output
    ensures UsageSum(a + b).total == UsageSum(a).total + UsageSum(b).total
  {
    hide UsageSum, AllCalls, AllReported;
    if b == [] {
      assert a + b == a;
      UsageOfNone();
    } else {
      var n := |b| - 1;
      UsageAdds(a, b[..n]);
      TallySnoc(a + b[..n], b[n]);
      TallySnoc(b[..n], b[n]);
      assert a + b == a + b[..n] + [b[n]] && b == b[..n] + [b[n]];
    }
  }

  lemma UsageOfNone()
    ensures UsageSum([]) == Usage(0, 0, 0)
  {
  }

  lemma UsageOfOne(r: Response)
    ensures UsageSum([r]) == if r.usage.Some? then r.usage.value else Usage(0, 0, 0)
  {
    assert [r][..0] == [];
  }

  /** Both estimates add up call by call, a quarter of the characters of each. */
  lemma {:induction false} EstimatesAdd(env: Env, requests: seq<Request>, req: Request, replies: seq<Response>,
                                        r: Response)
    ensures PromptEstimate(env, requests + [req])
         == PromptEstimate(env, requests) + (|env.system| + Chars(req.messages, env.argChars)) / 4
    ensures CompletionEstimate(env, replies + [r])
         == CompletionEstimate(env, replies) + (|r.text| + if r.calls == [] then 0 else env.argChars(Args(r.calls))) / 4
    ensures PromptEstimate(env, []) == CompletionEstimate(env, []) == 0
  {
    hide Chars;
    EstimatesSnoc(env, requests, req, replies, r);
    CharsOfOne(SaidBy(r), Args(r.calls), env.argChars);
    CharsOfOne(Asked(env.system), [], env.argChars);
    CharsAdd([Asked(env.system)], req.messages, env.argChars);
  }

  /** With nothing refused, each call has its record: its name, and its arguments or an empty object. */
  lemma {:induction false} RecordsTell(calls: seq<ToolCall>)
    ensures |Recorded(calls, {})| == |calls|
    ensures forall k | 0 <= k < |calls| ::
      Recorded(calls, {})[k] == CallRecord(calls[k].name, if calls[k].args == "" then "{}" else calls[k].args)
  {
    if calls != [] {
      RecordsTell(calls[..|calls| - 1]);
    }
  }

  lemma {:induction false} JoinSnoc(parts: seq<string>, last: string, sep: string)
    ensures Join([], sep) == "" && Join([last], sep) == last
    ensures parts != [] ==> Join(parts + [last], sep) == Join(parts, sep) + sep + last
  {
    if |parts| == 1 {
      assert (parts + [last])[1..] == [last];
    } else if parts != [] {
      JoinSnoc(parts[1..], last, sep);
      assert (parts + [last])[1..] == parts[1..] + [last];
    }
  }

  /** The results are the outputs of the rounds that ran, in round and call order. */
  lemma {:induction false} ResultsInOrder(env: Env, replies: seq<Response>, n: nat, i: nat, k: nat)
    requires n <= |replies| && i < n && k < |replies[i].calls|
    ensures var at := |AllCalls(replies[..i])| + k;
      var call := replies[i].calls[k];
      && at < |Outputs(env, replies, n)|
      && (call.name in env.tools && env.runTool(i, k).Output? ==>
            Outputs(env, replies, n)[at] == env.runTool(i, k).text)
      && (call.name !in env.tools ==>
            Outputs(env, replies, n)[at]
            == "Error: " + call.name + " is not a valid tool, try one of [" + Join(env.tools, ", ") + "].")
  {
    if i < n - 1 {
      ResultsInOrder(env, replies, n - 1, i, k);
    } else {
      OutputsCount(env, replies, i);
    }
  }
}
