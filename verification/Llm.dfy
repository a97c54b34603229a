/** The provider-neutral messages, and the turns the Messages API is sent. */
module Llm {
  datatype Role = User | Assistant | Tool | Unknown

  datatype ToolCall = ToolCall(id: string, name: string, args: string)

  datatype Message = Message(role: Role, text: string, calls: seq<ToolCall>, callId: string, toolName: string)

  function Asked(text: string): Message {
    Message(User, text, [], "", "")
  }

  function Said(text: string, calls: seq<ToolCall>): Message {
    Message(Assistant, text, calls, "", "")
  }

  function Reported(id: string, name: string, text: string): Message {
    Message(Tool, text, [], id, name)
  }

  datatype ToolChoice = Auto | Any

  datatype Request = Request(system: string, messages: seq<Message>, tools: seq<string>, choice: ToolChoice)

  datatype Block =
    | TextBlock(text: string)
    | ToolUse(id: string, args: string, name: string)
    | ToolResult(id: string, text: string)

  datatype Speaker = UserTurn | AssistantTurn

  datatype Turn = Turn(speaker: Speaker, content: seq<Block>)

  datatype EncodeError = AnyWithoutTools | EmptyAssistant(at: nat) | UnknownRole(at: nat)

  datatype Result<+T, +E> = Ok(value: T) | Err(error: E)
}

/** Encoding a request for the Messages API: roles alternate, and results lead the turn that carries them. */
module Anthropic {
  import opened Llm
  import opened Reading

  function OrEmptyObject(args: string): string {
    if args == "" then "{}" else args
  }

  function Use(call: ToolCall): Block {
    ToolUse(call.id, OrEmptyObject(call.args), call.name)
  }

  function Uses(calls: seq<ToolCall>): seq<Block> {
    seq(|calls|, i requires 0 <= i < |calls| => Use(calls[i]))
  }

  /** What one assistant message says: its text, if any, then its calls in order. */
  function AssistantBlocks(m: Message): seq<Block> {
    (if m.text != "" then [TextBlock(m.text)] else []) + Uses(m.calls)
  }

  /** The tool results of a run of messages, in order. */
  function Results(run: seq<Message>): seq<Block> {
    if run == [] then [] else
      var m := run[|run| - 1];
      Results(run[..|run| - 1]) + (if m.role.Tool? then [ToolResult(m.callId, m.text)] else [])
  }

  /** The user texts of a run of messages, in order. */
  function Texts(run: seq<Message>): seq<Block> {
    if run == [] then [] else
      var m := run[|run| - 1];
      Texts(run[..|run| - 1]) + (if m.role.User? then [TextBlock(m.text)] else [])
  }

  /** Where the trailing run of messages with no assistant among them begins. */
  function RunStart(ms: seq<Message>): (k: nat)
    ensures k <= |ms|
    ensures forall j | k <= j < |ms| :: !ms[j].role.Assistant?
    ensures k == 0 || ms[k - 1].role.Assistant?
  {
    if ms == [] || ms[|ms| - 1].role.Assistant? then |ms| else RunStart(ms[..|ms| - 1])
  }

  /** The turns a message list stands for: each assistant message alone, and everything
      between two of them as one user turn that gives all its results before all its texts. */
  function Wire(ms: seq<Message>): seq<Turn>
    decreases |ms|
  {
    if ms == [] then []
    else if ms[|ms| - 1].role.Assistant? then
      Wire(ms[..|ms| - 1]) + [Turn(AssistantTurn, AssistantBlocks(ms[|ms| - 1]))]
    else
      var k := RunStart(ms);
      Wire(ms[..k]) + [Turn(UserTurn, Results(ms[k..]) + Texts(ms[k..]))]
  }

  predicate Encodes(m: Message) {
    !m.role.Unknown? && (m.role.Assistant? ==> m.text != "" || m.calls != [])
  }

  predicate AllEncode(ms: seq<Message>) {
    forall m | m in ms :: Encodes(m)
  }

  function Fault(m: Message, at: nat): EncodeError {
    if m.role.Unknown? then UnknownRole(at) else EmptyAssistant(at)
  }

  /** The block a user or tool message is sent as. */
  predicate Carries(b: Block, m: Message) {
    match m.role
    case User => b == TextBlock(m.text)
    case Tool => b == ToolResult(m.callId, m.text)
    case _ => false
  }

  /** The turns with one block merged in: a turn of its own behind an assistant turn, otherwise a place in the
      trailing user turn, a result behind the last result there and a text at the very end. */
  ghost predicate Appended(turns: seq<Turn>, b: Block, out: seq<Turn>) {
    if turns == [] || turns[|turns| - 1].speaker.AssistantTurn? then out == turns + [Turn(UserTurn, [b])]
    else exists at :: AppendedAt(turns, b, out, at)
  }

  ghost predicate AppendedAt(turns: seq<Turn>, b: Block, out: seq<Turn>, at: nat)
    requires turns != []
  {
    var blocks := turns[|turns| - 1].content;
    Slot(blocks, b, at) && out == turns[..|turns| - 1] + [Turn(UserTurn, Inserted(blocks, b, at))]
  }

  /** Merges a block into a trailing user turn, as roles must alternate. */
  method AppendUser(turns: seq<Turn>, b: Block) returns (out: seq<Turn>)
    ensures Appended(turns, b, out)
  {
    var n := |turns|;
    if n == 0 || turns[n - 1].speaker != UserTurn {
      return turns + [Turn(UserTurn, [b])];
    }
    var blocks := turns[n - 1].content;
    var at := |blocks|;
    if b.ToolResult? {
      while at > 0 && !blocks[at - 1].ToolResult?
        invariant 0 <= at <= |blocks|
        invariant forall j | at <= j < |blocks| :: !blocks[j].ToolResult?
      {
        at := at - 1;
      }
    }
    out := turns[..n - 1] + [Turn(UserTurn, Inserted(blocks, b, at))];
    assert AppendedAt(turns, b, out, at);
  }

  ghost predicate Slot(blocks: seq<Block>, b: Block, at: int) {
    && 0 <= at <= |blocks|
    && (if b.ToolResult?
        then (forall j | at <= j < |blocks| :: !blocks[j].ToolResult?) && (at == 0 || blocks[at - 1].ToolResult?)
        else at == |blocks|)
  }

  function Inserted(blocks: seq<Block>, b: Block, at: nat): seq<Block>
    requires at <= |blocks|
  {
    blocks[..at] + [b] + blocks[at..]
  }

  lemma {:induction false} RunBlocks(run: seq<Message>)
    ensures forall b | b in Results(run) :: b.ToolResult?
    ensures forall b | b in Texts(run) :: b.TextBlock?
  {
    if run != [] {
      RunBlocks(run[..|run| - 1]);
    }
  }

  lemma {:induction false} OnePlace(r: seq<Block>, t: seq<Block>, b: Block, at: nat)
    requires (forall x | x in r :: x.ToolResult?) && (forall x | x in t :: x.TextBlock?)
    requires Slot(r + t, b, at)
    ensures at == if b.ToolResult? then |r| else |r| + |t|
  {
    if b.ToolResult? {
      assert r != [] ==> (r + t)[|r| - 1] in r;
      assert forall j | |r| <= j < |r + t| :: (r + t)[j] in t;
    }
  }

  /** The one place a block can go keeps a run's results ahead of its texts. */
  lemma {:induction false} SlotExtendsRun(run: seq<Message>, m: Message, b: Block, at: nat)
    requires Carries(b, m)
    requires Slot(Results(run) + Texts(run), b, at)
    ensures Inserted(Results(run) + Texts(run), b, at) == Results(run + [m]) + Texts(run + [m])
  {
    RunBlocks(run);
    var r, t := Results(run), Texts(run);
    OnePlace(r, t, b, at);
    assert (run + [m])[..|run|] == run;
    assert (r + t)[..|r|] == r && (r + t)[|r|..] == t;
  }

  lemma {:induction false} WireSnocAssistant(ms: seq<Message>, m: Message)
    requires m.role.Assistant?
    ensures Wire(ms + [m]) == Wire(ms) + [Turn(AssistantTurn, AssistantBlocks(m))]
  {
    assert (ms + [m])[..|ms|] == ms;
  }

  /** A run behind an assistant message, or at the start, becomes exactly one user turn. */
  lemma {:induction false} RunStartOf(ms: seq<Message>, run: seq<Message>)
    requires forall m | m in run :: !m.role.Assistant?
    requires ms == [] || ms[|ms| - 1].role.Assistant?
    ensures RunStart(ms + run) == |ms|
  {
    var all := ms + run;
    assert ms != [] ==> all[|ms| - 1] == ms[|ms| - 1];
    assert forall j | |ms| <= j < |all| :: all[j] in run;
  }

  lemma {:induction false} WireRun(ms: seq<Message>, run: seq<Message>)
    requires run != [] && forall m | m in run :: !m.role.Assistant?
    requires ms == [] || ms[|ms| - 1].role.Assistant?
    ensures Wire(ms + run) == Wire(ms) + [Turn(UserTurn, Results(run) + Texts(run))]
  {
    RunStartOf(ms, run);
    assert (ms + run)[|ms + run| - 1] == run[|run| - 1];
    assert run[|run| - 1] in run;
    assert (ms + run)[..|ms|] == ms && (ms + run)[|ms|..] == run;
  }

  lemma {:induction false} WireEnd(ms: seq<Message>)
    requires ms != []
    ensures Wire(ms) != []
    ensures Wire(ms)[|Wire(ms)| - 1].speaker.AssistantTurn? <==> ms[|ms| - 1].role.Assistant?
  {
  }

  lemma {:induction false} AppendedToRun(ms: seq<Message>, run: seq<Message>, m: Message, b: Block, out: seq<Turn>)
    requires run != [] && forall x | x in run :: !x.role.Assistant?
    requires ms == [] || ms[|ms| - 1].role.Assistant?
    requires Carries(b, m)
    requires Appended(Wire(ms) + [Turn(UserTurn, Results(run) + Texts(run))], b, out)
    ensures out == Wire(ms + (run + [m]))
  {
    var blocks := Results(run) + Texts(run);
    var turns := Wire(ms) + [Turn(UserTurn, blocks)];
    var at: nat :| AppendedAt(turns, b, out, at);
    assert turns[..|turns| - 1] == Wire(ms);
    SlotExtendsRun(run, m, b, at);
    WireRun(ms, run + [m]);
  }

  lemma {:induction false} AppendedAfterAssistant(ms: seq<Message>, m: Message, b: Block, out: seq<Turn>)
    requires ms == [] || ms[|ms| - 1].role.Assistant?
    requires Carries(b, m)
    requires Appended(Wire(ms), b, out)
    ensures out == Wire(ms + [m])
  {
    if ms != [] {
      WireEnd(ms);
    }
    WireRun(ms, [m]);
    var none: seq<Block> := [];
    assert Results([]) + Texts([]) == none;
    SlotExtendsRun([], m, b, 0);
    assert Inserted(none, b, 0) == [b] && [] + [m] == [m];
  }

  /** One more user or tool message is what AppendUser does to the turns so far. */
  lemma {:induction false} AppendedIsWire(ms: seq<Message>, m: Message, b: Block, out: seq<Turn>)
    requires Carries(b, m)
    requires Appended(Wire(ms), b, out)
    ensures out == Wire(ms + [m])
  {
    var k := RunStart(ms);
    if k == |ms| {
      AppendedAfterAssistant(ms, m, b, out);
    } else {
      var start, run := ms[..k], ms[k..];
      assert ms == start + run && ms + [m] == start + (run + [m]);
      assert Wire(ms) == Wire(start) + [Turn(UserTurn, Results(run) + Texts(run))] by {
        WireRun(start, run);
      }
      AppendedToRun(start, run, m, b, out);
    }
  }

  lemma {:induction false} WireNothing()
    ensures Wire([]) == []
  {
  }

  // ---- reading the turns back ----

  lemma {:induction false} HeardSnoc(content: seq<Block>, b: Block)
    ensures var before, after := Heard(content), Heard(content + [b]);
      match b
      case TextBlock(text) => after == before.(text := before.text + text)
      case ToolUse(id, args, name) =>
        after == before.(calls := before.calls + [ToolCall(id, name, if args == "" then "{}" else args)])
      case ToolResult(_, _) => after == before
  {
    assert (content + [b])[..|content|] == content;
  }

  lemma {:induction false} HeardUses(blocks: seq<Block>, calls: seq<ToolCall>)
    ensures Heard(blocks + Uses(calls)).text == Heard(blocks).text
    ensures Heard(blocks + Uses(calls)).calls == Heard(blocks).calls + AsRead(calls)
  {
    hide Heard;
    if calls == [] {
      assert blocks + Uses(calls) == blocks;
    } else {
      var n := |calls| - 1;
      HeardUses(blocks, calls[..n]);
      assert blocks + Uses(calls) == blocks + Uses(calls[..n]) + [Use(calls[n])];
      HeardSnoc(blocks + Uses(calls[..n]), Use(calls[n]));
    }
  }

  lemma {:induction false} HeardAsSaid(m: Message)
    requires m.role.Assistant?
    ensures AssistantSaid([m]) == [Heard(AssistantBlocks(m))]
  {
    var text := if m.text != "" then [TextBlock(m.text)] else [];
    HeardUses(text, m.calls);
    assert Heard(text) == Utterance(m.text, []) by {
      assert Heard([]) == Utterance("", []);
      HeardSnoc([], TextBlock(m.text));
      assert [] + [TextBlock(m.text)] == [TextBlock(m.text)] && "" + m.text == m.text;
    }
    hide Heard, Uses, AsRead;
    assert [] + AsRead(m.calls) == AsRead(m.calls);
    assert [m][..0] == [];
  }

  lemma {:induction false} InCat(a: seq<Block>, b: seq<Block>)
    ensures ResultsIn(a + b) == ResultsIn(a) + ResultsIn(b) && TextsIn(a + b) == TextsIn(a) + TextsIn(b)
  {
    if b == [] {
      assert a + b == a;
    } else {
      InCat(a, b[..|b| - 1]);
      assert (a + b)[..|a + b| - 1] == a + b[..|b| - 1];
    }
  }

  lemma {:induction false} GivenSnoc(ms: seq<Message>, m: Message)
    ensures ResultsGiven(ms + [m]) == ResultsGiven(ms) + if m.role.Tool? then [Returned(m.callId, m.text)] else []
    ensures TextsGiven(ms + [m]) == TextsGiven(ms) + if m.role.User? then [m.text] else []
    ensures AssistantSaid(ms + [m])
         == AssistantSaid(ms) + if m.role.Assistant? then [Utterance(m.text, AsRead(m.calls))] else []
  {
    assert (ms + [m])[..|ms|] == ms;
  }

  lemma {:induction false} GivenCat(a: seq<Message>, b: seq<Message>)
    ensures ResultsGiven(a + b) == ResultsGiven(a) + ResultsGiven(b)
    ensures TextsGiven(a + b) == TextsGiven(a) + TextsGiven(b)
    ensures AssistantSaid(a + b) == AssistantSaid(a) + AssistantSaid(b)
  {
    if b == [] {
      assert a + b == a;
    } else {
      var n := |b| - 1;
      GivenCat(a, b[..n]);
      assert a + b == a + b[..n] + [b[n]] && b == b[..n] + [b[n]];
      hide ResultsGiven, TextsGiven, AssistantSaid, AsRead;
      GivenSnoc(a + b[..n], b[n]);
      GivenSnoc(b[..n], b[n]);
    }
  }

  lemma {:induction false} RunGives(run: seq<Message>)
    ensures ResultsIn(Results(run)) == ResultsGiven(run) && TextsIn(Results(run)) == []
    ensures TextsIn(Texts(run)) == TextsGiven(run) && ResultsIn(Texts(run)) == []
  {
    if run != [] {
      var n := |run| - 1;
      RunGives(run[..n]);
      var r := if run[n].role.Tool? then [ToolResult(run[n].callId, run[n].text)] else [];
      var t := if run[n].role.User? then [TextBlock(run[n].text)] else [];
      InCat(Results(run[..n]), r);
      InCat(Texts(run[..n]), t);
      assert r != [] ==> r[..0] == [];
      assert t != [] ==> t[..0] == [];
    }
  }

  lemma {:induction false} SaysNothing(run: seq<Message>)
    requires forall m | m in run :: !m.role.Assistant?
    ensures AssistantSaid(run) == []
  {
    if run != [] {
      assert run[|run| - 1] in run;
      SaysNothing(run[..|run| - 1]);
    }
  }

  lemma {:induction false} ReadSnoc(ts: seq<Turn>, t: Turn)
    ensures AssistantSays(ts + [t]) == AssistantSays(ts) + if t.speaker.AssistantTurn? then [Heard(t.content)] else []
    ensures UserResults(ts + [t]) == UserResults(ts) + if t.speaker.UserTurn? then ResultsIn(t.content) else []
    ensures UserTexts(ts + [t]) == UserTexts(ts) + if t.speaker.UserTurn? then TextsIn(t.content) else []
  {
    assert (ts + [t])[..|ts|] == ts;
  }

  lemma {:induction false} ReadsBackSnoc(ts: seq<Turn>, ms: seq<Message>, t: Turn, rest: seq<Message>)
    requires ReadsBack(ts, ms)
    requires AssistantSaid(rest) == if t.speaker.AssistantTurn? then [Heard(t.content)] else []
    requires ResultsGiven(rest) == if t.speaker.UserTurn? then ResultsIn(t.content) else []
    requires TextsGiven(rest) == if t.speaker.UserTurn? then TextsIn(t.content) else []
    requires t.speaker.AssistantTurn? || ts == [] || ts[|ts| - 1].speaker.AssistantTurn?
    ensures ReadsBack(ts + [t], ms + rest)
  {
    hide Heard, ResultsIn, TextsIn, AssistantSays, AssistantSaid, UserResults, UserTexts, ResultsGiven, TextsGiven;
    ReadSnoc(ts, t);
    GivenCat(ms, rest);
  }

  /** The turns a list stands for read back as the list. Only a role the encoder refuses could go unread. */
  lemma {:induction false} WireReadsBack(ms: seq<Message>)
    ensures ReadsBack(Wire(ms), ms)
    decreases |ms|
  {
    hide Heard, ResultsIn, TextsIn, Results, Texts, AssistantBlocks, AssistantSaid, ResultsGiven, TextsGiven;
    if ms == [] {
      NothingReadsBack();
      return;
    }
    hide ReadsBack;
    var n := |ms| - 1;
    if ms[n].role.Assistant? {
      var m := ms[n];
      WireReadsBack(ms[..n]);
      assert ms == ms[..n] + [m];
      HeardAsSaid(m);
      GivesNothing(m);
      ReadsBackSnoc(Wire(ms[..n]), ms[..n], Turn(AssistantTurn, AssistantBlocks(m)), [m]);
    } else {
      var k := RunStart(ms);
      var before, run := ms[..k], ms[k..];
      WireReadsBack(before);
      assert ms == before + run;
      InCat(Results(run), Texts(run));
      RunGives(run);
      SaysNothing(run);
      if before != [] {
        WireEnd(before);
      }
      ReadsBackSnoc(Wire(before), before, Turn(UserTurn, Results(run) + Texts(run)), run);
    }
  }

  lemma NothingReadsBack()
    ensures ReadsBack(Wire([]), [])
  {
  }

  lemma GivesNothing(m: Message)
    requires m.role.Assistant?
    ensures ResultsGiven([m]) == [] && TextsGiven([m]) == []
  {
    assert [m][..0] == [];
  }

  method BlocksOf(m: Message) returns (blocks: seq<Block>)
    ensures blocks == AssistantBlocks(m)
  {
    blocks := if m.text != "" then [TextBlock(m.text)] else [];
    var j := 0;
    while j < |m.calls|
      invariant 0 <= j <= |m.calls|
      invariant blocks == (if m.text != "" then [TextBlock(m.text)] else []) + Uses(m.calls)[..j]
    {
      blocks := blocks + [ToolUse(m.calls[j].id, OrEmptyObject(m.calls[j].args), m.calls[j].name)];
      j := j + 1;
    }
  }

  /** Encodes a request. It fails exactly when the first call is forced without tools or some message cannot
      be sent, and then names the first such message; otherwise the turns are those the list stands for. */
  method Encode(req: Request) returns (r: Result<seq<Turn>, EncodeError>)
    ensures r.Ok? <==> (req.choice.Any? ==> req.tools != []) && AllEncode(req.messages)
    ensures r.Ok? ==> r.value == Wire(req.messages)
    ensures r.Ok? ==> ReadsBack(r.value, req.messages)
    ensures r.Err? ==>
      || (r.error.AnyWithoutTools? && req.choice.Any? && req.tools == [])
      || (!r.error.AnyWithoutTools? && r.error.at < |req.messages| && AllEncode(req.messages[..r.error.at])
          && !Encodes(req.messages[r.error.at]) && r.error == Fault(req.messages[r.error.at], r.error.at))
  {
    if req.choice.Any? && |req.tools| == 0 {
      return Err(AnyWithoutTools);
    }
    hide Wire, Appended;
    var ms := req.messages;
    var out := [];
    var i := 0;
    WireNothing();
    while i < |ms|
      invariant 0 <= i <= |ms|
      invariant AllEncode(ms[..i])
      invariant out == Wire(ms[..i])
    {
      var m := ms[i];
      assert ms[..i + 1] == ms[..i] + [m];
      assert m in ms;
      match m.role {
        case User =>
          out := AppendUser(out, TextBlock(m.text));
          AppendedIsWire(ms[..i], m, TextBlock(m.text), out);
        case Tool =>
          out := AppendUser(out, ToolResult(m.callId, m.text));
          AppendedIsWire(ms[..i], m, ToolResult(m.callId, m.text), out);
        case Assistant =>
          var blocks := BlocksOf(m);
          if |blocks| == 0 {
            return Err(EmptyAssistant(i));
          }
          WireSnocAssistant(ms[..i], m);
          out := out + [Turn(AssistantTurn, blocks)];
        case Unknown =>
          return Err(UnknownRole(i));
      }
      i := i + 1;
    }
    assert ms[..i] == ms;
    WireReadsBack(ms);
    r := Ok(out);
  }

  function UseIds(content: seq<Block>): seq<string> {
    if content == [] then [] else (if content[0].ToolUse? then [content[0].id] else []) + UseIds(content[1..])
  }

  /** A user turn answers the calls before it: one result a call, in call order, ahead of any text. */
  ghost predicate Answers(user: seq<Block>, ids: seq<string>) {
    && |ids| <= |user|
    && (forall j | 0 <= j < |ids| :: user[j].ToolResult? && user[j].id == ids[j])
    && (forall j | |ids| <= j < |user| :: user[j].TextBlock?)
  }

  /** Speakers alternate at i, and the calls made there are answered at the front of the very next turn. */
  ghost predicate Handover(ts: seq<Turn>, i: int)
    requires 0 <= i < |ts| - 1
  {
    && ts[i].speaker != ts[i + 1].speaker
    && (ts[i].speaker.AssistantTurn? ==> Answers(ts[i + 1].content, UseIds(ts[i].content)))
  }

  /** What the Messages API accepts: user turns lead and close, the first with no results, no turn is empty,
      and every turn hands over to the next. */
  ghost predicate Legal(ts: seq<Turn>) {
    && |ts| > 0
    && ts[0].speaker.UserTurn? && Answers(ts[0].content, [])
    && ts[|ts| - 1].speaker.UserTurn?
    && (forall t | t in ts :: t.content != [])
    && (forall i | 0 <= i < |ts| - 1 :: Handover(ts, i))
  }

  function CallIds(calls: seq<ToolCall>): seq<string> {
    seq(|calls|, i requires 0 <= i < |calls| => calls[i].id)
  }

  lemma {:induction false} UseIdsOfUses(calls: seq<ToolCall>)
    ensures UseIds(Uses(calls)) == CallIds(calls)
  {
    if calls != [] {
      assert Uses(calls)[1..] == Uses(calls[1..]);
      UseIdsOfUses(calls[1..]);
      assert CallIds(calls) == [calls[0].id] + CallIds(calls[1..]);
    }
  }

  lemma {:induction false} UseIdsOfAssistant(m: Message)
    ensures UseIds(AssistantBlocks(m)) == CallIds(m.calls)
  {
    UseIdsOfUses(m.calls);
    if m.text != "" {
      assert AssistantBlocks(m)[1..] == Uses(m.calls);
    } else {
      assert AssistantBlocks(m) == Uses(m.calls);
    }
  }

  /** An exchange behind a legal list is legal again. */
  lemma {:induction false} LegalExchange(ts: seq<Turn>, said: seq<Block>, reply: seq<Block>)
    requires Legal(ts) && said != [] && reply != []
    requires Answers(reply, UseIds(said))
    ensures Legal(ts + [Turn(AssistantTurn, said), Turn(UserTurn, reply)])
  {
    var all := ts + [Turn(AssistantTurn, said), Turn(UserTurn, reply)];
    forall i | 0 <= i < |all| - 1
      ensures Handover(all, i)
    {
      assert i < |ts| - 1 ==> Handover(ts, i);
    }
  }

  /** One assistant message and the run that answers it keep a request legal. */
  lemma {:induction false} LegalStep(ms: seq<Message>, said: Message, run: seq<Message>)
    requires Legal(Wire(ms)) && AllEncode(ms)
    requires said.role.Assistant? && Encodes(said)
    requires run != [] && AllEncode(run) && forall m | m in run :: !m.role.Assistant?
    requires Answers(Results(run) + Texts(run), CallIds(said.calls))
    ensures Legal(Wire(ms + [said] + run)) && AllEncode(ms + [said] + run)
  {
    var reply := Results(run) + Texts(run);
    WireRun(ms + [said], run);
    WireSnocAssistant(ms, said);
    UseIdsOfAssistant(said);
    assert run[|run| - 1] in run;
    LegalExchange(Wire(ms), AssistantBlocks(said), reply);
    assert Wire(ms + [said] + run) == Wire(ms) + [Turn(AssistantTurn, AssistantBlocks(said)), Turn(UserTurn, reply)];
  }
}
