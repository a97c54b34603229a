/** What the Messages API's turns say, read back block by block. */
module Reading {
  import opened Llm

  /** What one message says and what it calls for. */
  datatype Utterance = Utterance(text: string, calls: seq<ToolCall>)

  datatype Returned = Returned(callId: string, text: string)

  /** A message's content as its reader takes it: texts run together, every tool use a call, nothing called "". */
  function Heard(content: seq<Block>): Utterance {
    if content == [] then Utterance("", []) else
      var before := Heard(content[..|content| - 1]);
      match content[|content| - 1]
      case TextBlock(text) => before.(text := before.text + text)
      case ToolUse(id, args, name) =>
        before.(calls := before.calls + [ToolCall(id, name, if args == "" then "{}" else args)])
      case ToolResult(_, _) => before
  }

  method Decode(content: seq<Block>) returns (said: Utterance)
    ensures said == Heard(content)
  {
    var text: string, calls: seq<ToolCall> := "", [];
    for i := 0 to |content|
      invariant Utterance(text, calls) == Heard(content[..i])
    {
      assert content[..i + 1][..i] == content[..i];
      match content[i] {
        case TextBlock(t) => text := text + t;
        case ToolUse(id, args, name) =>
          var call := ToolCall(id, name, if args == "" then "{}" else args);
          calls := calls + [call];
        case ToolResult(_, _) =>
      }
    }
    assert content[..|content|] == content;
    said := Utterance(text, calls);
  }

  /** What the assistant turns say, turn by turn. */
  function AssistantSays(ts: seq<Turn>): seq<Utterance> {
    if ts == [] then [] else
      AssistantSays(ts[..|ts| - 1])
      + if ts[|ts| - 1].speaker.AssistantTurn? then [Heard(ts[|ts| - 1].content)] else []
  }

  /** Calls as they were made, with no arguments at all read as an empty object. */
  function AsRead(calls: seq<ToolCall>): seq<ToolCall> {
    seq(|calls|, i requires 0 <= i < |calls| =>
          ToolCall(calls[i].id, calls[i].name, if calls[i].args == "" then "{}" else calls[i].args))
  }

  /** What the assistant messages of a list say, message by message. */
  function AssistantSaid(ms: seq<Message>): seq<Utterance> {
    if ms == [] then [] else
      var m := ms[|ms| - 1];
      AssistantSaid(ms[..|ms| - 1])
      + if m.role.Assistant? then [Utterance(m.text, AsRead(m.calls))] else []
  }

  function ResultsIn(content: seq<Block>): seq<Returned> {
    if content == [] then [] else
      var b := content[|content| - 1];
      ResultsIn(content[..|content| - 1]) + if b.ToolResult? then [Returned(b.id, b.text)] else []
  }

  function TextsIn(content: seq<Block>): seq<string> {
    if content == [] then [] else
      var b := content[|content| - 1];
      TextsIn(content[..|content| - 1]) + if b.TextBlock? then [b.text] else []
  }

  /** The tool results of all user turns. */
  function UserResults(ts: seq<Turn>): seq<Returned> {
    if ts == [] then [] else
      UserResults(ts[..|ts| - 1])
      + if ts[|ts| - 1].speaker.UserTurn? then ResultsIn(ts[|ts| - 1].content) else []
  }

  /** The texts of all user turns. */
  function UserTexts(ts: seq<Turn>): seq<string> {
    if ts == [] then [] else
      UserTexts(ts[..|ts| - 1])
      + if ts[|ts| - 1].speaker.UserTurn? then TextsIn(ts[|ts| - 1].content) else []
  }

  function ResultsGiven(ms: seq<Message>): seq<Returned> {
    if ms == [] then [] else
      var m := ms[|ms| - 1];
      ResultsGiven(ms[..|ms| - 1]) + if m.role.Tool? then [Returned(m.callId, m.text)] else []
  }

  function TextsGiven(ms: seq<Message>): seq<string> {
    if ms == [] then [] else
      var m := ms[|ms| - 1];
      TextsGiven(ms[..|ms| - 1]) + if m.role.User? then [m.text] else []
  }

  /** Reading the turns back gives the list: each assistant message as it was said, and every tool result and user
      text in order. No user turn follows another. */
  ghost predicate ReadsBack(ts: seq<Turn>, ms: seq<Message>) {
    && AssistantSays(ts) == AssistantSaid(ms)
    && UserResults(ts) == ResultsGiven(ms)
    && UserTexts(ts) == TextsGiven(ms)
    && forall i | 0 <= i < |ts| - 1 :: ts[i].speaker.AssistantTurn? || ts[i + 1].speaker.AssistantTurn?
  }
}
