/** Stored conversations, and how much of one the model is shown. */
module History {
  import opened Llm
  import opened Anthropic

  datatype Stored = Stored(role: string, content: string)

  /** kept is what truncation leaves: the last limit messages, less the leading ones before a user message. */
  ghost predicate Truncates(msgs: seq<Stored>, limit: int, kept: seq<Stored>) {
    if limit <= 0 then kept == [] else
      |kept| <= |msgs|
      && (var from := |msgs| - |kept|; var lo := if |msgs| > limit then |msgs| - limit else 0;
          && kept == msgs[from..] && lo <= from
          && (forall j | lo <= j < from :: msgs[j].role != "user")
          && (kept == [] || kept[0].role == "user"))
  }

  method TruncateHistory(msgs: seq<Stored>, limit: int) returns (kept: seq<Stored>)
    ensures Truncates(msgs, limit, kept)
  {
    if limit <= 0 {
      return [];
    }
    ghost var lo := if |msgs| > limit then |msgs| - limit else 0;
    kept := msgs[if |msgs| > limit then |msgs| - limit else 0..];
    while |kept| > 0 && kept[0].role != "user"
      invariant |kept| <= |msgs| - lo && kept == msgs[|msgs| - |kept|..]
      invariant forall j | lo <= j < |msgs| - |kept| :: msgs[j].role != "user"
      decreases |kept|
    {
      assert kept[0] == msgs[|msgs| - |kept|];
      kept := kept[1..];
    }
  }

  /** Questions and answers as messages, in order; anything else stored is passed over. */
  function Converted(msgs: seq<Stored>): seq<Message> {
    if msgs == [] then [] else
      var m := msgs[|msgs| - 1];
      Converted(msgs[..|msgs| - 1])
      + (if m.role == "user" then [Asked(m.content)]
         else if m.role == "assistant" then [Said(m.content, [])]
         else [])
  }

  method ToLLMMessages(msgs: seq<Stored>) returns (out: seq<Message>)
    ensures out == Converted(msgs)
  {
    out := [];
    for i := 0 to |msgs|
      invariant out == Converted(msgs[..i])
    {
      var m := msgs[i];
      assert msgs[..i + 1][..i] == msgs[..i];
      if m.role == "user" {
        out := out + [Asked(m.content)];
      } else if m.role == "assistant" {
        out := out + [Said(m.content, [])];
      }
    }
    assert msgs[..|msgs|] == msgs;
  }

  /** Message by message: a question is asked, an answer said, and any other role leaves nothing. */
  lemma {:induction false} ConvertedAdds(a: seq<Stored>, b: seq<Stored>, m: Stored)
    ensures Converted(a + b) == Converted(a) + Converted(b)
    ensures m.role == "user" ==> Converted([m]) == [Message(User, m.content, [], "", "")]
    ensures m.role == "assistant" ==> Converted([m]) == [Message(Assistant, m.content, [], "", "")]
    ensures m.role !in ["user", "assistant"] ==> Converted([m]) == []
  {
    assert [m][..0] == [];
    if b == [] {
      assert a + b == a;
    } else {
      ConvertedAdds(a, b[..|b| - 1], m);
      assert (a + b)[..|a + b| - 1] == a + b[..|b| - 1];
    }
  }

  /** A transcript whose every answer directly follows a question, and whose text is never empty. */
  ghost predicate Shaped(t: seq<Stored>) {
    && (forall i | 0 <= i < |t| :: (t[i].role == "user" || t[i].role == "assistant") && t[i].content != "")
    && (forall i | 0 <= i < |t| :: FollowsQuestion(t, i))
  }

  ghost predicate FollowsQuestion(t: seq<Stored>, i: nat)
    requires i < |t|
  {
    t[i].role == "assistant" ==> i > 0 && t[i - 1].role == "user"
  }

  /** Plain talk the encoder can send: a user leads, and no answer follows an answer. */
  ghost predicate Plain(ms: seq<Message>) {
    && (forall i | 0 <= i < |ms| ::
          (ms[i].role.User? || (ms[i].role.Assistant? && ms[i].text != "")) && ms[i].calls == [])
    && (forall i | 0 <= i < |ms| :: RepliesToUser(ms, i))
  }

  ghost predicate RepliesToUser(ms: seq<Message>, i: nat)
    requires i < |ms|
  {
    ms[i].role.Assistant? ==> i > 0 && ms[i - 1].role.User?
  }

  lemma {:induction false} ConvertedIsOneToOne(t: seq<Stored>)
    requires forall i | 0 <= i < |t| :: t[i].role == "user" || t[i].role == "assistant"
    ensures |Converted(t)| == |t|
    ensures forall i | 0 <= i < |t| ::
      Converted(t)[i] == if t[i].role == "user" then Asked(t[i].content) else Said(t[i].content, [])
  {
    if t != [] {
      ConvertedIsOneToOne(t[..|t| - 1]);
    }
  }

  /** Truncating a shaped transcript never leaves an answer without its question. */
  lemma {:induction false} TruncatedIsPlain(t: seq<Stored>, limit: int, kept: seq<Stored>)
    requires Shaped(t) && Truncates(t, limit, kept)
    ensures Plain(Converted(kept)) && |Converted(kept)| == |kept|
  {
    if limit > 0 {
      var from := |t| - |kept|;
      assert forall i | 0 <= i < |kept| :: kept[i] == t[from + i];
      ConvertedIsOneToOne(kept);
      forall i | 0 <= i < |kept|
        ensures RepliesToUser(Converted(kept), i)
      {
        assert FollowsQuestion(t, from + i);
      }
    }
  }

  lemma {:induction false} PlainRun(run: seq<Message>)
    requires forall i | 0 <= i < |run| :: run[i].role.User?
    ensures Results(run) == [] && |Texts(run)| == |run|
    ensures forall b | b in Texts(run) :: b.TextBlock?
    ensures Answers(Results(run) + Texts(run), [])
  {
    if run != [] {
      PlainRun(run[..|run| - 1]);
    }
    assert Results(run) + Texts(run) == Texts(run);
    assert forall j | 0 <= j < |Texts(run)| :: Texts(run)[j] in Texts(run);
  }

  lemma {:induction false} QuestionsAreLegal(run: seq<Message>)
    requires run != [] && forall i | 0 <= i < |run| :: run[i].role.User?
    ensures Legal(Wire(run)) && AllEncode(run)
  {
    PlainRun(run);
    assert [] + run == run;
    WireRun([], run);
    assert Wire(run) == [Turn(UserTurn, Results(run) + Texts(run))];
  }

  /** Plain talk that ends on a user message is a legal request. */
  lemma {:induction false} PlainIsLegal(ms: seq<Message>)
    requires Plain(ms) && ms != [] && ms[|ms| - 1].role.User?
    ensures Legal(Wire(ms)) && AllEncode(ms)
    decreases |ms|
  {
    hide Wire, Legal, Answers, Results, Texts;
    var k := RunStart(ms);
    var run := ms[k..];
    if k == 0 {
      assert run == ms;
      QuestionsAreLegal(ms);
    } else {
      var before, m := ms[..k - 1], ms[k - 1];
      assert RepliesToUser(ms, k - 1);
      assert forall i | 0 <= i < |before| :: RepliesToUser(ms, i) ==> RepliesToUser(before, i);
      PlainIsLegal(before);
      PlainRun(run);
      assert CallIds(m.calls) == [];
      LegalStep(before, m, run);
      assert ms == before + [m] + run;
    }
  }

  function Chars(msgs: seq<Message>, argChars: seq<string> -> nat): nat {
    if msgs == [] then 0 else
      var m := msgs[|msgs| - 1];
      Chars(msgs[..|msgs| - 1], argChars) + |m.text| + if m.calls == [] then 0 else argChars(CallArgs(m.calls))
  }

  function CallArgs(calls: seq<ToolCall>): seq<string> {
    seq(|calls|, i requires 0 <= i < |calls| => OrEmptyObject(calls[i].args))
  }

  /** A quarter of the characters; argChars is the length of the calls' arguments as one JSON list. */
  method EstimateTokens(msgs: seq<Message>, argChars: seq<string> -> nat) returns (tokens: nat)
    ensures tokens == Chars(msgs, argChars) / 4
  {
    var chars := 0;
    for i := 0 to |msgs|
      invariant chars == Chars(msgs[..i], argChars)
    {
      assert msgs[..i + 1][..i] == msgs[..i];
      chars := chars + |msgs[i].text|;
      if |msgs[i].calls| > 0 {
        chars := chars + argChars(CallArgs(msgs[i].calls));
      }
    }
    assert msgs[..|msgs|] == msgs;
    tokens := chars / 4;
  }
}
