/** From the stored conversation to the provider: whatever run the process has had, a turn that is asking only
    ever sends requests the Messages API accepts. */
module EndToEnd {
  import opened Text
  import opened Llm
  import opened Anthropic
  import opened History
  import opened Options
  import opened AgentLoop
  import P = TurnProtocol

  function Content(t: seq<P.Line>): seq<Stored> {
    seq(|t|, i requires 0 <= i < |t| => Stored(t[i].role, t[i].content))
  }

  /** What the protocol keeps of a transcript is what makes its history fit to send. */
  lemma SoundIsShaped(cfg: P.Config, t: seq<P.Line>)
    requires P.Sound(cfg, t)
    ensures Shaped(Content(t))
  {
    forall i | 0 <= i < |t|
      ensures FollowsQuestion(Content(t), i)
    {
      assert P.FollowsOwnQuestion(t, i);
    }
  }

  /** A turn that ends well has something to store. */
  lemma {:induction false} FinalTextSaysSomething(replies: seq<Response>)
    ensures !Blank(FinalText(replies))
  {
    if replies == [] {
      assert NO_ANSWER_PRODUCED[0] == 'n' && !IsSpace('n');
      assert NO_ANSWER_PRODUCED[0] in NO_ANSWER_PRODUCED;
    } else {
      var last := TrimSpace(replies[|replies| - 1].text);
      if last == "" {
        FinalTextSaysSomething(replies[..|replies| - 1]);
      } else {
        var lo, hi := TrimSpaceSlice(replies[|replies| - 1].text);
        assert last[0] in last;
      }
    }
  }

  /** Encodes what the provider was sent, one list of turns a call. */
  method Encoded(requests: seq<Request>) returns (wires: seq<seq<Turn>>)
    requires forall req | req in requests :: Sendable(req)
    ensures |wires| == |requests|
    ensures forall i | 0 <= i < |requests| :: wires[i] == Wire(requests[i].messages) && Legal(wires[i])
  {
    hide *;
    wires := [];
    for i := 0 to |requests|
      invariant |wires| == i
      invariant forall j | 0 <= j < i :: wires[j] == Wire(requests[j].messages) && Legal(wires[j])
    {
      assert requests[i] in requests;
      SendableEncodes(requests[i]);
      var r := Encode(requests[i]);
      wires := wires + [r.value];
    }
  }

  /** Runs the model for a turn that has stored its question, at any moment of any run of the process. Every request
      encodes, the turns it encodes to are legal, and an answer is one the turn may go on to store. */
  method AskModel(ghost cfg: P.Config, ghost ss: seq<P.State>, ghost steps: seq<P.Step>, ghost n: nat, t: nat,
                  turn: P.Turn, env: Env, snapshotId: string, maxHistory: int, cardFound: bool)
    returns (outcome: Result<Answer, Failure>, requests: seq<Request>, wires: seq<seq<Turn>>)
    requires P.Run(cfg, ss, steps) && n < |ss|
    requires t in ss[n].turns && turn == ss[n].turns[t] && turn.pc.Asking?
    requires env.tools != []
    ensures |wires| == |requests| <= (if env.maxIterations >= 1 then env.maxIterations else 1) + 1
    ensures forall i | 0 <= i < |requests| :: wires[i] == Wire(requests[i].messages) && Legal(wires[i])
    ensures outcome.Ok? ==> P.Enabled(cfg, ss[n], P.Think(t, true, outcome.value.text))
  {
    hide *;
    var replies;
    AskingIsFit(cfg, ss, steps, n, t);
    outcome, requests, replies :=
      AnswerQuestion(env, turn.question, snapshotId, Content(turn.pc.history), maxHistory, cardFound);
    if outcome.Ok? {
      AnswerCanBeStored(cfg, ss[n], t, env, requests, replies, outcome.value);
    }
    wires := Encoded(requests);
  }

  /** Runs the model for a question outside any conversation: trimmed, refused if nothing or too much is left, and
      asked without a history. Its requests are legal all the same. */
  method AskAlone(asked: string, maxChars: int, env: Env, snapshotId: string, maxHistory: int, cardFound: bool)
    returns (outcome: Option<Result<Answer, Failure>>, requests: seq<Request>, wires: seq<seq<Turn>>)
    requires env.tools != []
    ensures outcome == None <==> Blank(asked) || |TrimSpace(asked)| > maxChars
    ensures outcome == None ==> requests == []
    ensures |wires| == |requests| <= (if env.maxIterations >= 1 then env.maxIterations else 1) + 1
    ensures forall i | 0 <= i < |requests| :: wires[i] == Wire(requests[i].messages) && Legal(wires[i])
  {
    hide *;
    var question := TrimSpace(asked);
    var lo, hi := TrimSpaceSlice(asked);
    if question == "" || |question| > maxChars {
      return None, [], [];
    }
    var answer, replies;
    NothingShaped();
    answer, requests, replies := AnswerQuestion(env, question, snapshotId, [], maxHistory, cardFound);
    outcome := Some(answer);
    wires := Encoded(requests);
  }

  lemma NothingShaped()
    ensures Shaped([])
  {
  }

  lemma AskingIsFit(cfg: P.Config, ss: seq<P.State>, steps: seq<P.Step>, n: nat, t: nat)
    requires P.Run(cfg, ss, steps) && n < |ss|
    requires t in ss[n].turns && ss[n].turns[t].pc.Asking?
    ensures Shaped(Content(ss[n].turns[t].pc.history)) && ss[n].turns[t].question != ""
  {
    P.RunHolds(cfg, ss, steps, n);
    assert P.Remembers(cfg, ss[n], t);
    SoundIsShaped(cfg, ss[n].turns[t].pc.history);
  }

  lemma AnswerCanBeStored(cfg: P.Config, s: P.State, t: nat, env: Env, requests: seq<Request>, replies: seq<Response>,
                          a: Answer)
    requires t in s.turns && s.turns[t].pc.Asking?
    requires exists refused, ran :: Accounts(env, requests, replies, refused, a, ran)
    ensures P.Enabled(cfg, s, P.Think(t, true, a.text))
  {
    FinalTextSaysSomething(replies);
  }

  lemma SendableEncodes(req: Request)
    requires Sendable(req)
    ensures (req.choice.Any? ==> req.tools != []) && AllEncode(req.messages) && Legal(Wire(req.messages))
  {
  }
}
