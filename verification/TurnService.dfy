/** What a turn gets: a turn whose conversation is below its cap is served, and what it leaves behind is exactly its
    own question and answer. */
module TurnService {
  import opened Text
  import opened TurnProtocol
  import LT = LockTable

  /** The answers a conversation holds, as a set of places. */
  function AnswerPlaces(t: seq<Line>): set<nat> {
    set i: nat | i < |t| && t[i].role == "assistant"
  }

  lemma {:induction false} AnswersAreCounted(t: seq<Line>)
    ensures AnswersIn(t) == |AnswerPlaces(t)|
  {
    if t != [] {
      var n := |t| - 1;
      AnswersAreCounted(t[..n]);
      assert AnswerPlaces(t) == AnswerPlaces(t[..n]) + if t[n].role == "assistant" then {n} else {};
    }
  }

  /** These steps can be taken one after another. */
  ghost predicate Runs(cfg: Config, s: State, steps: seq<Step>)
    decreases |steps|
  {
    steps != [] ==> Enabled(cfg, s, steps[0]) && Runs(cfg, Apply(cfg, s, steps[0]), steps[1..])
  }

  ghost function After(cfg: Config, s: State, steps: seq<Step>): State
    requires Runs(cfg, s, steps)
    decreases |steps|
  {
    if steps == [] then s else After(cfg, Apply(cfg, s, steps[0]), steps[1..])
  }

  /** A turn's own place, everything else as it was. */
  ghost function At(s: State, t: nat, pc: Pc): State
    requires t in s.turns
  {
    s.(turns := s.turns[t := s.turns[t].(pc := pc)])
  }

  ghost function Wrote(s: State, t: nat, lines: seq<Line>): State
    requires t in s.turns
  {
    s.(transcripts := s.transcripts[s.turns[t].cid := Transcript(s, s.turns[t].cid) + lines])
  }

  /** A turn that reads without failure goes on exactly when its conversation is stored and holds fewer answers than
      the cap, and takes with it what is stored; otherwise, or if the read fails, it lets go. */
  lemma {:induction false} ReadServes(cfg: Config, s: State, t: nat, ok: bool)
    requires t in s.turns && s.turns[t].pc.Ready?
    ensures Enabled(cfg, s, Read(t, ok))
    ensures var cid := s.turns[t].cid;
      var stored := cid in s.transcripts;
      var below := stored && |set i: nat | i < |s.transcripts[cid]| && s.transcripts[cid][i].role == "assistant"|
                             < cfg.maxTurns;
      Apply(cfg, s, Read(t, ok))
      == At(s, t, if ok && below then Loaded(s.transcripts[cid]) else Unlocking)
  {
    hide LT.Apply, LT.Enabled;
    var cid := s.turns[t].cid;
    if cid in s.transcripts {
      AnswersAreCounted(s.transcripts[cid]);
      assert AnswerPlaces(s.transcripts[cid])
          == set i: nat | i < |s.transcripts[cid]| && s.transcripts[cid][i].role == "assistant";
    }
  }

  lemma {:induction false} OneStep(cfg: Config, s: State, st: Step)
    requires Enabled(cfg, s, st)
    ensures Runs(cfg, s, [st]) && After(cfg, s, [st]) == Apply(cfg, s, st)
  {
    hide Enabled, Apply;
    assert [st][1..] == [];
  }

  lemma {:induction false} StepsOn(cfg: Config, s: State, a: seq<Step>, b: seq<Step>)
    requires Runs(cfg, s, a) && Runs(cfg, After(cfg, s, a), b)
    ensures Runs(cfg, s, a + b) && After(cfg, s, a + b) == After(cfg, After(cfg, s, a), b)
    decreases |a|
  {
    hide Enabled, Apply;
    if a == [] {
      assert a + b == b;
    } else {
      StepsOn(cfg, Apply(cfg, s, a[0]), a[1..], b);
      assert (a + b)[1..] == a[1..] + b;
    }
  }

  lemma {:induction false} OneMore(cfg: Config, s: State, a: seq<Step>, st: Step)
    requires Runs(cfg, s, a) && Enabled(cfg, After(cfg, s, a), st)
    ensures Runs(cfg, s, a + [st]) && After(cfg, s, a + [st]) == Apply(cfg, After(cfg, s, a), st)
  {
    hide *;
    OneStep(cfg, After(cfg, s, a), st);
    StepsOn(cfg, s, a, [st]);
  }

  /** A turn below the cap has its question stored and is asking, with the transcript before its question. */
  lemma {:induction false} Asks(cfg: Config, s: State, t: nat)
    requires t in s.turns && s.turns[t].pc.Ready? && s.turns[t].cid in s.transcripts
    requires |AnswerPlaces(s.transcripts[s.turns[t].cid])| < cfg.maxTurns
    ensures var turn := s.turns[t];
      var steps := [Read(t, true), StoreQuestion(t, true, true)];
      && Runs(cfg, s, steps)
      && After(cfg, s, steps)
         == At(Wrote(s, t, [Line("user", turn.question, t)]), t, Asking(s.transcripts[turn.cid]))
  {
    var turn := s.turns[t];
    var s1 := Apply(cfg, s, Read(t, true));
    assert Enabled(cfg, s, Read(t, true)) && s1 == At(s, t, Loaded(s.transcripts[turn.cid])) by {
      AnswersAreCounted(s.transcripts[turn.cid]);
    }
    var st := StoreQuestion(t, true, true);
    assert Enabled(cfg, s1, st);
    assert Apply(cfg, s1, st)
        == At(Wrote(s, t, [Line("user", turn.question, t)]), t, Asking(s.transcripts[turn.cid]));
    hide *;
    OneStep(cfg, s, Read(t, true));
    OneMore(cfg, s, [Read(t, true)], st);
    assert [Read(t, true)] + [st] == [Read(t, true), st];
  }

  /** What the model comes to for a turn that asks, and what becomes of an answer. */
  lemma {:induction false} Thinks(cfg: Config, s: State, t: nat, answer: string)
    requires t in s.turns && s.turns[t].pc.Asking? && !Blank(answer)
    ensures Enabled(cfg, s, Think(t, false, "")) && Apply(cfg, s, Think(t, false, "")) == At(s, t, Unlocking)
    ensures Enabled(cfg, s, Think(t, true, answer))
    ensures Apply(cfg, s, Think(t, true, answer)) == At(s, t, Answering(s.turns[t].pc.history, answer))
    ensures Enabled(cfg, Apply(cfg, s, Think(t, true, answer)), StoreAnswer(t, true))
    ensures Apply(cfg, Apply(cfg, s, Think(t, true, answer)), StoreAnswer(t, true))
         == At(Wrote(s, t, [Line("assistant", answer, t)]), t, Unlocking)
  {
  }

  lemma {:induction false} WroteBoth(s: State, t: nat, pc: Pc, pc': Pc, q: Line, a: Line)
    requires t in s.turns
    ensures At(Wrote(At(Wrote(s, t, [q]), t, pc), t, [a]), t, pc') == At(Wrote(s, t, [q, a]), t, pc')
    ensures At(At(Wrote(s, t, [q]), t, pc), t, pc') == At(Wrote(s, t, [q]), t, pc')
  {
    var tr := Transcript(s, s.turns[t].cid);
    assert tr + [q] + [a] == tr + [q, a];
  }

  /** Nothing failing, it then stores the answer: the transcript grows by its own question and answer and nothing else
      changes. If the model fails, the question stays for a retry. */
  lemma {:induction false} Serves(cfg: Config, s: State, t: nat, answer: string)
    requires t in s.turns && s.turns[t].pc.Ready? && s.turns[t].cid in s.transcripts
    requires |set i: nat | i < |s.transcripts[s.turns[t].cid]| && s.transcripts[s.turns[t].cid][i].role == "assistant"|
             < cfg.maxTurns
    requires !Blank(answer)
    ensures var turn := s.turns[t];
      var served := [Read(t, true), StoreQuestion(t, true, true), Think(t, true, answer), StoreAnswer(t, true)];
      var failed := [Read(t, true), StoreQuestion(t, true, true), Think(t, false, "")];
      && Runs(cfg, s, served)
      && After(cfg, s, served).transcripts
         == s.transcripts[turn.cid := s.transcripts[turn.cid]
              + [Line("user", turn.question, t), Line("assistant", answer, t)]]
      && After(cfg, s, served) == At(s.(transcripts := After(cfg, s, served).transcripts), t, Unlocking)
      && Runs(cfg, s, failed)
      && After(cfg, s, failed).transcripts
         == s.transcripts[turn.cid := s.transcripts[turn.cid] + [Line("user", turn.question, t)]]
      && After(cfg, s, failed) == At(s.(transcripts := After(cfg, s, failed).transcripts), t, Unlocking)
  {
    hide Enabled, Apply, Runs, After, AnswersIn, Blank;
    var turn := s.turns[t];
    var asked := [Read(t, true), StoreQuestion(t, true, true)];
    var q, a := Line("user", turn.question, t), Line("assistant", answer, t);
    assert AnswerPlaces(s.transcripts[turn.cid])
        == set i: nat | i < |s.transcripts[turn.cid]| && s.transcripts[turn.cid][i].role == "assistant";
    Asks(cfg, s, t);
    var s2 := After(cfg, s, asked);
    assert s2.turns[t].pc.Asking?;
    Thinks(cfg, s2, t, answer);
    WroteBoth(s, t, s2.turns[t].pc, Unlocking, q, a);
    OneMore(cfg, s, asked, Think(t, true, answer));
    OneMore(cfg, s, asked + [Think(t, true, answer)], StoreAnswer(t, true));
    OneMore(cfg, s, asked, Think(t, false, ""));
    assert asked + [Think(t, true, answer)] + [StoreAnswer(t, true)]
        == [Read(t, true), StoreQuestion(t, true, true), Think(t, true, answer), StoreAnswer(t, true)];
    assert asked + [Think(t, false, "")] == [Read(t, true), StoreQuestion(t, true, true), Think(t, false, "")];
  }

  // ---- a turn from its slot to its release ----

  /** A conversation nobody uses is entered, taken, let go and left, and the table then tracks what it tracked before.
      */
  lemma {:induction false} Visits(w: LT.World, t: nat, id: string, made: nat)
    requires LT.Inv(w) && t !in w.clients && made !in w.table.cells
    requires forall c | c in w.clients :: w.clients[c].id != id
    ensures LT.Enabled(w, LT.Enter(t, id, made))
    ensures var w1 := LT.Apply(w, LT.Enter(t, id, made));
      && LT.Enabled(w1, LT.Take(t))
      && var w2 := LT.Apply(w1, LT.Take(t));
         && LT.Enabled(w2, LT.Unlock(t))
         && var w3 := LT.Apply(w2, LT.Unlock(t));
            && LT.Enabled(w3, LT.Drop(t))
            && LT.Apply(w3, LT.Drop(t)).clients == w.clients
            && LT.Apply(w3, LT.Drop(t)).table.locks == w.table.locks
  {
    assert id !in w.table.locks by {
      LT.TrackedConversations(w);
    }
    hide LT.Inv;
    NewVisit(w, t, id, made);
  }

  lemma {:induction false} NewVisit(w: LT.World, t: nat, id: string, made: nat)
    requires t !in w.clients && made !in w.table.cells && id !in w.table.locks
    ensures LT.Enabled(w, LT.Enter(t, id, made))
    ensures var w1 := LT.Apply(w, LT.Enter(t, id, made));
      && LT.Enabled(w1, LT.Take(t))
      && var w2 := LT.Apply(w1, LT.Take(t));
         && LT.Enabled(w2, LT.Unlock(t))
         && var w3 := LT.Apply(w2, LT.Unlock(t));
            && LT.Enabled(w3, LT.Drop(t))
            && LT.Apply(w3, LT.Drop(t)).clients == w.clients
            && LT.Apply(w3, LT.Drop(t)).table.locks == w.table.locks
  {
  }

  /** The way in, for a table that lets the turn in. */
  lemma {:induction false} GoesIn(cfg: Config, s: State, t: nat, made: nat)
    requires t in s.turns && s.turns[t].pc.Arrived? && !s.turns[t].alone && s.slots < cfg.limit
    requires LT.Enabled(s.locks, LT.Enter(t, s.turns[t].cid, made))
    requires LT.Enabled(LT.Apply(s.locks, LT.Enter(t, s.turns[t].cid, made)), LT.Take(t))
    ensures Runs(cfg, s, [Acquire(t), Join(t, made), Take(t)])
    ensures After(cfg, s, [Acquire(t), Join(t, made), Take(t)])
         == At(s.(slots := s.slots + 1,
                  locks := LT.Apply(LT.Apply(s.locks, LT.Enter(t, s.turns[t].cid, made)), LT.Take(t))), t, Ready)
  {
    hide LT.Apply, LT.Enabled, AnswersIn, Transcript;
    var s1 := At(s.(slots := s.slots + 1), t, Slotted);
    var s2 := At(s1.(locks := LT.Apply(s.locks, LT.Enter(t, s.turns[t].cid, made))), t, Locking);
    var s3 := At(s2.(locks := LT.Apply(s2.locks, LT.Take(t))), t, Ready);
    assert Enabled(cfg, s, Acquire(t)) && Apply(cfg, s, Acquire(t)) == s1;
    assert Enabled(cfg, s1, Join(t, made)) && Apply(cfg, s1, Join(t, made)) == s2;
    assert Enabled(cfg, s2, Take(t)) && Apply(cfg, s2, Take(t)) == s3;
    hide Enabled, Apply, Runs, After;
    OneStep(cfg, s, Acquire(t));
    OneMore(cfg, s, [Acquire(t)], Join(t, made));
    OneMore(cfg, s, [Acquire(t)] + [Join(t, made)], Take(t));
    assert [Acquire(t)] + [Join(t, made)] + [Take(t)] == [Acquire(t), Join(t, made), Take(t)];
  }

  /** The way out. */
  lemma {:induction false} GoesOut(cfg: Config, s: State, t: nat)
    requires t in s.turns && s.turns[t].pc.Unlocking?
    requires LT.Enabled(s.locks, LT.Unlock(t)) && LT.Enabled(LT.Apply(s.locks, LT.Unlock(t)), LT.Drop(t))
    ensures Runs(cfg, s, [Unlock(t), Leave(t), Release(t)])
    ensures After(cfg, s, [Unlock(t), Leave(t), Release(t)])
         == At(s.(slots := s.slots - 1, locks := LT.Apply(LT.Apply(s.locks, LT.Unlock(t)), LT.Drop(t))), t, Gone)
  {
    hide LT.Apply, LT.Enabled, AnswersIn, Transcript;
    var s1 := At(s.(locks := LT.Apply(s.locks, LT.Unlock(t))), t, Unlocked);
    var s2 := At(s1.(locks := LT.Apply(s1.locks, LT.Drop(t))), t, Exiting);
    var s3 := At(s2.(slots := s.slots - 1), t, Gone);
    assert Enabled(cfg, s, Unlock(t)) && Apply(cfg, s, Unlock(t)) == s1;
    assert Enabled(cfg, s1, Leave(t)) && Apply(cfg, s1, Leave(t)) == s2;
    assert Enabled(cfg, s2, Release(t)) && Apply(cfg, s2, Release(t)) == s3;
    hide Enabled, Apply, Runs, After;
    OneStep(cfg, s, Unlock(t));
    OneMore(cfg, s, [Unlock(t)], Leave(t));
    OneMore(cfg, s, [Unlock(t)] + [Leave(t)], Release(t));
    assert [Unlock(t)] + [Leave(t)] + [Release(t)] == [Unlock(t), Leave(t), Release(t)];
  }

  /** With a slot free and nobody in its conversation, an arrived turn goes through from end to end: the transcript
      grows by its question and answer, its slot and its lock are given back, and every other turn is where it was.
      */
  lemma {:induction false} WholeTurn(cfg: Config, s: State, t: nat, made: nat, answer: string)
    requires Inv(cfg, s) && t in s.turns && s.turns[t].pc.Arrived? && !s.turns[t].alone && s.slots < cfg.limit
    requires forall u | u in s.turns && s.turns[u].cid == s.turns[t].cid :: !InTable(s.turns[u].pc)
    requires made !in s.locks.table.cells && s.turns[t].cid in s.transcripts && !Blank(answer)
    requires |set i: nat | i < |s.transcripts[s.turns[t].cid]| && s.transcripts[s.turns[t].cid][i].role == "assistant"|
             < cfg.maxTurns
    ensures var turn := s.turns[t];
      var steps := [Acquire(t), Join(t, made), Take(t), Read(t, true), StoreQuestion(t, true, true),
                    Think(t, true, answer), StoreAnswer(t, true), Unlock(t), Leave(t), Release(t)];
      && Runs(cfg, s, steps)
      && var s' := After(cfg, s, steps);
         && s'.slots == s.slots && s'.turns == s.turns[t := turn.(pc := Gone)]
         && s'.transcripts == s.transcripts[turn.cid := s.transcripts[turn.cid]
              + [Line("user", turn.question, t), Line("assistant", answer, t)]]
         && s'.locks.clients == s.locks.clients && s'.locks.table.locks == s.locks.table.locks
  {
    hide Runs, After, Apply, Enabled, LT.Apply, LT.Enabled, LT.Inv, Remembers, Sound, SlotsCounted, AnswersIn, Blank;
    var turn := s.turns[t];
    var entry := [Acquire(t), Join(t, made), Take(t)];
    var served := [Read(t, true), StoreQuestion(t, true, true), Think(t, true, answer), StoreAnswer(t, true)];
    var exit := [Unlock(t), Leave(t), Release(t)];
    Visits(s.locks, t, turn.cid, made);
    hide Inv, Aligned;
    GoesIn(cfg, s, t, made);
    var s1 := After(cfg, s, entry);
    Serves(cfg, s1, t, answer);
    var s2 := After(cfg, s1, served);
    GoesOut(cfg, s2, t);
    StepsOn(cfg, s, entry, served);
    StepsOn(cfg, s, entry + served, exit);
    assert entry + served + exit
        == [Acquire(t), Join(t, made), Take(t), Read(t, true), StoreQuestion(t, true, true),
            Think(t, true, answer), StoreAnswer(t, true), Unlock(t), Leave(t), Release(t)];
  }

  /** A turn that waits for its conversation may give up at any time, and leaves it as it is. */
  lemma {:induction false} GivesUp(cfg: Config, s: State, t: nat)
    requires Inv(cfg, s) && t in s.turns && s.turns[t].pc.Locking?
    ensures var steps := [GiveUp(t), Leave(t), Release(t)];
      && Runs(cfg, s, steps)
      && var s' := After(cfg, s, steps);
         && s'.slots == s.slots - 1 && s'.turns == s.turns[t := s.turns[t].(pc := Gone)]
         && s'.transcripts == s.transcripts && s'.locks.clients == s.locks.clients - {t}
         && s'.locks.table.cells.Keys == s.locks.table.cells.Keys
         && forall l | l in s.locks.table.cells :: s'.locks.table.cells[l].full == s.locks.table.cells[l].full
  {
    hide SlotsCounted, Remembers, Sound, Blank, Runs, After, Enabled, Apply, LT.Inv, LT.Apply, LT.Enabled;
    var w1, w2 := GivesUpLock(s.locks, t);
    hide Aligned, Inv;
    GoesAway(cfg, s, t, w1, w2);
  }

  lemma {:induction false} GoesAway(cfg: Config, s: State, t: nat, w1: LT.World, w2: LT.World)
    requires t in s.turns && s.turns[t].pc.Locking?
    requires LT.Enabled(s.locks, LT.GiveUp(t)) && w1 == LT.Apply(s.locks, LT.GiveUp(t))
    requires LT.Enabled(w1, LT.Drop(t)) && w2 == LT.Apply(w1, LT.Drop(t))
    ensures Runs(cfg, s, [GiveUp(t), Leave(t), Release(t)])
    ensures After(cfg, s, [GiveUp(t), Leave(t), Release(t)]) == At(s.(slots := s.slots - 1, locks := w2), t, Gone)
  {
    hide LT.Apply, LT.Enabled, AnswersIn, Transcript, Runs, After;
    var s1 := At(s.(locks := w1), t, Unlocked);
    var s2 := At(s1.(locks := w2), t, Exiting);
    var s3 := At(s2.(slots := s.slots - 1), t, Gone);
    assert Enabled(cfg, s, GiveUp(t)) && Apply(cfg, s, GiveUp(t)) == s1;
    assert Enabled(cfg, s1, Leave(t)) && Apply(cfg, s1, Leave(t)) == s2;
    assert Enabled(cfg, s2, Release(t)) && Apply(cfg, s2, Release(t)) == s3;
    hide Enabled, Apply;
    OneStep(cfg, s, GiveUp(t));
    OneMore(cfg, s, [GiveUp(t)], Leave(t));
    OneMore(cfg, s, [GiveUp(t)] + [Leave(t)], Release(t));
    assert [GiveUp(t)] + [Leave(t)] + [Release(t)] == [GiveUp(t), Leave(t), Release(t)];
  }

  lemma {:induction false} GivesUpLock(w: LT.World, t: nat) returns (w1: LT.World, w2: LT.World)
    requires LT.Inv(w) && LT.In(w, t, LT.Waiting)
    ensures LT.Enabled(w, LT.GiveUp(t)) && w1 == LT.Apply(w, LT.GiveUp(t))
    ensures LT.Enabled(w1, LT.Drop(t)) && w2 == LT.Apply(w1, LT.Drop(t))
    ensures w2.clients == w.clients - {t} && w2.table.cells.Keys == w.table.cells.Keys
    ensures forall l | l in w.table.cells :: w2.table.cells[l].full == w.table.cells[l].full
  {
    hide LT.Counted, LT.Exclusive;
    w1 := LT.Apply(w, LT.GiveUp(t));
    w2 := LT.Apply(w1, LT.Drop(t));
  }

  /** A question asked alone needs a slot and nothing else, and leaves no trace. */
  lemma {:induction false} AloneTurn(cfg: Config, s: State, t: nat)
    requires t in s.turns && s.turns[t].pc.Arrived? && s.turns[t].alone && s.slots < cfg.limit
    ensures Runs(cfg, s, [Acquire(t), AnswerAlone(t), Release(t)])
    ensures After(cfg, s, [Acquire(t), AnswerAlone(t), Release(t)]) == At(s, t, Gone)
  {
    hide LT.Apply, LT.Enabled, AnswersIn, Transcript;
    var s1 := At(s.(slots := s.slots + 1), t, Slotted);
    var s2 := At(s1, t, Exiting);
    assert Enabled(cfg, s, Acquire(t)) && Apply(cfg, s, Acquire(t)) == s1;
    assert Enabled(cfg, s1, AnswerAlone(t)) && Apply(cfg, s1, AnswerAlone(t)) == s2;
    assert Enabled(cfg, s2, Release(t)) && Apply(cfg, s2, Release(t)) == At(s, t, Gone);
    hide Enabled, Apply, Runs, After;
    OneStep(cfg, s, Acquire(t));
    OneMore(cfg, s, [Acquire(t)], AnswerAlone(t));
    OneMore(cfg, s, [Acquire(t)] + [AnswerAlone(t)], Release(t));
    assert [Acquire(t)] + [AnswerAlone(t)] + [Release(t)] == [Acquire(t), AnswerAlone(t), Release(t)];
  }

  // ---- a turn among others ----

  /** Where a turn may be after reading its conversation at moment i of a run: it still has what was stored then,
      and any answer it has is one the model gave it since. */
  ghost predicate Since(steps: seq<Step>, t: nat, pc: Pc, was: map<string, seq<Line>>, cid: string, i: nat, k: nat)
    requires k <= |steps|
  {
    match pc
    case Loaded(h) => cid in was && h == was[cid]
    case Asking(h) => cid in was && h == was[cid]
    case Answering(h, a) => cid in was && h == was[cid] && exists m :: i < m < k && steps[m] == Think(t, true, a)
    case Unlocking => true
    case Unlocked => true
    case Exiting => true
    case Gone => true
    case _ => false
  }

  lemma {:induction false} SinceRead(cfg: Config, s: State, steps: seq<Step>, t: nat, i: nat)
    requires i < |steps| && Enabled(cfg, s, Read(t, true))
    ensures var turn, s' := s.turns[t], Apply(cfg, s, Read(t, true));
      && t in s'.turns && s'.turns[t].cid == turn.cid && s'.turns[t].question == turn.question
      && Since(steps, t, s'.turns[t].pc, s.transcripts, turn.cid, i, i + 1)
  {
    hide LT.Apply, LT.Enabled, AnswersIn, Transcript, Blank;
  }

  lemma {:induction false} SinceStep(cfg: Config, s: State, steps: seq<Step>, t: nat, was: map<string, seq<Line>>,
                                     cid: string, i: nat, k: nat)
    requires i < k < |steps| && Enabled(cfg, s, steps[k]) && t in s.turns
    requires Since(steps, t, s.turns[t].pc, was, cid, i, k)
    ensures var s' := Apply(cfg, s, steps[k]);
      && t in s'.turns && s'.turns[t].cid == s.turns[t].cid && s'.turns[t].question == s.turns[t].question
      && Since(steps, t, s'.turns[t].pc, was, cid, i, k + 1)
  {
    hide LT.Apply, LT.Enabled, AnswersIn, Transcript, Blank;
  }

  lemma {:induction false} SinceHolds(cfg: Config, ss: seq<State>, steps: seq<Step>, t: nat, i: nat, k: nat)
    requires Run(cfg, ss, steps) && i < k <= |steps| && steps[i] == Read(t, true)
    ensures t in ss[i].turns && t in ss[k].turns
    ensures var turn, now := ss[i].turns[t], ss[k].turns[t];
      && now.cid == turn.cid && now.question == turn.question
      && Since(steps, t, now.pc, ss[i].transcripts, turn.cid, i, k)
    decreases k
  {
    assert Enabled(cfg, ss[i], steps[i]) && Apply(cfg, ss[i], steps[i]) == ss[i + 1];
    SinceRead(cfg, ss[i], steps, t, i);
    if k > i + 1 {
      SinceHolds(cfg, ss, steps, t, i, k - 1);
      assert Enabled(cfg, ss[k - 1], steps[k - 1]) && Apply(cfg, ss[k - 1], steps[k - 1]) == ss[k - 1 + 1];
      hide *;
      SinceStep(cfg, ss[k - 1], steps, t, ss[i].transcripts, ss[i].turns[t].cid, i, k - 1);
    }
  }

  lemma {:induction false} StoresOwn(cfg: Config, s: State, t: nat)
    requires Inv(cfg, s) && Enabled(cfg, s, StoreAnswer(t, true))
    ensures var turn := s.turns[t];
      && turn.pc.Answering?
      && Apply(cfg, s, StoreAnswer(t, true)).transcripts
         == s.transcripts[turn.cid := turn.pc.history
              + [Line("user", turn.question, t), Line("assistant", turn.pc.answer, t)]]
  {
    hide SlotsCounted, Aligned, Sound, AnswersIn, Blank, LT.Apply, LT.Enabled;
    assert Remembers(cfg, s, t);
    var turn := s.turns[t];
    var q, a := Line("user", turn.question, t), Line("assistant", turn.pc.answer, t);
    assert turn.pc.history + [q] + [a] == turn.pc.history + [q, a];
  }

  lemma {:induction false} StepTaken(cfg: Config, ss: seq<State>, steps: seq<Step>, k: nat)
    requires Run(cfg, ss, steps) && k < |steps|
    ensures Enabled(cfg, ss[k], steps[k]) && Apply(cfg, ss[k], steps[k]) == ss[k + 1]
  {
  }

  /** However other turns interleave: from the moment a turn reads its conversation to the moment its answer is
      stored, the transcript grows by its own question and the answer the model gave it, and by nothing else. */
  lemma {:induction false} NobodyBetween(cfg: Config, ss: seq<State>, steps: seq<Step>, t: nat, i: nat, j: nat)
    requires Run(cfg, ss, steps) && i < j < |steps| && steps[i] == Read(t, true) && steps[j] == StoreAnswer(t, true)
    ensures t in ss[i].turns
    ensures var turn := ss[i].turns[t];
      && turn.cid in ss[i].transcripts && turn.cid in ss[j + 1].transcripts
      && exists m :: i < m < j && steps[m].Think? && steps[m].t == t && steps[m].ok
           && ss[j + 1].transcripts[turn.cid]
              == ss[i].transcripts[turn.cid] + [Line("user", turn.question, t), Line("assistant", steps[m].answer, t)]
  {
    StepTaken(cfg, ss, steps, j);
    SinceHolds(cfg, ss, steps, t, i, j);
    RunHolds(cfg, ss, steps, j);
    hide Run, Enabled, Apply, Inv;
    StoresOwn(cfg, ss[j], t);
  }

  // ---- coming and waiting ----

  /** A conversation can be opened once. A question can come at any time, as a turn of its own: for a conversation it
      has to say something, alone it may be blank. */
  lemma {:induction false} Comes(cfg: Config, s: State, t: nat, cid: string, question: string, alone: bool)
    ensures Enabled(cfg, s, Create(cid)) <==> cid !in s.transcripts
    ensures cid !in s.transcripts ==> Apply(cfg, s, Create(cid)) == s.(transcripts := s.transcripts[cid := []])
    ensures Enabled(cfg, s, Arrive(t, cid, question, alone))
       <==> t !in s.turns && (alone || exists c :: c in question && !IsSpace(c))
    ensures Enabled(cfg, s, Arrive(t, cid, question, alone)) ==>
      Apply(cfg, s, Arrive(t, cid, question, alone)) == s.(turns := s.turns[t := Turn(cid, question, alone, Arrived)])
  {
    hide IsSpace, LT.Apply, LT.Enabled, AnswersIn;
  }

  /** A turn is kept from its slot, or from its conversation, exactly when it waits for some turn. */
  lemma {:induction false} BlockedWhileWaiting(cfg: Config, s: State, a: nat)
    requires Inv(cfg, s) && cfg.limit > 0 && a in s.turns
    ensures s.turns[a].pc.Arrived? ==> (!Enabled(cfg, s, Acquire(a)) <==> exists b :: WaitsOn(cfg, s, a, b))
    ensures s.turns[a].pc.Locking? ==> (!Enabled(cfg, s, Take(a)) <==> exists b :: WaitsOn(cfg, s, a, b))
  {
    hide Sound, Remembers, AnswersIn, LT.Inv, LT.Apply, Blank;
    if s.turns[a].pc.Arrived? && s.slots >= cfg.limit {
      var b :| b in SlotHolders(s.turns);
      assert WaitsOn(cfg, s, a, b);
    }
    if s.turns[a].pc.Locking? {
      LT.BlockedByHolder(s.locks, a);
      hide LT.Enabled;
      if !Enabled(cfg, s, Take(a)) {
        var h :| LT.In(s.locks, h, LT.Holding) && s.locks.clients[h].id == s.locks.clients[a].id;
        assert WaitsOn(cfg, s, a, h);
      }
      forall b | WaitsOn(cfg, s, a, b)
        ensures LT.In(s.locks, b, LT.Holding) && s.locks.clients[b].id == s.locks.clients[a].id
      {
      }
    }
  }
}
