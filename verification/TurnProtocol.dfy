/** Every turn of one process, step by step: the slot, the conversation's lock, the stored question and answer. */
module TurnProtocol {
  import opened Text
  import opened Totals
  import LT = LockTable

  /** One stored message; turn names the turn that stored it. */
  datatype Line = Line(role: string, content: string, turn: nat)

  datatype Pc =
    | Arrived                                           // question accepted, no slot yet
    | Slotted                                           // holds a slot
    | Locking                                           // waits for the conversation's lock
    | Ready                                             // holds the lock
    | Loaded(history: seq<Line>)                        // has read a conversation below its cap
    | Asking(history: seq<Line>)                        // has stored its question; the model runs
    | Answering(history: seq<Line>, answer: string)     // has an answer to store
    | Unlocking                                         // done with the conversation, lock still held
    | Unlocked                                          // channel freed or never taken, count still to give back
    | Exiting                                           // holds only its slot
    | Gone

  /** A question asked alone belongs to no conversation: it is answered on its slot, blank or not, and nothing is
      stored. */
  datatype Turn = Turn(cid: string, question: string, alone: bool, pc: Pc)

  datatype State = State(slots: int, locks: LT.World, turns: map<nat, Turn>, transcripts: map<string, seq<Line>>)

  datatype Config = Config(limit: nat, maxTurns: nat)

  /** Steps name their turn. stored and ok say what a write came to: it may be reported failed and yet have
      happened. */
  datatype Step =
    | Create(cid: string)
    | Arrive(t: nat, cid: string, question: string, alone: bool)
    | Acquire(t: nat)
    | Refuse(t: nat)
    | AnswerAlone(t: nat)
    | Join(t: nat, made: nat)
    | Take(t: nat)
    | GiveUp(t: nat)
    | Read(t: nat, ok: bool)
    | StoreQuestion(t: nat, stored: bool, ok: bool)
    | Think(t: nat, ok: bool, answer: string)
    | StoreAnswer(t: nat, stored: bool)
    | Unlock(t: nat)
    | Leave(t: nat)
    | Release(t: nat)

  function AnswersIn(t: seq<Line>): nat {
    if t == [] then 0 else AnswersIn(t[..|t| - 1]) + if t[|t| - 1].role == "assistant" then 1 else 0
  }

  /** How many answers a conversation holds, as the cap counts them. */
  method CountTurns(history: seq<Line>) returns (turns: nat)
    ensures turns == AnswersIn(history)
  {
    turns := 0;
    for i := 0 to |history|
      invariant turns == AnswersIn(history[..i])
    {
      assert history[..i + 1][..i] == history[..i];
      if history[i].role == "assistant" {
        turns := turns + 1;
      }
    }
    assert history[..|history|] == history;
  }

  function LockStep(s: State, st: Step): LT.Step {
    match st
    case Join(t, made) => LT.Enter(t, if t in s.turns then s.turns[t].cid else "", made)
    case Take(t) => LT.Take(t)
    case GiveUp(t) => LT.GiveUp(t)
    case Unlock(t) => LT.Unlock(t)
    case Leave(t) => LT.Drop(t)
    case _ => LT.UnlockAgain(0)
  }

  predicate UsesLock(st: Step) {
    st.Join? || st.Take? || st.GiveUp? || st.Unlock? || st.Leave?
  }

  predicate Enabled(cfg: Config, s: State, st: Step) {
    match st
    case Create(cid) => cid !in s.transcripts
    case Arrive(t, _, question, alone) => t !in s.turns && (alone || !Blank(question))
    case _ =>
      && st.t in s.turns
      && (UsesLock(st) ==> LT.Enabled(s.locks, LockStep(s, st)))
      && var pc := s.turns[st.t].pc;
        match st
        case Acquire(_) => pc.Arrived? && s.slots < cfg.limit
        case Refuse(_) => pc.Arrived?
        case AnswerAlone(_) => pc.Slotted? && s.turns[st.t].alone
        case Join(_, _) => pc.Slotted? && !s.turns[st.t].alone
        case Take(_) => pc.Locking?
        case GiveUp(_) => pc.Locking?
        case Read(_, _) => pc.Ready?
        case StoreQuestion(_, stored, ok) => pc.Loaded? && (ok ==> stored)
        case Think(_, ok, answer) => pc.Asking? && (ok ==> !Blank(answer))
        case StoreAnswer(_, _) => pc.Answering?
        case Unlock(_) => pc.Unlocking?
        case Leave(_) => pc.Unlocked?
        case Release(_) => pc.Exiting?
        case _ => false
  }

  /** Where a step leaves its turn. */
  function NextPc(cfg: Config, s: State, st: Step): Pc
    requires Enabled(cfg, s, st) && !st.Create? && !st.Arrive?
  {
    var turn := s.turns[st.t];
    match st
    case Acquire(_) => Slotted
    case Refuse(_) => Gone
    case AnswerAlone(_) => Exiting
    case Join(_, _) => Locking
    case Take(_) => Ready
    case GiveUp(_) => Unlocked
    case Read(_, ok) =>
      if !ok || turn.cid !in s.transcripts || AnswersIn(s.transcripts[turn.cid]) >= cfg.maxTurns then Unlocking
      else Loaded(s.transcripts[turn.cid])
    case StoreQuestion(_, _, ok) => if ok then Asking(turn.pc.history) else Unlocking
    case Think(_, ok, answer) => if ok then Answering(turn.pc.history, answer) else Unlocking
    case StoreAnswer(_, _) => Unlocking
    case Unlock(_) => Unlocked
    case Leave(_) => Exiting
    case Release(_) => Gone
    case _ => Gone
  }

  /** The line a step stores, if any. */
  function Stored(s: State, st: Step): seq<Line>
    requires !st.Create? && !st.Arrive? && st.t in s.turns
    requires st.StoreAnswer? ==> s.turns[st.t].pc.Answering?
  {
    match st
    case StoreQuestion(t, true, _) => [Line("user", s.turns[t].question, t)]
    case StoreAnswer(t, true) => [Line("assistant", s.turns[t].pc.answer, t)]
    case _ => []
  }

  function Transcript(s: State, cid: string): seq<Line> {
    if cid in s.transcripts then s.transcripts[cid] else []
  }

  function Apply(cfg: Config, s: State, st: Step): State
    requires Enabled(cfg, s, st)
  {
    match st
    case Create(cid) => s.(transcripts := s.transcripts[cid := []])
    case Arrive(t, cid, question, alone) => s.(turns := s.turns[t := Turn(cid, question, alone, Arrived)])
    case _ =>
      var turn := s.turns[st.t];
      var line := Stored(s, st);
      State(
        s.slots + (if st.Acquire? then 1 else if st.Release? then -1 else 0),
        if UsesLock(st) then LT.Apply(s.locks, LockStep(s, st)) else s.locks,
        s.turns[st.t := turn.(pc := NextPc(cfg, s, st))],
        if line == [] then s.transcripts else s.transcripts[turn.cid := Transcript(s, turn.cid) + line])
  }

  const START := State(0, LT.Empty(), map[], map[])

  // ---- the invariant ----

  predicate HasSlot(pc: Pc) {
    !pc.Arrived? && !pc.Gone?
  }

  /** The turn has its conversation to itself. */
  predicate Owns(pc: Pc) {
    pc.Ready? || pc.Loaded? || pc.Asking? || pc.Answering? || pc.Unlocking?
  }

  predicate InTable(pc: Pc) {
    pc.Locking? || Owns(pc) || pc.Unlocked?
  }

  function PhaseOf(pc: Pc): LT.Phase
    requires InTable(pc)
  {
    if pc.Locking? then LT.Waiting else if pc.Unlocked? then LT.Leaving else LT.Holding
  }

  function SlotHolders(turns: map<nat, Turn>): set<nat> {
    set t | t in turns && HasSlot(turns[t].pc)
  }

  ghost predicate SlotsCounted(cfg: Config, s: State) {
    s.slots == |SlotHolders(s.turns)| && s.slots <= cfg.limit
  }

  /** The lock table's clients are exactly the turns between joining and leaving it, each where its turn says. */
  ghost predicate Aligned(s: State) {
    && LT.Inv(s.locks)
    && (forall t | t in s.locks.clients :: t in s.turns && InTable(s.turns[t].pc))
    && (forall t | t in s.turns && InTable(s.turns[t].pc) ::
          t in s.locks.clients && s.locks.clients[t].id == s.turns[t].cid
            && s.locks.clients[t].phase == PhaseOf(s.turns[t].pc))
  }

  /** An answer directly follows the question of the very turn that stored it. */
  ghost predicate FollowsOwnQuestion(t: seq<Line>, i: nat)
    requires i < |t|
  {
    t[i].role == "assistant" ==> i > 0 && t[i - 1].role == "user" && t[i - 1].turn == t[i].turn
  }

  ghost predicate Sound(cfg: Config, t: seq<Line>) {
    && AnswersIn(t) <= cfg.maxTurns
    && (forall i | 0 <= i < |t| :: (t[i].role == "user" || t[i].role == "assistant") && !Blank(t[i].content))
    && (forall i | 0 <= i < |t| :: FollowsOwnQuestion(t, i))
  }

  /** What a turn remembers of its conversation is still what is stored, plus its own question once asked. */
  ghost predicate Remembers(cfg: Config, s: State, t: nat)
    requires t in s.turns
  {
    var turn := s.turns[t];
    && (turn.alone ==> turn.pc.Arrived? || turn.pc.Slotted? || turn.pc.Exiting? || turn.pc.Gone?)
    && (turn.alone || !Blank(turn.question))
    && (turn.pc.Loaded? || turn.pc.Asking? || turn.pc.Answering? ==>
          && AnswersIn(turn.pc.history) < cfg.maxTurns && Sound(cfg, turn.pc.history)
          && Transcript(s, turn.cid)
             == turn.pc.history + if turn.pc.Loaded? then [] else [Line("user", turn.question, t)])
    && (turn.pc.Answering? ==> !Blank(turn.pc.answer))
  }

  ghost predicate Inv(cfg: Config, s: State) {
    && SlotsCounted(cfg, s)
    && Aligned(s)
    && (forall cid | cid in s.transcripts :: Sound(cfg, s.transcripts[cid]))
    && (forall t | t in s.turns :: Remembers(cfg, s, t))
  }

  lemma {:induction false} WithOrWithout(s: set<nat>, t: nat)
    ensures |s| == |s - {t}| + if t in s then 1 else 0
  {
    assert s == (s - {t}) + if t in s then {t} else {};
  }

  lemma OthersHoldOn(turns: map<nat, Turn>, t: nat, turn: Turn)
    ensures SlotHolders(turns[t := turn]) - {t} == SlotHolders(turns) - {t}
  {
    hide HasSlot;
    forall u | u != t
      ensures u in SlotHolders(turns[t := turn]) <==> u in SlotHolders(turns)
    {
    }
  }

  lemma {:induction false} SlotHoldersUpdate(turns: map<nat, Turn>, t: nat, turn: Turn)
    ensures |SlotHolders(turns[t := turn])|
         == |SlotHolders(turns)| + (if HasSlot(turn.pc) then 1 else 0)
            - (if t in turns && HasSlot(turns[t].pc) then 1 else 0)
  {
    var before, after := SlotHolders(turns), SlotHolders(turns[t := turn]);
    OthersHoldOn(turns, t, turn);
    hide HasSlot;
    WithOrWithout(after, t);
    WithOrWithout(before, t);
  }

  lemma {:induction false} SlotsStep(cfg: Config, s: State, st: Step)
    requires SlotsCounted(cfg, s) && Enabled(cfg, s, st)
    ensures SlotsCounted(cfg, Apply(cfg, s, st))
  {
    hide SlotHolders, Stored, AnswersIn, LT.Apply, LT.Enabled, Blank;
    if !st.Create? {
      SlotHoldersUpdate(s.turns, st.t, Apply(cfg, s, st).turns[st.t]);
    }
  }

  /** A lock step is taken by the turn it names, which the step moves exactly as its turn moves. */
  lemma {:induction false} AlignedLockStep(cfg: Config, s: State, st: Step)
    requires Aligned(s) && Enabled(cfg, s, st) && UsesLock(st)
    ensures Aligned(Apply(cfg, s, st))
  {
    hide LT.Inv, LT.Entered, LT.WithFull, LT.Dropped, LT.CellOf, LT.Joined, Transcript;
    LT.InvStep(s.locks, LockStep(s, st));
    assert LockStep(s, st).c == st.t;
    assert Stored(s, st) == [];
  }

  lemma {:induction false} AlignedStep(cfg: Config, s: State, st: Step)
    requires Aligned(s) && Enabled(cfg, s, st)
    ensures Aligned(Apply(cfg, s, st))
  {
    hide LT.Inv, LT.Apply, LT.Enabled, Stored, AnswersIn, Blank;
    if UsesLock(st) {
      AlignedLockStep(cfg, s, st);
    }
  }

  lemma {:induction false} OneOwner(s: State, a: nat, b: nat)
    requires Aligned(s) && a in s.turns && b in s.turns && Owns(s.turns[a].pc) && Owns(s.turns[b].pc)
    requires s.turns[a].cid == s.turns[b].cid
    ensures a == b
  {
    hide LT.Inv;
    LT.OneHolder(s.locks, a, b);
  }

  lemma {:induction false} AnswersSnoc(t: seq<Line>, line: Line)
    ensures AnswersIn(t + [line]) == AnswersIn(t) + if line.role == "assistant" then 1 else 0
  {
    assert (t + [line])[..|t|] == t;
  }

  lemma {:induction false} SoundSnoc(cfg: Config, t: seq<Line>, line: Line)
    requires Sound(cfg, t) && !Blank(line.content)
    requires line.role == "user" || (line.role == "assistant" && t != [] && t[|t| - 1].role == "user"
      && t[|t| - 1].turn == line.turn && AnswersIn(t) < cfg.maxTurns)
    ensures Sound(cfg, t + [line])
  {
    hide Blank;
    AnswersSnoc(t, line);
    forall i | 0 <= i < |t + [line]|
      ensures FollowsOwnQuestion(t + [line], i)
    {
      assert i < |t| ==> FollowsOwnQuestion(t, i);
    }
  }

  /** Only the owner of a conversation writes to it, and what it writes keeps the transcript sound. */
  lemma {:induction false} TranscriptsStep(cfg: Config, s: State, st: Step, cid: string)
    requires Inv(cfg, s) && Enabled(cfg, s, st)
    requires cid in Apply(cfg, s, st).transcripts
    ensures Sound(cfg, Apply(cfg, s, st).transcripts[cid])
  {
    hide Blank, SlotsCounted, Aligned, LT.Apply, LT.Enabled;
    var s' := Apply(cfg, s, st);
    if st.StoreQuestion? || st.StoreAnswer? {
      var turn := s.turns[st.t];
      assert Remembers(cfg, s, st.t);
      if turn.cid == cid && Stored(s, st) != [] {
        if st.StoreAnswer? {
          AnswersSnoc(turn.pc.history, Line("user", turn.question, st.t));
        }
        SoundSnoc(cfg, Transcript(s, cid), Stored(s, st)[0]);
      }
    }
  }

  lemma {:induction false} RemembersOwn(cfg: Config, s: State, st: Step)
    requires Inv(cfg, s) && Enabled(cfg, s, st) && !st.Create?
    ensures Remembers(cfg, Apply(cfg, s, st), st.t)
  {
    hide Blank, SlotsCounted, Aligned, LT.Apply, LT.Enabled, Sound;
    if !st.Arrive? {
      assert Remembers(cfg, s, st.t);
    }
  }

  lemma {:induction false} RemembersOther(cfg: Config, s: State, st: Step, t: nat)
    requires Inv(cfg, s) && Enabled(cfg, s, st) && t in s.turns && (st.Create? || t != st.t)
    ensures Remembers(cfg, Apply(cfg, s, st), t)
  {
    hide Blank, SlotsCounted, Aligned, LT.Apply, LT.Enabled, Sound, AnswersIn;
    assert Remembers(cfg, s, t);
    if st.StoreQuestion? || st.StoreAnswer? {
      if s.turns[st.t].cid == s.turns[t].cid && Owns(s.turns[t].pc) {
        OneOwner(s, st.t, t);
      }
    }
  }

  /** Every step of every turn keeps the invariant. */
  lemma {:induction false} InvStep(cfg: Config, s: State, st: Step)
    requires Inv(cfg, s) && Enabled(cfg, s, st)
    ensures Inv(cfg, Apply(cfg, s, st))
  {
    hide SlotsCounted, Aligned, Sound, Remembers, Blank, LT.Apply;
    var s' := Apply(cfg, s, st);
    SlotsStep(cfg, s, st);
    AlignedStep(cfg, s, st);
    forall cid | cid in s'.transcripts
      ensures Sound(cfg, s'.transcripts[cid])
    {
      TranscriptsStep(cfg, s, st, cid);
    }
    forall t | t in s'.turns
      ensures Remembers(cfg, s', t)
    {
      if st.Create? || t != st.t {
        RemembersOther(cfg, s, st, t);
      } else {
        RemembersOwn(cfg, s, st);
      }
    }
  }

  /** Any run of the process from an empty store, however its turns interleave. */
  ghost predicate Run(cfg: Config, ss: seq<State>, steps: seq<Step>) {
    && |ss| == |steps| + 1 && ss[0] == START
    && (forall i | 0 <= i < |steps| :: Enabled(cfg, ss[i], steps[i]) && Apply(cfg, ss[i], steps[i]) == ss[i + 1])
  }

  lemma {:induction false} RunHolds(cfg: Config, ss: seq<State>, steps: seq<Step>, n: nat)
    requires Run(cfg, ss, steps) && n < |ss|
    ensures Inv(cfg, ss[n])
  {
    if n == 0 {
      assert SlotHolders(START.turns) == {};
      LT.EmptyHolds();
    } else {
      RunHolds(cfg, ss, steps, n - 1);
      InvStep(cfg, ss[n - 1], steps[n - 1]);
    }
  }

  /** At every moment of every run: no more turns hold slots than the limit, a conversation has one active turn at
      most, no transcript holds more answers than its cap, and each answer directly follows its own question. */
  lemma {:induction false} ProtocolSafety(cfg: Config, ss: seq<State>, steps: seq<Step>, n: nat)
    requires Run(cfg, ss, steps) && n < |ss|
    ensures var s := ss[n];
      && |SlotHolders(s.turns)| <= cfg.limit
      && (forall a, b | a in s.turns && b in s.turns && Owns(s.turns[a].pc) && Owns(s.turns[b].pc)
            && s.turns[a].cid == s.turns[b].cid :: a == b)
      && (forall cid | cid in s.transcripts :: AnswersIn(s.transcripts[cid]) <= cfg.maxTurns
            && forall i | 0 <= i < |s.transcripts[cid]| :: FollowsOwnQuestion(s.transcripts[cid], i))
  {
    RunHolds(cfg, ss, steps, n);
    var s := ss[n];
    forall a, b | a in s.turns && b in s.turns && Owns(s.turns[a].pc) && Owns(s.turns[b].pc)
      && s.turns[a].cid == s.turns[b].cid
      ensures a == b
    {
      OneOwner(s, a, b);
    }
  }

  // ---- waiting ----

  /** a cannot go on until b does: b holds one of the slots a needs, or owns the conversation a waits for. */
  predicate WaitsOn(cfg: Config, s: State, a: nat, b: nat) {
    && a in s.turns && b in s.turns
    && ((s.turns[a].pc.Arrived? && s.slots >= cfg.limit && HasSlot(s.turns[b].pc))
        || (s.turns[a].pc.Locking? && s.turns[a].cid == s.turns[b].cid && Owns(s.turns[b].pc)))
  }

  function Rank(pc: Pc): nat {
    if pc.Arrived? then 2 else if pc.Locking? then 1 else 0
  }

  /** Whoever is waited for already holds a slot and is nearer the end, so waits never form a cycle. */
  lemma {:induction false} WaitsDescend(cfg: Config, s: State, a: nat, b: nat)
    requires WaitsOn(cfg, s, a, b)
    ensures HasSlot(s.turns[b].pc) && Rank(s.turns[b].pc) < Rank(s.turns[a].pc)
  {
  }

  ghost predicate WaitChain(cfg: Config, s: State, chain: seq<nat>) {
    forall i | 0 <= i < |chain| - 1 :: WaitsOn(cfg, s, chain[i], chain[i + 1])
  }

  lemma {:induction false} WaitChainsAreShort(cfg: Config, s: State, chain: seq<nat>, i: nat)
    requires WaitChain(cfg, s, chain) && i < |chain| && |chain| >= 2
    ensures chain[i] in s.turns && Rank(s.turns[chain[i]].pc) + i <= 2
  {
    if i == 0 {
      assert WaitsOn(cfg, s, chain[0], chain[1]);
    } else {
      WaitChainsAreShort(cfg, s, chain, i - 1);
      WaitsDescend(cfg, s, chain[i - 1], chain[i]);
    }
  }

  /** A step of a turn under way that neither refuses it nor lets it give up. */
  predicate Advances(st: Step) {
    !st.Create? && !st.Arrive? && !st.Refuse? && !st.GiveUp?
  }

  lemma {:induction false} OwnerCanStep(cfg: Config, s: State, t: nat) returns (st: Step)
    requires Inv(cfg, s) && t in s.turns && HasSlot(s.turns[t].pc) && !s.turns[t].pc.Locking?
    ensures Advances(st) && st.t == t && Enabled(cfg, s, st)
  {
    hide SlotsCounted, Sound, Remembers, Blank, LT.Inv;
    var turn := s.turns[t];
    match turn.pc
    case Slotted =>
      if turn.alone {
        return AnswerAlone(t);
      }
      var made := Fresh(s.locks.table.cells.Keys);
      st := Join(t, made);
    case Ready => st := Read(t, true);
    case Loaded(_) => st := StoreQuestion(t, true, true);
    case Asking(_) => st := Think(t, false, "");
    case Answering(_, _) => st := StoreAnswer(t, true);
    case Unlocking => st := Unlock(t);
    case Unlocked => st := Leave(t);
    case _ => st := Release(t);
  }

  lemma {:induction false} Fresh(used: set<nat>) returns (n: nat)
    ensures forall x | x in used :: x < n
    decreases used
  {
    if used == {} {
      n := 0;
    } else {
      var y :| y in used;
      n := Fresh(used - {y});
      assert forall x | x in used :: x == y || x in used - {y};
      n := if y < n then n else y + 1;
    }
  }

  lemma {:induction false} WaiterOrHolderCanStep(cfg: Config, s: State, t: nat) returns (st: Step)
    requires Inv(cfg, s) && t in s.turns && s.turns[t].pc.Locking?
    ensures Advances(st) && Enabled(cfg, s, st)
  {
    hide SlotsCounted, Sound, Remembers, Blank, LT.Inv;
    LT.BlockedByHolder(s.locks, t);
    if LT.Enabled(s.locks, LT.Take(t)) {
      st := Take(t);
    } else {
      var h :| LT.In(s.locks, h, LT.Holding) && s.locks.clients[h].id == s.locks.clients[t].id;
      st := OwnerCanStep(cfg, s, h);
    }
  }

  /** While any turn is unfinished, some turn can go on without anyone being refused or giving up. */
  lemma {:induction false} NeverStuck(cfg: Config, s: State, t: nat) returns (st: Step)
    requires Inv(cfg, s) && cfg.limit > 0 && t in s.turns && !s.turns[t].pc.Gone?
    ensures Advances(st) && Enabled(cfg, s, st)
  {
    var u := t;
    if s.turns[t].pc.Arrived? {
      if s.slots < cfg.limit {
        return Acquire(t);
      }
      u :| u in SlotHolders(s.turns);
    }
    hide Inv, SlotHolders;
    if s.turns[u].pc.Locking? {
      st := WaiterOrHolderCanStep(cfg, s, u);
    } else {
      st := OwnerCanStep(cfg, s, u);
    }
  }

  // ---- ending ----

  /** How many steps a turn can still take at most. */
  function Togo(pc: Pc): nat {
    match pc
    case Arrived => 10
    case Slotted => 9
    case Locking => 8
    case Ready => 7
    case Loaded(_) => 6
    case Asking(_) => 5
    case Answering(_, _) => 4
    case Unlocking => 3
    case Unlocked => 2
    case Exiting => 1
    case Gone => 0
  }

  function Costs(turns: map<nat, Turn>): map<nat, int> {
    map t | t in turns :: Togo(turns[t].pc)
  }

  /** What is left of all turns together. */
  ghost function Work(s: State): int {
    Total(s.turns.Keys, Costs(s.turns))
  }

  lemma {:induction false} TotalNatural(bases: set<nat>, turns: map<nat, Turn>)
    requires bases <= turns.Keys
    ensures Total(bases, Costs(turns)) >= 0
    ensures Total(bases, Costs(turns)) == 0 <==> forall t | t in bases :: turns[t].pc.Gone?
  {
    if bases != {} {
      var t :| t in bases;
      TotalWithout(bases, Costs(turns), t);
      TotalNatural(bases - {t}, turns);
      assert forall u | u in bases :: u == t || u in bases - {t};
    }
  }

  /** Whichever turn it is of, and whatever it comes to, a step that brings in nobody new leaves less to do. */
  lemma {:induction false} StepLowers(cfg: Config, s: State, st: Step)
    requires Enabled(cfg, s, st) && !st.Create? && !st.Arrive?
    ensures Work(Apply(cfg, s, st)) < Work(s)
  {
    var t := st.t;
    var turns, turns' := s.turns, Apply(cfg, s, st).turns;
    assert Togo(turns'[t].pc) < Togo(turns[t].pc);
    assert turns'.Keys == turns.Keys && forall u | u in turns && u != t :: turns'[u] == turns[u];
    hide *;
    CostsApart(turns, turns', t);
  }

  lemma CostsApart(turns: map<nat, Turn>, turns': map<nat, Turn>, t: nat)
    requires turns'.Keys == turns.Keys && t in turns && forall u | u in turns && u != t :: turns'[u] == turns[u]
    requires Togo(turns'[t].pc) < Togo(turns[t].pc)
    ensures Total(turns'.Keys, Costs(turns')) < Total(turns.Keys, Costs(turns))
  {
    hide Togo, Total;
    TotalWithout(turns.Keys, Costs(turns), t);
    TotalWithout(turns.Keys, Costs(turns'), t);
    TotalSame(turns.Keys - {t}, Costs(turns), Costs(turns'));
  }

  /** A stretch of a run in which nobody arrives. */
  ghost predicate Closing(cfg: Config, ss: seq<State>, steps: seq<Step>) {
    && |ss| == |steps| + 1
    && forall i | 0 <= i < |steps| :: ClosingStep(cfg, ss[i], steps[i], ss[i + 1])
  }

  ghost predicate ClosingStep(cfg: Config, s: State, st: Step, s': State) {
    !st.Create? && !st.Arrive? && Enabled(cfg, s, st) && Apply(cfg, s, st) == s'
  }

  /** Once nobody arrives any more the steps are counted, and a stretch no step can continue has every turn gone. */
  lemma {:induction false} ClosingEnds(cfg: Config, ss: seq<State>, steps: seq<Step>)
    requires Closing(cfg, ss, steps) && Inv(cfg, ss[0]) && cfg.limit > 0
    ensures |steps| <= Work(ss[0]) - Work(ss[|steps|]) <= Work(ss[0]) && Inv(cfg, ss[|steps|])
    ensures (forall st | Advances(st) :: !Enabled(cfg, ss[|steps|], st))
       <==> forall t | t in ss[|steps|].turns :: ss[|steps|].turns[t].pc.Gone?
  {
    hide Inv, Enabled, Advances, Work;
    var n := |steps|;
    ClosingCounts(cfg, ss, steps, n);
    WorkNatural(ss[n]);
    if t :| t in ss[n].turns && !ss[n].turns[t].pc.Gone? {
      var st := NeverStuck(cfg, ss[n], t);
    }
    forall st | Advances(st) && Enabled(cfg, ss[n], st)
      ensures exists t :: t in ss[n].turns && !ss[n].turns[t].pc.Gone?
    {
      EnabledIsUnderWay(cfg, ss[n], st);
    }
  }

  lemma EnabledIsUnderWay(cfg: Config, s: State, st: Step)
    requires Advances(st) && Enabled(cfg, s, st)
    ensures st.t in s.turns && !s.turns[st.t].pc.Gone?
  {
  }

  lemma WorkNatural(s: State)
    ensures Work(s) >= 0 && (Work(s) == 0 <==> forall t | t in s.turns :: s.turns[t].pc.Gone?)
  {
    TotalNatural(s.turns.Keys, s.turns);
  }

  lemma {:induction false} ClosingCounts(cfg: Config, ss: seq<State>, steps: seq<Step>, n: nat)
    requires Closing(cfg, ss, steps) && Inv(cfg, ss[0]) && n <= |steps|
    ensures n <= Work(ss[0]) - Work(ss[n]) && Inv(cfg, ss[n])
  {
    hide Inv, Enabled, Apply, Work;
    if n > 0 {
      ClosingCounts(cfg, ss, steps, n - 1);
      assert ClosingStep(cfg, ss[n - 1], steps[n - 1], ss[n - 1 + 1]);
      StepLowers(cfg, ss[n - 1], steps[n - 1]);
      InvStep(cfg, ss[n - 1], steps[n - 1]);
    }
  }
}
