/** The reference-counted lock of each conversation: a table of lock objects, and the turns that use them. */
module LockTable {
  /** One convLock object: whether its one-place channel is full, and how many hold or wait. */
  datatype Cell = Cell(full: bool, holders: int)

  /** The locks map, and every lock object ever made, by identity. */
  datatype Table<!L(==)> = Table(locks: map<string, L>, cells: map<L, Cell>)

  /** The object a turn on this conversation joins: the one in the map, or the one it would make. */
  function Joined<L(==)>(t: Table<L>, id: string, made: L): L {
    if id in t.locks then t.locks[id] else made
  }

  /** A lock object's state; one not made yet starts empty and unused. */
  function CellOf<L(==)>(t: Table<L>, l: L): Cell {
    if l in t.cells then t.cells[l] else Cell(false, 0)
  }

  function Entered<L(==)>(t: Table<L>, id: string, made: L): Table<L> {
    var l := Joined(t, id, made);
    var cell := CellOf(t, l);
    Table(t.locks[id := l], t.cells[l := cell.(holders := cell.holders + 1)])
  }

  function WithFull<L(==)>(t: Table<L>, l: L, full: bool): Table<L> {
    t.(cells := t.cells[l := CellOf(t, l).(full := full)])
  }

  function Dropped<L(==)>(t: Table<L>, id: string, l: L): Table<L> {
    var left := CellOf(t, l).holders - 1;
    Table(if left == 0 then t.locks - {id} else t.locks, t.cells[l := CellOf(t, l).(holders := left)])
  }

  // ---- turns as clients of the table ----

  /** Waiting in select, holding the channel, or past both with its count still to give back. */
  datatype Phase = Waiting | Holding | Leaving

  datatype Client = Client(id: string, lock: nat, phase: Phase)

  datatype World = World(table: Table<nat>, clients: map<nat, Client>)

  datatype Step =
    | Enter(c: nat, id: string, made: nat)
    | Take(c: nat)
    | GiveUp(c: nat)
    | Unlock(c: nat)
    | UnlockAgain(c: nat)
    | Drop(c: nat)

  predicate In(w: World, c: nat, phase: Phase) {
    c in w.clients && w.clients[c].phase == phase
  }

  predicate Enabled(w: World, s: Step) {
    match s
    case Enter(c, id, made) => c !in w.clients && made !in w.table.cells
    case Take(c) => In(w, c, Waiting) && !CellOf(w.table, w.clients[c].lock).full
    case GiveUp(c) => In(w, c, Waiting)
    case Unlock(c) => In(w, c, Holding)
    case UnlockAgain(c) => !In(w, c, Waiting) && !In(w, c, Holding)
    case Drop(c) => In(w, c, Leaving)
  }

  /** The invariant that every interleaving keeps. */
  ghost predicate Inv(w: World) {
    && Bound(w)
    && Counted(w)
    && Exclusive(w)
  }

  /** Every client's conversation is in the map, under the very object the client uses; no two share an object. */
  ghost predicate Bound(w: World) {
    && (forall c | c in w.clients :: w.clients[c].lock in w.table.cells
          && w.clients[c].id in w.table.locks && w.table.locks[w.clients[c].id] == w.clients[c].lock)
    && (forall id | id in w.table.locks ::
          w.table.locks[id] in w.table.cells && w.table.cells[w.table.locks[id]].holders > 0)
    && (forall a, b | a in w.table.locks && b in w.table.locks && w.table.locks[a] == w.table.locks[b] :: a == b)
  }

  function Users(clients: map<nat, Client>, l: nat): set<nat> {
    set c | c in clients && clients[c].lock == l
  }

  /** An object's count is exactly the clients on that very object. */
  ghost predicate Counted(w: World) {
    forall l | l in w.table.cells :: w.table.cells[l].holders == |Users(w.clients, l)|
  }

  /** The channel is full exactly while a client holds it, and then exactly one does. */
  ghost predicate Exclusive(w: World) {
    && (forall a, b | In(w, a, Holding) && In(w, b, Holding) && w.clients[a].lock == w.clients[b].lock :: a == b)
    && (forall c | In(w, c, Holding) :: w.clients[c].lock in w.table.cells && w.table.cells[w.clients[c].lock].full)
    && (forall l | l in w.table.cells && w.table.cells[l].full ::
          exists c :: In(w, c, Holding) && w.clients[c].lock == l)
  }

  function Apply(w: World, s: Step): World
    requires Enabled(w, s)
  {
    match s
    case Enter(c, id, made) =>
      World(Entered(w.table, id, made), w.clients[c := Client(id, Joined(w.table, id, made), Waiting)])
    case Take(c) =>
      World(WithFull(w.table, w.clients[c].lock, true), w.clients[c := w.clients[c].(phase := Holding)])
    case GiveUp(c) =>
      w.(clients := w.clients[c := w.clients[c].(phase := Leaving)])
    case Unlock(c) =>
      World(WithFull(w.table, w.clients[c].lock, false), w.clients[c := w.clients[c].(phase := Leaving)])
    case UnlockAgain(c) => w
    case Drop(c) =>
      World(Dropped(w.table, w.clients[c].id, w.clients[c].lock), w.clients - {c})
  }

  function Empty(): World {
    World(Table(map[], map[]), map[])
  }

  lemma {:induction false} EmptyHolds()
    ensures Inv(Empty())
  {
  }

  lemma {:induction false} UsersEnter(clients: map<nat, Client>, c: nat, client: Client, l: nat)
    requires c !in clients
    ensures |Users(clients[c := client], l)| == |Users(clients, l)| + if client.lock == l then 1 else 0
  {
    assert Users(clients[c := client], l) == Users(clients, l) + if client.lock == l then {c} else {};
  }

  lemma {:induction false} UsersPhase(clients: map<nat, Client>, c: nat, phase: Phase, l: nat)
    requires c in clients
    ensures Users(clients[c := clients[c].(phase := phase)], l) == Users(clients, l)
  {
  }

  lemma {:induction false} UsersDrop(clients: map<nat, Client>, c: nat, l: nat)
    requires c in clients
    ensures |Users(clients - {c}, l)| == |Users(clients, l)| - if clients[c].lock == l then 1 else 0
  {
    assert Users(clients - {c}, l) == Users(clients, l) - if clients[c].lock == l then {c} else {};
  }

  lemma {:induction false} CountedStep(w: World, s: Step)
    requires Inv(w) && Enabled(w, s)
    ensures Counted(Apply(w, s))
  {
    var w' := Apply(w, s);
    forall l | l in w'.table.cells
      ensures w'.table.cells[l].holders == |Users(w'.clients, l)|
    {
      match s
      case Enter(c, id, made) =>
        UsersEnter(w.clients, c, w'.clients[c], l);
        if l !in w.table.cells {
          assert Users(w.clients, l) == {};
        }
      case Take(c) => UsersPhase(w.clients, c, Holding, l);
      case GiveUp(c) => UsersPhase(w.clients, c, Leaving, l);
      case Unlock(c) => UsersPhase(w.clients, c, Leaving, l);
      case UnlockAgain(_) =>
      case Drop(c) => UsersDrop(w.clients, c, l);
    }
  }

  lemma {:induction false} LastOneOut(w: World, c: nat, d: nat)
    requires Bound(w) && Counted(w) && c in w.clients && d in w.clients && c != d && w.clients[c].id == w.clients[d].id
    ensures w.table.cells[w.clients[c].lock].holders >= 2
  {
    var users := Users(w.clients, w.clients[c].lock);
    assert {c, d} <= users;
    TwoOrMore(users, c, d);
  }

  lemma {:induction false} BoundDrop(w: World, c: nat)
    requires Bound(w) && Counted(w) && In(w, c, Leaving)
    ensures Bound(Apply(w, Drop(c)))
  {
    hide Counted, Users;
    forall d | d in w.clients && d != c && w.clients[d].id == w.clients[c].id
      ensures w.table.cells[w.clients[c].lock].holders >= 2
    {
      LastOneOut(w, c, d);
    }
  }

  lemma {:induction false} BoundEnter(w: World, c: nat, id: string, made: nat)
    requires Bound(w) && Enabled(w, Enter(c, id, made))
    ensures Bound(Apply(w, Enter(c, id, made)))
  {
  }

  lemma {:induction false} BoundStep(w: World, s: Step)
    requires Inv(w) && Enabled(w, s)
    ensures Bound(Apply(w, s))
  {
    hide Counted, Exclusive;
    match s
    case Enter(c, id, made) => BoundEnter(w, c, id, made);
    case Drop(c) => BoundDrop(w, c);
    case _ =>
  }

  lemma {:induction false} TwoOrMore(s: set<nat>, a: nat, b: nat)
    requires {a, b} <= s && a != b
    ensures |s| >= 2
  {
    assert |s - {a}| == |s| - 1 && b in s - {a};
  }

  lemma {:induction false} FullHasHolder(w: World, s: Step, l: nat)
    requires Inv(w) && Enabled(w, s)
    requires l in Apply(w, s).table.cells && Apply(w, s).table.cells[l].full
    ensures exists c :: In(Apply(w, s), c, Holding) && Apply(w, s).clients[c].lock == l
  {
    if s.Take? && w.clients[s.c].lock == l {
      assert In(Apply(w, s), s.c, Holding);
    } else {
      assert CellOf(w.table, l).full;
      var c :| In(w, c, Holding) && w.clients[c].lock == l;
      assert c != s.c || s.UnlockAgain?;
      assert In(Apply(w, s), c, Holding);
    }
  }

  lemma {:induction false} ExclusiveStep(w: World, s: Step)
    requires Inv(w) && Enabled(w, s)
    ensures Exclusive(Apply(w, s))
  {
    var w' := Apply(w, s);
    forall l | l in w'.table.cells && w'.table.cells[l].full
      ensures exists c :: In(w', c, Holding) && w'.clients[c].lock == l
    {
      FullHasHolder(w, s, l);
    }
    forall c | In(w', c, Holding)
      ensures w'.clients[c].lock in w'.table.cells && w'.table.cells[w'.clients[c].lock].full
    {
      StillFull(w, s, c);
    }
    forall a, b | In(w', a, Holding) && In(w', b, Holding) && w'.clients[a].lock == w'.clients[b].lock
      ensures a == b
    {
      assert a != s.c || s.UnlockAgain? ==> In(w, a, Holding);
      assert b != s.c || s.UnlockAgain? ==> In(w, b, Holding);
    }
  }

  lemma HolderFull(w: World, c: nat)
    requires Inv(w)
    ensures In(w, c, Holding) ==> w.clients[c].lock in w.table.cells && w.table.cells[w.clients[c].lock].full
  {
  }

  /** Whoever holds after a step holds a full channel. */
  lemma {:induction false} StillFull(w: World, s: Step, c: nat)
    requires Inv(w) && Enabled(w, s) && In(Apply(w, s), c, Holding)
    ensures CellOf(Apply(w, s).table, Apply(w, s).clients[c].lock).full
  {
    hide Counted;
    if c != s.c || s.UnlockAgain? {
      HolderFull(w, c);
      if s.Unlock? {
        assert In(w, s.c, Holding) && w.clients[s.c].lock != w.clients[c].lock;
      }
    }
  }

  /** Every step of every turn keeps the invariant. */
  lemma {:induction false} InvStep(w: World, s: Step)
    requires Inv(w) && Enabled(w, s)
    ensures Inv(Apply(w, s))
  {
    BoundStep(w, s);
    CountedStep(w, s);
    ExclusiveStep(w, s);
  }

  /** Any run of the table, however its steps interleave. */
  ghost predicate Run(ws: seq<World>, steps: seq<Step>) {
    && |ws| == |steps| + 1 && ws[0] == Empty()
    && (forall i | 0 <= i < |steps| :: Enabled(ws[i], steps[i]) && Apply(ws[i], steps[i]) == ws[i + 1])
  }

  lemma {:induction false} RunHolds(ws: seq<World>, steps: seq<Step>, n: nat)
    requires Run(ws, steps) && n < |ws|
    ensures Inv(ws[n])
  {
    if n == 0 {
      EmptyHolds();
    } else {
      RunHolds(ws, steps, n - 1);
      InvStep(ws[n - 1], steps[n - 1]);
    }
  }

  /** An object is in the map exactly while its count is positive. */
  lemma {:induction false} TrackedWhileCounted(w: World, l: nat)
    requires Inv(w) && l in w.table.cells
    ensures w.table.cells[l].holders > 0 <==> exists id :: id in w.table.locks && w.table.locks[id] == l
  {
    if w.table.cells[l].holders > 0 {
      var c :| c in Users(w.clients, l);
      assert w.table.locks[w.clients[c].id] == l;
    }
  }

  /** Turns on one conversation share one object, and two never hold it at once. */
  lemma {:induction false} OneHolder(w: World, a: nat, b: nat)
    requires Inv(w) && a in w.clients && b in w.clients && w.clients[a].id == w.clients[b].id
    ensures w.clients[a].lock == w.clients[b].lock
    ensures In(w, a, Holding) && In(w, b, Holding) ==> a == b
  {
  }

  /** A step of one turn leaves every other turn where it was; whoever else holds still holds a full channel. So a
      turn that gives up, or unlocks a second time, never frees another's hold. */
  lemma {:induction false} OthersKeepTheirHold(w: World, s: Step, other: nat)
    requires Inv(w) && Enabled(w, s) && other != s.c
    ensures var w' := Apply(w, s);
      && (other in w'.clients <==> other in w.clients)
      && (other in w.clients ==> w'.clients[other] == w.clients[other])
      && (In(w, other, Holding) ==> w'.table.cells[w.clients[other].lock].full)
  {
    if s.Unlock? && In(w, other, Holding) {
      assert In(w, s.c, Holding);
    }
  }

  /** A waiter is kept out only by a turn that holds its conversation. */
  lemma {:induction false} BlockedByHolder(w: World, c: nat)
    requires Inv(w) && In(w, c, Waiting)
    ensures Enabled(w, Take(c)) <==> !exists h :: In(w, h, Holding) && w.clients[h].id == w.clients[c].id
  {
    var l := w.clients[c].lock;
    if w.table.cells[l].full {
      var h :| In(w, h, Holding) && w.clients[h].lock == l;
      assert w.table.locks[w.clients[h].id] == l;
    }
  }

  /** Tracked counts the conversations with a holder or a waiter, so it is zero exactly when all have left. */
  lemma {:induction false} TrackedConversations(w: World)
    requires Inv(w)
    ensures w.table.locks.Keys == set c | c in w.clients :: w.clients[c].id
    ensures |w.table.locks| == 0 <==> w.clients == map[]
  {
    forall id | id in w.table.locks
      ensures exists c :: c in w.clients && w.clients[c].id == id
    {
      var l := w.table.locks[id];
      var c :| c in Users(w.clients, l);
      assert w.table.locks[w.clients[c].id] == l;
    }
    if w.clients != map[] {
      var c :| c in w.clients;
      assert w.clients[c].id in w.table.locks;
    }
  }
}

/** The two limits a turn passes, as the objects that hold them. Each method is one critical section or one
    channel operation; how turns interleave them is the business of LockTable and TurnProtocol. */
module Limits {
  import opened LockTable

  class TurnLimiter {
    const limit: nat
    var taken: nat

    constructor (limit: nat)
      ensures this.limit == limit && taken == 0
    {
      this.limit := limit;
      taken := 0;
    }

    /** Takes a slot if one is free; the caller decides whether to wait and try again. */
    method TryAcquire() returns (slot: Slot?)
      requires taken <= limit
      modifies this
      ensures slot != null <==> old(taken) < limit
      ensures taken == old(taken) + (if slot != null then 1 else 0) <= limit
      ensures slot != null ==> fresh(slot) && slot.limiter == this && !slot.released
    {
      slot := null;
      if taken < limit {
        taken := taken + 1;
        slot := new Slot(this);
      }
    }
  }

  class Slot {
    const limiter: TurnLimiter
    var released: bool

    constructor (limiter: TurnLimiter)
      ensures this.limiter == limiter && !released
    {
      this.limiter := limiter;
      released := false;
    }

    /** Gives the slot back the first time, and does nothing after that. */
    method Release()
      requires !released ==> limiter.taken > 0
      modifies this, limiter
      ensures released
      ensures limiter.taken == old(limiter.taken) - if old(released) then 0 else 1
    {
      if !released {
        released := true;
        limiter.taken := limiter.taken - 1;
      }
    }
  }

  class ConvLock {
    var full: bool
    var holders: int

    constructor ()
      ensures !full && holders == 0
    {
      full, holders := false, 0;
    }
  }

  class ConversationLocks {
    var locks: map<string, ConvLock>
    ghost var pool: set<ConvLock> // every lock object ever made

    ghost predicate Valid()
      reads this
    {
      locks.Values <= pool
    }

    ghost function View(): Table<ConvLock>
      reads this, pool
    {
      Table(locks, map l | l in pool :: Cell(l.full, l.holders))
    }

    constructor ()
      ensures Valid() && View() == Table(map[], map[])
    {
      locks := map[];
      pool := {};
    }

    /** The first half of Lock: joins the conversation's object, making it if there is none, and is counted on it. */
    method Register(id: string) returns (l: ConvLock)
      requires Valid()
      modifies this, pool
      ensures Valid() && l in pool && old(pool) <= pool <= old(pool) + {l}
      ensures id in old(locks) <==> l in old(pool)
      ensures l == Joined(old(View()), id, l)
      ensures View() == Entered(old(View()), id, l)
    {
      if id in locks {
        l := locks[id];
        assert l in locks.Values;
      } else {
        l := new ConvLock();
        locks := locks[id := l];
        pool := pool + {l};
      }
      l.holders := l.holders + 1;
    }

    /** The send of Lock's select: it goes through exactly when the channel has room. */
    method TryTake(id: string, l: ConvLock) returns (hold: Hold?)
      requires Valid() && l in pool
      modifies l
      ensures hold != null <==> !old(l.full)
      ensures View() == WithFull(old(View()), l, true)
      ensures hold != null ==> fresh(hold) && hold.table == this && hold.id == id && hold.lock == l && !hold.done
    {
      hold := null;
      if !l.full {
        l.full := true;
        hold := new Hold(this, id, l);
      }
    }

    /** Gives back one count; the conversation goes from the map with the last. */
    method Drop(id: string, l: ConvLock)
      requires Valid() && l in pool
      modifies this, l
      ensures Valid() && pool == old(pool)
      ensures View() == Dropped(old(View()), id, l)
    {
      l.holders := l.holders - 1;
      if l.holders == 0 {
        locks := locks - {id};
      }
    }

    method Tracked() returns (n: nat)
      ensures n == |locks|
    {
      n := |locks|;
    }
  }

  class Hold {
    const table: ConversationLocks
    const id: string
    const lock: ConvLock
    var done: bool

    constructor (table: ConversationLocks, id: string, lock: ConvLock)
      ensures this.table == table && this.id == id && this.lock == lock && !done
    {
      this.table, this.id, this.lock := table, id, lock;
      done := false;
    }

    /** Frees the channel and gives the count back the first time, and does nothing after that. */
    method Unlock()
      requires table.Valid() && lock in table.pool
      modifies this, table, lock
      ensures done && table.Valid()
      ensures old(done) ==> table.View() == old(table.View())
      ensures !old(done) ==> table.View() == Dropped(WithFull(old(table.View()), lock, false), id, lock)
    {
      if !done {
        done := true;
        lock.full := false;
        table.Drop(id, lock);
      }
    }
  }
}
