/** Least recently used slots, as a map and a list that agree with the requests made so far. */
module RecencyList {
  /** One element of the order list: an entry object and the snapshot ID it is for. */
  datatype Ref<!E(==)> = Ref(id: string, entry: E)

  /** The entries map and the order list, most recent first. */
  datatype Slots<!E(==)> = Slots(entries: map<string, E>, order: seq<Ref<E>>)

  function Take<T>(n: nat, s: seq<T>): seq<T> {
    if |s| <= n then s else s[..n]
  }

  function Without(s: seq<string>, id: string): seq<string> {
    if s == [] then [] else (if s[0] == id then [] else [s[0]]) + Without(s[1..], id)
  }

  /** The distinct IDs of a history, the most recently requested first. */
  function Recent(history: seq<string>): seq<string> {
    if history == [] then [] else
      var id := history[|history| - 1];
      [id] + Without(Recent(history[..|history| - 1]), id)
  }

  function Ids<E(==)>(order: seq<Ref<E>>): seq<string> {
    seq(|order|, i requires 0 <= i < |order| => order[i].id)
  }

  predicate Distinct(s: seq<string>) {
    forall i, j | 0 <= i < j < |s| :: s[i] != s[j]
  }

  /** The map and the list are in bijection, and neither outgrows the limit. */
  ghost predicate Valid<E>(s: Slots<E>, max: nat) {
    && |s.order| <= max
    && Distinct(Ids(s.order))
    && (forall i | 0 <= i < |s.order| :: s.order[i].id in s.entries && s.entries[s.order[i].id] == s.order[i].entry)
    && (forall id | id in s.entries :: id in Ids(s.order))
  }

  function IndexOf<E(==)>(order: seq<Ref<E>>, id: string): (k: nat)
    ensures k <= |order|
    ensures k < |order| ==> order[k].id == id
    ensures forall j | 0 <= j < k :: order[j].id != id
  {
    if order == [] || order[0].id == id then 0 else 1 + IndexOf(order[1..], id)
  }

  function MovedToFront<E(==)>(order: seq<Ref<E>>, k: nat): seq<Ref<E>>
    requires k < |order|
  {
    [order[k]] + order[..k] + order[k + 1..]
  }

  /** The slots after a request: the ID's entry leads, found or made, and what no longer fits is gone from both. */
  function Requested<E(==)>(s: Slots<E>, id: string, made: E, max: nat): Slots<E> {
    if id in s.entries then
      var k := IndexOf(s.order, id);
      Slots(s.entries, if k < |s.order| then MovedToFront(s.order, k) else s.order)
    else
      var order := Take(max, [Ref(id, made)] + s.order);
      Slots(map k | k in s.entries[id := made] && k in Ids(order) :: s.entries[id := made][k], order)
  }

  lemma {:induction false} WithoutMiss(s: seq<string>, id: string)
    requires id !in s
    ensures Without(s, id) == s
  {
    if s != [] {
      WithoutMiss(s[1..], id);
    }
  }

  lemma {:induction false} WithoutHit(s: seq<string>, k: nat)
    requires Distinct(s) && k < |s|
    ensures Without(s, s[k]) == s[..k] + s[k + 1..]
  {
    if k == 0 {
      assert s[0] !in s[1..];
      WithoutMiss(s[1..], s[0]);
    } else {
      WithoutHit(s[1..], k - 1);
      assert s[0] != s[k];
      assert s[..k] + s[k + 1..] == [s[0]] + (s[1..][..k - 1] + s[1..][k..]);
    }
  }

  lemma {:induction false} WithoutKeeps(s: seq<string>, id: string)
    ensures id !in Without(s, id)
    ensures forall x :: x in s && x != id <==> x in Without(s, id)
  {
    if s != [] {
      WithoutKeeps(s[1..], id);
      assert s == [s[0]] + s[1..];
    }
  }

  lemma {:induction false} WithoutStaysDistinct(s: seq<string>, id: string)
    requires Distinct(s)
    ensures Distinct(Without(s, id))
  {
    if s != [] {
      WithoutStaysDistinct(s[1..], id);
      WithoutKeeps(s[1..], id);
      var rest := Without(s[1..], id);
      forall j | 0 <= j < |rest|
        ensures rest[j] != s[0]
      {
        assert rest[j] in s[1..];
      }
    }
  }

  lemma {:induction false} DistinctSize(s: seq<string>)
    requires Distinct(s)
    ensures |set id | id in s| == |s|
  {
    if s == [] {
      assert (set id | id in s) == {};
    } else {
      var n := |s| - 1;
      DistinctSize(s[..n]);
      assert s == s[..n] + [s[n]];
      assert (set id | id in s) == (set id | id in s[..n]) + {s[n]};
    }
  }

  lemma {:induction false} RecentIsDistinct(history: seq<string>)
    ensures Distinct(Recent(history))
    ensures forall id :: id in Recent(history) <==> id in history
  {
    if history != [] {
      var n := |history| - 1;
      RecentIsDistinct(history[..n]);
      WithoutStaysDistinct(Recent(history[..n]), history[n]);
      WithoutKeeps(Recent(history[..n]), history[n]);
      assert history == history[..n] + [history[n]];
    }
  }

  /** When an ID was last requested; -1 if never. */
  function LastAt(history: seq<string>, id: string): (k: int)
    ensures -1 <= k < |history|
    ensures k == -1 <==> id !in history
  {
    if history == [] then -1
    else if history[|history| - 1] == id then |history| - 1
    else LastAt(history[..|history| - 1], id)
  }

  ghost predicate ByRecency(history: seq<string>, s: seq<string>) {
    forall i, j | 0 <= i < j < |s| :: LastAt(history, s[i]) > LastAt(history, s[j])
  }

  lemma {:induction false} WithoutOrder(s: seq<string>, id: string, history: seq<string>)
    requires ByRecency(history, s)
    ensures ByRecency(history, Without(s, id))
  {
    hide LastAt;
    if s != [] {
      WithoutOrder(s[1..], id, history);
      WithoutKeeps(s[1..], id);
      var rest := Without(s[1..], id);
      forall j | 0 <= j < |rest|
        ensures LastAt(history, s[0]) > LastAt(history, rest[j])
      {
        assert rest[j] in s[1..];
        var k :| 0 <= k < |s[1..]| && s[1..][k] == rest[j];
        assert s[k + 1] == rest[j];
      }
    }
  }

  /** Recent lists each requested ID once, later requests first. */
  lemma {:induction false} RecentByLastRequest(history: seq<string>)
    ensures ByRecency(history, Recent(history))
  {
    if history != [] {
      var n := |history| - 1;
      var before, id := history[..n], history[n];
      RecentByLastRequest(before);
      WithoutOrder(Recent(before), id, before);
      WithoutKeeps(Recent(before), id);
      LeadingRequest(history, Without(Recent(before), id));
    }
  }

  lemma LeadingRequest(history: seq<string>, rest: seq<string>)
    requires history != [] && ByRecency(history[..|history| - 1], rest) && history[|history| - 1] !in rest
    ensures ByRecency(history, [history[|history| - 1]] + rest)
  {
    assert forall j | 0 <= j < |rest| ::
             rest[j] in rest && LastAt(history, rest[j]) == LastAt(history[..|history| - 1], rest[j]);
  }

  /** Up to where it is cut, a list with an ID left out does not depend on what lies past the cut. */
  lemma CutWithout(r: seq<string>, id: string, max: nat)
    requires Distinct(r) && 0 < max < |r|
    ensures var w, t := Without(r, id), Without(r[..max], id);
      |w| >= max - 1 && |t| >= max - 1 && w[..max - 1] == t[..max - 1]
  {
    hide Without;
    if k :| 0 <= k < |r| && r[k] == id {
      WithoutHit(r, k);
      if k < max {
        WithoutHit(r[..max], k);
      } else {
        WithoutMiss(r[..max], id);
      }
    } else {
      WithoutMiss(r, id);
      WithoutMiss(r[..max], id);
    }
  }

  /** Forgetting what did not fit before a request changes nothing of what fits after it. */
  lemma TakeForgets(r: seq<string>, id: string, max: nat)
    requires Distinct(r)
    ensures Take(max, [id] + Without(Take(max, r), id)) == Take(max, [id] + Without(r, id))
  {
    hide Without, Distinct;
    if 0 < max < |r| {
      CutWithout(r, id, max);
      LedBy(id, Without(r, id), max);
      LedBy(id, Without(r[..max], id), max);
    }
  }

  lemma LedBy(id: string, w: seq<string>, max: nat)
    requires 0 < max && |w| >= max - 1
    ensures Take(max, [id] + w) == [id] + w[..max - 1]
  {
  }

  lemma HitAt<E>(s: Slots<E>, id: string, max: nat)
    requires Valid(s, max) && id in s.entries
    ensures IndexOf(s.order, id) < |s.order|
  {
    var ids := Ids(s.order);
    var j :| 0 <= j < |ids| && ids[j] == id;
    assert s.order[j].id == id;
  }

  lemma MovedIds<E>(order: seq<Ref<E>>, k: nat)
    requires Distinct(Ids(order)) && k < |order|
    ensures Ids(MovedToFront(order, k)) == [order[k].id] + Without(Ids(order), order[k].id)
  {
    hide Without;
    WithoutHit(Ids(order), k);
  }

  lemma PushedIds<E>(order: seq<Ref<E>>, id: string, made: E, max: nat)
    requires id !in Ids(order)
    ensures Ids(Take(max, [Ref(id, made)] + order)) == Take(max, [id] + Without(Ids(order), id))
  {
    hide Without;
    WithoutMiss(Ids(order), id);
  }

  lemma RequestedIds<E>(s: Slots<E>, id: string, made: E, max: nat)
    requires Valid(s, max)
    ensures Ids(Requested(s, id, made, max).order) == Take(max, [id] + Without(Ids(s.order), id))
  {
    hide Without;
    if id in s.entries {
      HitAt(s, id, max);
      MovedIds(s.order, IndexOf(s.order, id));
    } else {
      assert forall i | 0 <= i < |s.order| :: Ids(s.order)[i] == s.order[i].id;
      PushedIds(s.order, id, made, max);
    }
  }

  lemma MovedIsValid<E>(s: Slots<E>, k: nat, max: nat)
    requires Valid(s, max) && k < |s.order|
    ensures Valid(s.(order := MovedToFront(s.order, k)), max)
  {
    hide Without, Distinct;
    var order, order' := s.order, MovedToFront(s.order, k);
    var ids, ids' := Ids(order), Ids(order');
    MovedIds(order, k);
    WithoutKeeps(ids, ids[k]);
    WithoutStaysDistinct(ids, ids[k]);
    LeadingDistinct(ids[k], Without(ids, ids[k]));
    assert forall i | 0 <= i < |order'| :: order'[i] == order[if i == 0 then k else if i <= k then i - 1 else i];
  }

  lemma LeadingDistinct(x: string, s: seq<string>)
    requires Distinct(s) && x !in s
    ensures Distinct([x] + s)
  {
  }

  /** A request keeps map and list in bijection within the limit. */
  lemma RequestedIsValid<E>(s: Slots<E>, id: string, made: E, max: nat)
    requires Valid(s, max)
    ensures Valid(Requested(s, id, made, max), max)
  {
    if id in s.entries {
      hide Valid, MovedToFront, IndexOf;
      HitAt(s, id, max);
      MovedIsValid(s, IndexOf(s.order, id), max);
    } else {
      MadeIsValid(s, id, made, max);
    }
  }

  lemma MadeIsValid<E>(s: Slots<E>, id: string, made: E, max: nat)
    requires Valid(s, max) && id !in s.entries
    ensures Valid(Requested(s, id, made, max), max)
  {
    var pushed := [Ref(id, made)] + s.order;
    var s' := Requested(s, id, made, max);
    assert forall i | 0 <= i < |s.order| :: Ids(s.order)[i] == s.order[i].id;
    LeadingDistinct(id, Ids(s.order));
    assert Ids(pushed) == [id] + Ids(s.order);
    assert s'.order == pushed[..|s'.order|];
    hide Distinct;
    TakenDistinct(Ids(pushed), |s'.order|);
    assert Ids(s'.order) == Ids(pushed)[..|s'.order|];
    assert forall i | 0 <= i < |s'.order| :: Ids(s'.order)[i] == s'.order[i].id;
  }

  lemma TakenDistinct(s: seq<string>, n: nat)
    requires Distinct(s) && n <= |s|
    ensures Distinct(s[..n])
  {
  }

  /** The list is exactly the most recently requested distinct IDs that fit, in order of recency. */
  lemma RequestRefinesRecent<E>(s: Slots<E>, history: seq<string>, id: string, made: E, max: nat)
    requires Valid(s, max) && Ids(s.order) == Take(max, Recent(history))
    ensures Ids(Requested(s, id, made, max).order) == Take(max, Recent(history + [id]))
  {
    RequestedIds(s, id, made, max);
    RecentIsDistinct(history);
    TakeForgets(Recent(history), id, max);
    assert (history + [id])[..|history|] == history;
  }
}

/** The cache object. Each method runs under its mutex. */
module CardCaches {
  import opened RecencyList

  class CardEntry {
    const id: string
    var locked: bool
    var card: string // "" stands for no card
    var expires: int

    constructor (id: string)
      ensures this.id == id && !locked && card == ""
    {
      this.id := id;
      locked, card, expires := false, "", 0;
    }
  }

  function Refs(order: seq<CardEntry>): seq<Ref<CardEntry>> {
    seq(|order|, i requires 0 <= i < |order| => Ref(order[i].id, order[i]))
  }

  function Kept(all: map<string, CardEntry>, order: seq<CardEntry>): map<string, CardEntry> {
    map k | k in all && k in Ids(Refs(order)) :: all[k]
  }

  lemma RefsMoved(order: seq<CardEntry>, k: nat)
    requires k < |order|
    ensures Refs([order[k]] + order[..k] + order[k + 1..]) == MovedToFront(Refs(order), k)
  {
  }

  /** Dropping the last element takes exactly its own ID from the map. */
  lemma DropOldest(all: map<string, CardEntry>, order: seq<CardEntry>)
    requires order != [] && Distinct(Ids(Refs(order)))
    ensures Kept(all, order[..|order| - 1]) == Kept(all, order) - {order[|order| - 1].id}
    ensures Distinct(Ids(Refs(order[..|order| - 1])))
  {
    var ids, ids' := Ids(Refs(order)), Ids(Refs(order[..|order| - 1]));
    assert ids == ids' + [order[|order| - 1].id];
    assert forall i | 0 <= i < |ids'| :: ids'[i] == ids[i] && ids[i] != ids[|ids| - 1];
  }

  lemma AllKept(entries: map<string, CardEntry>, order: seq<CardEntry>, max: nat, e: CardEntry)
    requires Valid(Slots(entries, Refs(order)), max) && e.id !in entries
    ensures var all := entries[e.id := e];
      && Kept(all, [e] + order) == all && Distinct(Ids(Refs([e] + order)))
      && Refs([e] + order) == [Ref(e.id, e)] + Refs(order)
  {
    var ids := Ids(Refs(order));
    assert Ids(Refs([e] + order)) == [e.id] + ids;
    assert forall i | 0 <= i < |order| :: ids[i] == order[i].id && Refs(order)[i].id in entries;
  }

  class CardCache {
    const ttl: nat
    const maxEntries: nat
    var entries: map<string, CardEntry>
    var order: seq<CardEntry> // most recent first

    ghost function View(): Slots<CardEntry>
      reads this
    {
      Slots(entries, Refs(order))
    }

    constructor (ttl: nat, maxEntries: nat)
      ensures this.ttl == ttl && this.maxEntries == maxEntries && View() == Slots(map[], [])
    {
      this.ttl, this.maxEntries := ttl, maxEntries;
      entries, order := map[], [];
    }

    method IndexIn(id: string) returns (k: nat)
      ensures k == IndexOf(View().order, id)
    {
      k := 0;
      while k < |order| && order[k].id != id
        invariant k <= |order|
        invariant IndexOf(View().order, id) == k + IndexOf(View().order[k..], id)
      {
        assert View().order[k..][1..] == View().order[k + 1..];
        k := k + 1;
      }
    }

    /** One request for an ID: its entry, old or new, leads the list, and the list is cut back to its limit. */
    method Slot(id: string) returns (e: CardEntry)
      requires Valid(View(), maxEntries)
      modifies this
      ensures Valid(View(), maxEntries)
      ensures id in old(entries) ==> e == old(entries)[id]
      ensures id !in old(entries) ==> fresh(e) && e.id == id && e.card == "" && !e.locked
      ensures View() == Requested(old(View()), id, e, maxEntries)
    {
      hide Valid, Requested;
      ghost var was := View();
      if id in entries {
        e := entries[id];
        MoveToFront(id);
      } else {
        e := new CardEntry(id);
        Keep(e);
      }
      RequestedIsValid(was, id, e, maxEntries);
    }

    method MoveToFront(id: string)
      requires Valid(View(), maxEntries) && id in entries
      modifies this`order
      ensures View() == Requested(old(View()), id, entries[id], maxEntries)
    {
      ghost var was := View();
      HitAt(was, id, maxEntries);
      hide Valid;
      var k := IndexIn(id);
      RefsMoved(order, k);
      order := [order[k]] + order[..k] + order[k + 1..];
    }

    /** Pushes the new entry to the front and drops from the back, and from the map, whatever no longer fits. */
    method Keep(e: CardEntry)
      requires Valid(View(), maxEntries) && e.id !in entries
      modifies this
      ensures View() == Requested(old(View()), e.id, e, maxEntries)
    {
      AllKept(entries, order, maxEntries, e);
      ghost var pushed, all := [e] + order, entries[e.id := e];
      entries := entries[e.id := e];
      order := [e] + order;
      while |order| > maxEntries
        invariant |Take(maxEntries, pushed)| <= |order| <= |pushed| && order == pushed[..|order|]
        invariant entries == Kept(all, order) && Distinct(Ids(Refs(order)))
        decreases |order|
      {
        DropOldest(all, order);
        var oldest := order[|order| - 1];
        order := order[..|order| - 1];
        entries := entries - {oldest.id};
      }
      assert Refs(order) == Take(maxEntries, Refs(pushed));
    }

    /** What the entry holds at this time; a card that has run out is forgotten. */
    method Live(e: CardEntry, now: int) returns (card: string)
      modifies e`card
      ensures card == e.card == if old(e.card) != "" && now >= e.expires then "" else old(e.card)
    {
      if e.card != "" && now >= e.expires {
        e.card := "";
      }
      card := e.card;
    }

    /** One element of the list for each entry of the map. */
    method Len() returns (n: nat)
      requires Valid(View(), maxEntries)
      ensures n == |entries| <= maxEntries
    {
      n := |order|;
      ghost var ids := Ids(View().order);
      DistinctSize(ids);
      assert forall i | 0 <= i < |order| :: ids[i] == View().order[i].id && ids[i] in entries;
      assert entries.Keys == set id | id in ids;
    }
  }
}

/** Every caller of the cache, step by step; the mutex makes each slot and store one step. */
module CardProtocol {
  import opened RecencyList
  import Text

  function Lines(lines: seq<string>): string {
    if |lines| == 0 then "" else if |lines| == 1 then lines[0] else lines[0] + "\n" + Lines(lines[1..])
  }

  /** The card of a snapshot, given the lines of its inventory. */
  function RenderCard(lines: seq<string>): string {
    Text.TrimSpace(Lines(lines)) + "\n"
  }

  /** A cached entry; stored says which store its card is from. */
  datatype Entry = Entry(id: string, locked: bool, card: string, expires: int, stored: nat)

  datatype Source =
    | OwnRead
    | Cached(at: int, stored: nat) // checked at this time, against this store

  datatype Outcome = Card(card: string, source: Source) | FetchFailed | GaveUp | Latest

  datatype Pc =
    | Waiting                 // no live card; wants the entry's lock
    | Checking                // holds the lock, about to look again
    | Fetching                // holds the lock; the backend read runs
    | Fetched(card: string)   // holds the lock and a card to store
    | Releasing(out: Outcome) // holds the lock and its answer
    | Done(out: Outcome)

  datatype Caller = Caller(id: string, entry: nat, pc: Pc)

  /** A backend read of id that rendered to card. */
  datatype Read = Read(caller: nat, id: string, card: string)

  datatype Store = Store(read: Read, at: int)

  datatype World = World(
    slots: Slots<nat>,
    heap: map<nat, Entry>,
    callers: map<nat, Caller>,
    history: seq<string>,  // the IDs requested so far
    fetches: seq<Read>,
    stores: seq<Store>)

  datatype Config = Config(ttl: nat, maxEntries: nat)

  datatype Step =
    | Request(c: nat, id: string, made: nat, now: int)
    | TakeLock(c: nat)
    | GiveUp(c: nat)
    | Recheck(c: nat, now: int)
    | Fetch(c: nat, ok: bool, lines: seq<string>)
    | Put(c: nat, now: int)
    | Release(c: nat)

  function Live(e: Entry, now: int): Entry {
    if e.card != "" && now >= e.expires then e.(card := "") else e
  }

  /** Whether a caller at pc, with its entry's lock taken or not, may take this step. */
  predicate Allows(pc: Pc, locked: bool, st: Step) {
    match st
    case Request(_, _, _, _) => false
    case TakeLock(_) => pc.Waiting? && !locked
    case GiveUp(_) => pc.Waiting?
    case Recheck(_, _) => pc.Checking?
    case Fetch(_, _, _) => pc.Fetching?
    case Put(_, _) => pc.Fetched?
    case Release(_) => pc.Releasing?
  }

  predicate Enabled(w: World, st: Step) {
    if st.Request? then st.c !in w.callers && st.made !in w.heap
    else
      && st.c in w.callers && w.callers[st.c].entry in w.heap
      && Allows(w.callers[st.c].pc, w.heap[w.callers[st.c].entry].locked, st)
  }

  /** The entry object a request for id uses. */
  function EntryFor(w: World, id: string, made: nat): nat {
    if id in w.slots.entries then w.slots.entries[id] else made
  }

  function HeapWith(w: World, e: nat, id: string): map<nat, Entry> {
    if e in w.heap then w.heap else w.heap[e := Entry(id, false, "", 0, 0)]
  }

  function WithPc(w: World, c: nat, pc: Pc): map<nat, Caller>
    requires c in w.callers
  {
    w.callers[c := w.callers[c].(pc := pc)]
  }

  function Apply(cfg: Config, w: World, st: Step): World
    requires Enabled(w, st)
  {
    match st
    case Request(c, id, made, now) =>
      if id == "latest" then w.(callers := w.callers[c := Caller(id, made, Done(Latest))]) else
      var n := EntryFor(w, id, made);
      var heap := HeapWith(w, n, id);
      var e := Live(heap[n], now);
      w.(slots := Requested(w.slots, id, made, cfg.maxEntries), heap := heap[n := e], history := w.history + [id],
         callers := w.callers[c := Caller(id, n, if e.card == "" then Waiting
                                                 else Done(Card(e.card, Cached(now, e.stored))))])
    case TakeLock(c) =>
      var n := w.callers[c].entry;
      w.(heap := w.heap[n := w.heap[n].(locked := true)], callers := WithPc(w, c, Checking))
    case GiveUp(c) =>
      w.(callers := WithPc(w, c, Done(GaveUp)))
    case Recheck(c, now) =>
      var n := w.callers[c].entry;
      var e := Live(w.heap[n], now);
      w.(heap := w.heap[n := e],
         callers := WithPc(w, c, if e.card != "" then Releasing(Card(e.card, Cached(now, e.stored))) else Fetching))
    case Fetch(c, ok, lines) =>
      if !ok then w.(callers := WithPc(w, c, Releasing(FetchFailed))) else
      var card := RenderCard(lines);
      w.(fetches := w.fetches + [Read(c, w.callers[c].id, card)], callers := WithPc(w, c, Fetched(card)))
    case Put(c, now) =>
      var n, card := w.callers[c].entry, w.callers[c].pc.card;
      w.(heap := w.heap[n := w.heap[n].(card := card, expires := now + cfg.ttl, stored := |w.stores|)],
         stores := w.stores + [Store(Read(c, w.callers[c].id, card), now)],
         callers := WithPc(w, c, Releasing(Card(card, OwnRead))))
    case Release(c) =>
      var n := w.callers[c].entry;
      w.(heap := w.heap[n := w.heap[n].(locked := false)], callers := WithPc(w, c, Done(w.callers[c].pc.out)))
  }

  const START := World(Slots(map[], []), map[], map[], [], [], [])

  // ---- the invariant ----

  /** The list is the most recently requested distinct IDs that fit, in bijection with the map. */
  ghost predicate Ordered(cfg: Config, w: World) {
    && Valid(w.slots, cfg.maxEntries)
    && Ids(w.slots.order) == Take(cfg.maxEntries, Recent(w.history))
    && (forall id | id in w.slots.entries :: w.slots.entries[id] in w.heap && w.heap[w.slots.entries[id]].id == id)
  }

  predicate HoldsLock(pc: Pc) {
    pc.Checking? || pc.Fetching? || pc.Fetched? || pc.Releasing?
  }

  predicate InFlight(pc: Pc) {
    pc.Waiting? || HoldsLock(pc)
  }

  predicate Holder(w: World, c: nat, n: nat) {
    c in w.callers && HoldsLock(w.callers[c].pc) && w.callers[c].entry == n
  }

  /** An entry object's lock is held exactly while one caller holds it, in the map or not. */
  ghost predicate OneAtATime(w: World) {
    && (forall c | c in w.callers && InFlight(w.callers[c].pc) ::
          w.callers[c].entry in w.heap && w.heap[w.callers[c].entry].id == w.callers[c].id)
    && (forall a, b, n | Holder(w, a, n) && Holder(w, b, n) :: a == b)
    && (forall c, n | Holder(w, c, n) :: n in w.heap && w.heap[n].locked)
    && (forall n | n in w.heap && w.heap[n].locked :: exists c :: Holder(w, c, n))
  }

  /** A card came from a store of the same ID's read. */
  ghost predicate FromStore(cfg: Config, w: World, id: string, card: string, k: nat) {
    k < |w.stores| && w.stores[k].read.id == id && w.stores[k].read.card == card && card != ""
  }

  ghost predicate Justified(cfg: Config, w: World, c: nat, id: string, out: Outcome) {
    out.Card? ==>
      match out.source
      case OwnRead => Read(c, id, out.card) in w.fetches && out.card != ""
      case Cached(at, k) => FromStore(cfg, w, id, out.card, k) && at < w.stores[k].at + cfg.ttl
  }

  ghost predicate Traced(cfg: Config, w: World) {
    && (forall s | s in w.stores :: s.read in w.fetches)
    && (forall n | n in w.heap && w.heap[n].card != "" ::
          FromStore(cfg, w, w.heap[n].id, w.heap[n].card, w.heap[n].stored)
          && w.heap[n].expires == w.stores[w.heap[n].stored].at + cfg.ttl)
    && (forall c | c in w.callers :: Backed(cfg, w, c))
  }

  ghost predicate Backed(cfg: Config, w: World, c: nat)
    requires c in w.callers
  {
    var caller := w.callers[c];
    && (caller.pc.Fetched? ==> Read(c, caller.id, caller.pc.card) in w.fetches && caller.pc.card != "")
    && (caller.pc.Releasing? || caller.pc.Done? ==> Justified(cfg, w, c, caller.id, caller.pc.out))
  }

  ghost predicate Inv(cfg: Config, w: World) {
    Ordered(cfg, w) && OneAtATime(w) && Traced(cfg, w)
  }

  /** Rendering never comes out empty, which is what lets "" stand for no card. */
  lemma CardIsNeverEmpty(lines: seq<string>)
    ensures RenderCard(lines) != ""
  {
  }

  lemma {:induction false} LinesApart(a: seq<string>, b: seq<string>)
    requires a != [] && b != [] && Lines(a) == Lines(b)
    requires (forall l | l in a :: '\n' !in l) && forall l | l in b :: '\n' !in l
    ensures a == b
  {
    LinesStart(a);
    LinesStart(b);
    assert a[0] in a && b[0] in b;
    if |a| > 1 && |b| > 1 {
      Text.SeparatorSplits('\n', a[0], Lines(a[1..]), b[0], Lines(b[1..]));
      LinesApart(a[1..], b[1..]);
      assert a == [a[0]] + a[1..] && b == [b[0]] + b[1..];
    }
  }

  lemma LinesStart(a: seq<string>)
    requires a != []
    ensures |a| == 1 ==> Lines(a) == a[0]
    ensures |a| > 1 ==> Lines(a) == a[0] + ['\n'] + Lines(a[1..]) && '\n' in Lines(a)
  {
    if |a| > 1 {
      assert Lines(a)[|a[0]|] == '\n';
    }
  }

  /** Nothing of an inventory is lost in its card: one whose text neither starts nor ends with white space is
      rendered as it is, line by line, so different inventories give different cards. */
  lemma CardKeepsLines(a: seq<string>, b: seq<string>)
    requires a != [] && b != [] && Text.Trimmed(Lines(a)) && Text.Trimmed(Lines(b))
    requires (forall l | l in a :: '\n' !in l) && forall l | l in b :: '\n' !in l
    ensures RenderCard(a) == Lines(a) + "\n"
    ensures RenderCard(a) == RenderCard(b) <==> a == b
  {
    hide Text.Trimmed, Text.TrimSpace;
    Text.TrimmedIsFixed(Lines(a));
    Text.TrimmedIsFixed(Lines(b));
    if RenderCard(a) == RenderCard(b) {
      var card := RenderCard(a);
      assert card[..|card| - 1] == Lines(a) && card[..|card| - 1] == Lines(b);
      LinesApart(a, b);
    }
  }

  lemma OrderedStep(cfg: Config, w: World, st: Step)
    requires Ordered(cfg, w) && Enabled(w, st)
    ensures Ordered(cfg, Apply(cfg, w, st))
  {
    hide Ids, Recent, RenderCard;
    if st.Request? && st.id != "latest" {
      RequestedIsValid(w.slots, st.id, st.made, cfg.maxEntries);
      RequestRefinesRecent(w.slots, w.history, st.id, st.made, cfg.maxEntries);
      hide Valid;
    } else {
      hide Valid, Requested;
    }
  }

  /** A step changes no entry's ID, and no lock but its own caller's. */
  lemma HeapStep(cfg: Config, w: World, st: Step, n: nat)
    requires Enabled(w, st) && n in w.heap
    ensures var w' := Apply(cfg, w, st);
      && n in w'.heap && w'.heap[n].id == w.heap[n].id
      && (w'.heap[n].locked <==>
            if st.TakeLock? && n == w.callers[st.c].entry then true
            else if st.Release? && n == w.callers[st.c].entry then false
            else w.heap[n].locked)
  {
    hide RenderCard, Requested;
  }

  lemma EntryStep(cfg: Config, w: World, st: Step, c: nat)
    requires Ordered(cfg, w) && OneAtATime(w) && Enabled(w, st)
    requires c in Apply(cfg, w, st).callers && InFlight(Apply(cfg, w, st).callers[c].pc)
    ensures var w' := Apply(cfg, w, st);
      w'.callers[c].entry in w'.heap && w'.heap[w'.callers[c].entry].id == w'.callers[c].id
  {
    hide RenderCard, Requested, Valid, Ids, Recent;
    if c in w.callers {
      HeapStep(cfg, w, st, w.callers[c].entry);
    }
  }

  /** Who holds a lock after a step held it before, or has just taken it free. */
  lemma HolderStep(cfg: Config, w: World, st: Step, c: nat, n: nat)
    requires Enabled(w, st)
    ensures Holder(Apply(cfg, w, st), c, n) <==>
      if st.TakeLock? && c == st.c then n == w.callers[c].entry
      else Holder(w, c, n) && !(st.Release? && c == st.c)
  {
    hide RenderCard, Requested, Live;
  }

  lemma OneAtATimeStep(cfg: Config, w: World, st: Step)
    requires Ordered(cfg, w) && OneAtATime(w) && Enabled(w, st)
    ensures OneAtATime(Apply(cfg, w, st))
  {
    hide Apply, Ordered;
    var w' := Apply(cfg, w, st);
    forall c | c in w'.callers && InFlight(w'.callers[c].pc)
      ensures w'.callers[c].entry in w'.heap && w'.heap[w'.callers[c].entry].id == w'.callers[c].id
    {
      EntryStep(cfg, w, st, c);
    }
    forall a, b, n | Holder(w', a, n) && Holder(w', b, n)
      ensures a == b
    {
      HolderStep(cfg, w, st, a, n);
      HolderStep(cfg, w, st, b, n);
    }
    forall c, n | Holder(w', c, n)
      ensures n in w'.heap && w'.heap[n].locked
    {
      HolderStep(cfg, w, st, c, n);
      assert st.Release? ==> Holder(w, st.c, w.callers[st.c].entry);
      HeapStep(cfg, w, st, n);
    }
    forall n | n in w'.heap && w'.heap[n].locked
      ensures exists c :: Holder(w', c, n)
    {
      LockedHasHolder(cfg, w, st, n);
    }
  }

  lemma LockedHasHolder(cfg: Config, w: World, st: Step, n: nat)
    requires OneAtATime(w) && Enabled(w, st) && n in Apply(cfg, w, st).heap && Apply(cfg, w, st).heap[n].locked
    ensures exists c :: Holder(Apply(cfg, w, st), c, n)
  {
    NewEntriesAreFree(cfg, w, st, n);
    HeapStep(cfg, w, st, n);
    hide Apply;
    if st.TakeLock? && w.callers[st.c].entry == n {
      HolderStep(cfg, w, st, st.c, n);
    } else {
      var c :| Holder(w, c, n);
      HolderStep(cfg, w, st, c, n);
    }
  }

  lemma NewEntriesAreFree(cfg: Config, w: World, st: Step, n: nat)
    requires Enabled(w, st) && n in Apply(cfg, w, st).heap && Apply(cfg, w, st).heap[n].locked
    ensures n in w.heap
  {
    hide RenderCard, Requested;
  }

  // ---- where cards come from ----

  lemma StoresGrow(cfg: Config, w: World, st: Step)
    requires Enabled(w, st)
    ensures w.fetches <= Apply(cfg, w, st).fetches && w.stores <= Apply(cfg, w, st).stores
  {
    hide RenderCard, Requested, Live;
  }

  lemma StoresStep(cfg: Config, w: World, st: Step)
    requires Traced(cfg, w) && Enabled(w, st)
    ensures forall s | s in Apply(cfg, w, st).stores :: s.read in Apply(cfg, w, st).fetches
  {
    hide RenderCard, Requested, Live;
    if st.Put? {
      assert Backed(cfg, w, st.c);
    }
  }

  lemma EntriesTraced(cfg: Config, w: World, st: Step, n: nat)
    requires Traced(cfg, w) && OneAtATime(w) && Enabled(w, st)
    requires n in Apply(cfg, w, st).heap && Apply(cfg, w, st).heap[n].card != ""
    ensures var w' := Apply(cfg, w, st);
      && FromStore(cfg, w', w'.heap[n].id, w'.heap[n].card, w'.heap[n].stored)
      && w'.heap[n].expires == w'.stores[w'.heap[n].stored].at + cfg.ttl
  {
    hide RenderCard, Requested;
    if st.Put? {
      assert Backed(cfg, w, st.c);
    }
  }

  lemma BackedOther(cfg: Config, w: World, st: Step, c: nat)
    requires Traced(cfg, w) && Enabled(w, st) && c in w.callers && c != st.c
    ensures Backed(cfg, Apply(cfg, w, st), c)
  {
    hide RenderCard, Requested, Live;
    StoresGrow(cfg, w, st);
    assert Backed(cfg, w, c);
  }

  lemma BackedOwn(cfg: Config, w: World, st: Step)
    requires Traced(cfg, w) && OneAtATime(w) && Ordered(cfg, w) && Enabled(w, st)
    ensures Backed(cfg, Apply(cfg, w, st), st.c)
  {
    hide Requested, Valid, Ids, Recent;
    if st.Fetch? {
      CardIsNeverEmpty(st.lines);
    }
    hide RenderCard;
    if !st.Request? {
      assert Backed(cfg, w, st.c);
    }
  }

  lemma TracedStep(cfg: Config, w: World, st: Step)
    requires Inv(cfg, w) && Enabled(w, st)
    ensures Traced(cfg, Apply(cfg, w, st))
  {
    hide Ordered, OneAtATime, Backed, RenderCard, Requested, Live;
    var w' := Apply(cfg, w, st);
    StoresStep(cfg, w, st);
    forall n | n in w'.heap && w'.heap[n].card != ""
      ensures FromStore(cfg, w', w'.heap[n].id, w'.heap[n].card, w'.heap[n].stored)
      ensures w'.heap[n].stored < |w'.stores| && w'.heap[n].expires == w'.stores[w'.heap[n].stored].at + cfg.ttl
    {
      EntriesTraced(cfg, w, st, n);
    }
    forall c | c in w'.callers
      ensures Backed(cfg, w', c)
    {
      if c == st.c {
        BackedOwn(cfg, w, st);
      } else {
        BackedOther(cfg, w, st, c);
      }
    }
  }

  /** Every step of every caller keeps the invariant. */
  lemma InvStep(cfg: Config, w: World, st: Step)
    requires Inv(cfg, w) && Enabled(w, st)
    ensures Inv(cfg, Apply(cfg, w, st))
  {
    hide Apply, Ordered, OneAtATime, Traced;
    OrderedStep(cfg, w, st);
    OneAtATimeStep(cfg, w, st);
    TracedStep(cfg, w, st);
  }

  /** Any run of the cache, however its callers interleave and whatever the clock shows. */
  ghost predicate Run(cfg: Config, ws: seq<World>, steps: seq<Step>) {
    && |ws| == |steps| + 1 && ws[0] == START
    && (forall i | 0 <= i < |steps| :: Enabled(ws[i], steps[i]) && Apply(cfg, ws[i], steps[i]) == ws[i + 1])
  }

  lemma {:induction false} RunHolds(cfg: Config, ws: seq<World>, steps: seq<Step>, n: nat)
    requires Run(cfg, ws, steps) && n < |ws|
    ensures Inv(cfg, ws[n])
  {
    hide Apply;
    if n > 0 {
      RunHolds(cfg, ws, steps, n - 1);
      InvStep(cfg, ws[n - 1], steps[n - 1]);
    }
  }

  /** The list is exactly the most recently requested distinct IDs that fit, in order of recency. */
  lemma CacheRefinesRecency(cfg: Config, ws: seq<World>, steps: seq<Step>, n: nat)
    requires Run(cfg, ws, steps) && n < |ws|
    ensures Ids(ws[n].slots.order) == Take(cfg.maxEntries, Recent(ws[n].history))
    ensures Valid(ws[n].slots, cfg.maxEntries)
  {
    hide Apply;
    RunHolds(cfg, ws, steps, n);
  }

  /** At most one fetch runs per entry object, even one the list has dropped meanwhile. */
  lemma SingleFlight(cfg: Config, ws: seq<World>, steps: seq<Step>, n: nat, a: nat, b: nat)
    requires Run(cfg, ws, steps) && n < |ws|
    requires a in ws[n].callers && b in ws[n].callers && ws[n].callers[a].entry == ws[n].callers[b].entry
    requires ws[n].callers[a].pc.Fetching? || ws[n].callers[a].pc.Fetched?
    requires ws[n].callers[b].pc.Fetching? || ws[n].callers[b].pc.Fetched?
    ensures a == b
  {
    hide Apply;
    RunHolds(cfg, ws, steps, n);
    assert Holder(ws[n], a, ws[n].callers[a].entry) && Holder(ws[n], b, ws[n].callers[a].entry);
  }

  /** A card returned is never empty and was rendered from a backend read of the very ID asked for: a read this call
      made, or one whose card was still unexpired when this call looked. */
  lemma CardsAreFresh(cfg: Config, ws: seq<World>, steps: seq<Step>, n: nat, c: nat)
    requires Run(cfg, ws, steps) && n < |ws|
    requires c in ws[n].callers && ws[n].callers[c].pc.Done? && ws[n].callers[c].pc.out.Card?
    ensures var w, caller := ws[n], ws[n].callers[c];
      var out := caller.pc.out;
      && out.card != ""
      && exists r :: r in w.fetches && r.id == caller.id && r.card == out.card
          && (out.source.OwnRead? ==> r.caller == c)
          && (out.source.Cached? ==> exists s :: s in w.stores && s.read == r && out.source.at < s.at + cfg.ttl)
  {
    hide Apply;
    RunHolds(cfg, ws, steps, n);
    var w, caller := ws[n], ws[n].callers[c];
    assert Backed(cfg, w, c);
    var out := caller.pc.out;
    if out.source.OwnRead? {
      assert Read(c, caller.id, out.card) in w.fetches;
    } else {
      var s := w.stores[out.source.stored];
      assert s in w.stores && s.read in w.fetches;
    }
  }
}
