/** Going through two keyed collections side by side, in key order, and reporting what differs. */
module Walking {
  import opened Options
  import opened Text
  import opened Sorting
  import opened PairTotals
  import PairKeys

  datatype Change = Added | Removed | Changed
  datatype Counts = Counts(added: nat, removed: nat, changed: nat)

  /** One key's item on each side. */
  datatype Sides<T> = OnlyFrom(a: T) | OnlyTo(b: T) | Both(a: T, b: T)

  function At<T>(from: map<string, T>, to: map<string, T>, k: string): Sides<T>
    requires k in from.Keys + to.Keys
  {
    if k !in to then OnlyFrom(from[k]) else if k !in from then OnlyTo(to[k]) else Both(from[k], to[k])
  }

  function KindOf<T>(s: Sides<T>): Change {
    match s
    case OnlyFrom(_) => Removed
    case OnlyTo(_) => Added
    case Both(_, _) => Changed
  }

  /** Both sides say the same. */
  predicate Alike<T, K(==)>(s: Sides<T>, facts: T -> K) {
    s.Both? && facts(s.a) == facts(s.b)
  }

  function Bump(c: Counts, kind: Change): Counts {
    match kind
    case Added => c.(added := c.added + 1)
    case Removed => c.(removed := c.removed + 1)
    case Changed => c.(changed := c.changed + 1)
  }

  function Reverse(c: Change): Change {
    match c
    case Added => Removed
    case Removed => Added
    case Changed => Changed
  }

  function CountsReversed(c: Counts): Counts {
    Counts(c.removed, c.added, c.changed)
  }

  // ---- key order ----

  ghost predicate IsLeast(k: string, keys: set<string>) {
    k in keys && forall x | x in keys :: x == k || Less(k, x)
  }

  /** sort.Strings on distinct keys. */
  method SortedKeys(keys: set<string>) returns (out: seq<string>)
    ensures InOrderOf(out, keys) && |out| == |keys|
  {
    out := [];
    var left := keys;
    while left != {}
      invariant left <= keys && forall k :: k in out <==> k in keys - left
      invariant Ascending(out) && |out| + |left| == |keys|
      invariant forall i, k | 0 <= i < |out| && k in left :: Less(out[i], k)
      decreases left
    {
      var k := PickLeast(left);
      out, left := out + [k], left - {k};
    }
  }

  /** The least of some keys. */
  method PickLeast(keys: set<string>) returns (k: string)
    requires keys != {}
    ensures IsLeast(k, keys)
  {
    k :| k in keys;
    var left := keys - {k};
    while left != {}
      invariant left <= keys && k in keys && k !in left
      invariant forall x | x in keys - left :: x == k || Less(k, x)
      decreases left
    {
      var m :| m in left;
      LessTrichotomy(k, m);
      if Less(m, k) {
        forall x | x in keys - left && x != k
          ensures Less(m, x)
        {
          LessTransitive(m, k, x);
        }
        k := m;
      }
      left := left - {m};
    }
  }

  // ---- the report ----

  ghost predicate Orders(keys: seq<string>, those: set<string>) {
    Ascending(keys) && forall k :: k in keys <==> k in those
  }

  lemma OrdersMore(keys: seq<string>, those: set<string>, k: string)
    requires Orders(keys, those) && forall x | x in those :: Less(x, k)
    ensures Orders(keys + [k], those + {k})
  {
    hide Less;
  }

  predicate TellsAt<T, D>(from: map<string, T>, to: map<string, T>, told: (Sides<T>, D) -> bool, k: string, d: D) {
    k in from.Keys + to.Keys && told(At(from, to, k), d)
  }

  /** Each key told once, in turn. */
  ghost predicate Details<T, D>(from: map<string, T>, to: map<string, T>, told: (Sides<T>, D) -> bool,
                                keys: seq<string>, out: seq<D>) {
    |out| == |keys| && forall i | 0 <= i < |keys| :: TellsAt(from, to, told, keys[i], out[i])
  }

  /** What a walk reports: the keys that differ in ascending order, each told once, and how many of each kind. */
  ghost predicate Report<T, D, K>(from: map<string, T>, to: map<string, T>, facts: T -> K,
                                  told: (Sides<T>, D) -> bool, keys: seq<string>, out: seq<D>, counts: Counts) {
    && Orders(keys, Told(from, to, facts, true)) && Details(from, to, told, keys, out)
    && counts == Counts(|to.Keys - from.Keys|, |from.Keys - to.Keys|, |Told(from, to, facts, false)|)
  }

  /** The walk so far, over the keys already seen. */
  ghost predicate Partly<T, D, K>(from: map<string, T>, to: map<string, T>, facts: T -> K, told: (Sides<T>, D) -> bool,
                                  seen: set<string>, keys: seq<string>, out: seq<D>, counts: Counts) {
    && Orders(keys, Told(from, to, facts, true) * seen) && Details(from, to, told, keys, out)
    && Tallied(counts, to.Keys - from.Keys, from.Keys - to.Keys, Told(from, to, facts, false), seen)
  }

  ghost predicate Tallied(counts: Counts, added: set<string>, removed: set<string>, changed: set<string>,
                          seen: set<string>) {
    counts == Counts(|added * seen|, |removed * seen|, |changed * seen|)
  }

  lemma TallyMore(counts: Counts, added: set<string>, removed: set<string>, changed: set<string>, seen: set<string>,
                  k: string)
    requires Tallied(counts, added, removed, changed, seen) && k !in seen && added !! removed
    requires !(k in changed && k in added + removed)
    ensures k in added ==> Tallied(Bump(counts, Added), added, removed, changed, seen + {k})
    ensures k in removed ==> Tallied(Bump(counts, Removed), added, removed, changed, seen + {k})
    ensures k in changed ==> Tallied(Bump(counts, Changed), added, removed, changed, seen + {k})
    ensures k !in added + removed + changed ==> Tallied(counts, added, removed, changed, seen + {k})
  {
    OneMore(added, seen, k);
    OneMore(removed, seen, k);
    OneMore(changed, seen, k);
  }

  lemma OneMore(x: set<string>, seen: set<string>, k: string)
    requires k !in seen
    ensures x * (seen + {k}) == if k in x then x * seen + {k} else x * seen
    ensures |x * (seen + {k})| == |x * seen| + if k in x then 1 else 0
  {
    assert x * (seen + {k}) == if k in x then x * seen + {k} else x * seen;
  }

  lemma ToldHere<T, K>(from: map<string, T>, to: map<string, T>, facts: T -> K, k: string)
    requires k in from.Keys + to.Keys
    ensures k in Told(from, to, facts, true) <==> !Alike(At(from, to, k), facts)
    ensures k in Told(from, to, facts, false) <==> At(from, to, k).Both? && !Alike(At(from, to, k), facts)
    ensures k in to.Keys - from.Keys <==> At(from, to, k).OnlyTo?
    ensures k in from.Keys - to.Keys <==> At(from, to, k).OnlyFrom?
  {
  }

  lemma SilentAt<T, D, K>(from: map<string, T>, to: map<string, T>, facts: T -> K, told: (Sides<T>, D) -> bool,
                          seen: set<string>, keys: seq<string>, out: seq<D>, counts: Counts, k: string)
    requires Partly(from, to, facts, told, seen, keys, out, counts)
    requires k in from.Keys + to.Keys && k !in seen && Alike(At(from, to, k), facts)
    ensures Partly(from, to, facts, told, seen + {k}, keys, out, counts)
  {
    ToldHere(from, to, facts, k);
    hide Less, Told, At, Tallied, Orders, Details;
    TallyMore(counts, to.Keys - from.Keys, from.Keys - to.Keys, Told(from, to, facts, false), seen, k);
    OneMore(Told(from, to, facts, true), seen, k);
  }

  lemma ToldAtKey<T, D, K>(from: map<string, T>, to: map<string, T>, facts: T -> K, told: (Sides<T>, D) -> bool,
                           seen: set<string>, keys: seq<string>, out: seq<D>, counts: Counts, k: string, d: D)
    requires Partly(from, to, facts, told, seen, keys, out, counts)
    requires k in from.Keys + to.Keys && k !in seen && forall x | x in seen :: Less(x, k)
    requires !Alike(At(from, to, k), facts) && told(At(from, to, k), d)
    ensures Partly(from, to, facts, told, seen + {k}, keys + [k], out + [d], Bump(counts, KindOf(At(from, to, k))))
  {
    ToldHere(from, to, facts, k);
    DetailsMore(from, to, told, keys, out, k, d);
    var side := At(from, to, k);
    hide Less, Told, At, Tallied, Orders, Details, Alike;
    TallyMore(counts, to.Keys - from.Keys, from.Keys - to.Keys, Told(from, to, facts, false), seen, k);
    OneMore(Told(from, to, facts, true), seen, k);
    OrdersMore(keys, Told(from, to, facts, true) * seen, k);
  }

  lemma DetailsMore<T, D>(from: map<string, T>, to: map<string, T>, told: (Sides<T>, D) -> bool,
                          keys: seq<string>, out: seq<D>, k: string, d: D)
    requires Details(from, to, told, keys, out) && TellsAt(from, to, told, k, d)
    ensures Details(from, to, told, keys + [k], out + [d])
  {
    hide TellsAt;
  }

  lemma PartlyAll<T, D, K>(from: map<string, T>, to: map<string, T>, facts: T -> K, told: (Sides<T>, D) -> bool,
                           seen: set<string>, keys: seq<string>, out: seq<D>, counts: Counts)
    requires Partly(from, to, facts, told, seen, keys, out, counts) && seen == from.Keys + to.Keys
    ensures Report(from, to, facts, told, keys, out, counts)
  {
    ToldMirrored(from, to, facts);
    hide Orders, Details, Told;
    AllOf(to.Keys - from.Keys, seen);
    AllOf(from.Keys - to.Keys, seen);
    AllOf(Told(from, to, facts, false), seen);
    AllOf(Told(from, to, facts, true), seen);
  }

  lemma AllOf(x: set<string>, seen: set<string>)
    requires x <= seen
    ensures x * seen == x
  {
  }

  lemma NothingYet<T, D, K>(from: map<string, T>, to: map<string, T>, facts: T -> K, told: (Sides<T>, D) -> bool)
    ensures Partly(from, to, facts, told, {}, [], [], Counts(0, 0, 0))
  {
    assert Told(from, to, facts, true) * {} == {} && Told(from, to, facts, false) * {} == {};
    assert (to.Keys - from.Keys) * {} == {} && (from.Keys - to.Keys) * {} == {};
  }

  /** The telling is silent exactly on a pair that says the same, and otherwise says what it should. */
  ghost predicate Tells<T(!new), D, K>(tell: Sides<T> -> Option<D>, facts: T -> K, told: (Sides<T>, D) -> bool) {
    forall s :: if Alike(s, facts) then tell(s) == None else tell(s).Some? && told(s, tell(s).value)
  }

  lemma TellsSide<T(!new), D, K>(tell: Sides<T> -> Option<D>, facts: T -> K, told: (Sides<T>, D) -> bool, s: Sides<T>)
    requires Tells(tell, facts, told)
    ensures if Alike(s, facts) then tell(s) == None else tell(s).Some? && told(s, tell(s).value)
  {
  }

  /** Tells every key of either side, in byte order, that is on one side only or differs between them. */
  method Walk<T(!new), D, K>(from: map<string, T>, to: map<string, T>, ghost facts: T -> K,
                             tell: Sides<T> -> Option<D>, ghost told: (Sides<T>, D) -> bool)
    returns (out: seq<D>, counts: Counts, keys: seq<string>)
    requires Tells(tell, facts, told)
    ensures Report(from, to, facts, told, keys, out, counts)
  {
    hide *;
    out, counts, keys := [], Counts(0, 0, 0), [];
    var order := SortedKeys(from.Keys + to.Keys);
    NothingSeen(from, to, facts, told, order);
    for n := 0 to |order|
      invariant PartlyTo(from, to, facts, told, order, n, keys, out, counts)
    {
      out, counts, keys := TellNext(from, to, facts, tell, told, order, n, keys, out, counts);
    }
    AllSeen(from, to, facts, told, order, keys, out, counts);
  }

  /** Tells one key. */
  method TellNext<T(!new), D, K>(from: map<string, T>, to: map<string, T>, ghost facts: T -> K,
                                 tell: Sides<T> -> Option<D>, ghost told: (Sides<T>, D) -> bool,
                                 order: seq<string>, n: nat, keys0: seq<string>, out0: seq<D>, counts0: Counts)
    returns (out: seq<D>, counts: Counts, keys: seq<string>)
    requires Tells(tell, facts, told) && n < |order| && InOrderOf(order, from.Keys + to.Keys)
    requires PartlyTo(from, to, facts, told, order, n, keys0, out0, counts0)
    ensures PartlyTo(from, to, facts, told, order, n + 1, keys, out, counts)
  {
    hide Tells, Partly, Seen, At, Alike, Ascending;
    var side := At(from, to, order[n]);
    var d := tell(side);
    TellsSide(tell, facts, told, side);
    Next(from, to, facts, told, order, n, keys0, out0, counts0, d);
    out, counts, keys := Also(out0, d), Counted(counts0, side, d), AlsoKey(keys0, order[n], d);
  }

  /** All of some keys, ascending. */
  ghost predicate InOrderOf(order: seq<string>, keys: set<string>) {
    Ascending(order) && forall k :: k in order <==> k in keys
  }

  ghost predicate PartlyTo<T, D, K>(from: map<string, T>, to: map<string, T>, facts: T -> K,
                                    told: (Sides<T>, D) -> bool, order: seq<string>, n: nat,
                                    keys: seq<string>, out: seq<D>, counts: Counts) {
    n <= |order| && Partly(from, to, facts, told, Seen(order, n), keys, out, counts)
  }

  lemma NothingSeen<T, D, K>(from: map<string, T>, to: map<string, T>, facts: T -> K, told: (Sides<T>, D) -> bool,
                             order: seq<string>)
    ensures PartlyTo(from, to, facts, told, order, 0, [], [], Counts(0, 0, 0))
  {
    hide Partly, Seen;
    NothingYet(from, to, facts, told);
    SeenNothing(order);
  }

  lemma AllSeen<T, D, K>(from: map<string, T>, to: map<string, T>, facts: T -> K, told: (Sides<T>, D) -> bool,
                         order: seq<string>, keys: seq<string>, out: seq<D>, counts: Counts)
    requires InOrderOf(order, from.Keys + to.Keys) && PartlyTo(from, to, facts, told, order, |order|, keys, out, counts)
    ensures Report(from, to, facts, told, keys, out, counts)
  {
    hide Partly, Seen, Report, Ascending;
    SeenAll(order, from.Keys + to.Keys);
    PartlyAll(from, to, facts, told, Seen(order, |order|), keys, out, counts);
  }

  function Seen(order: seq<string>, n: nat): set<string>
    requires n <= |order|
  {
    set k | k in order[..n]
  }

  lemma SeenNothing(order: seq<string>)
    ensures Seen(order, 0) == {}
  {
  }

  lemma SeenGrows(order: seq<string>, n: nat)
    requires Ascending(order) && n < |order|
    ensures Seen(order, n + 1) == Seen(order, n) + {order[n]} && order[n] !in Seen(order, n)
    ensures forall k | k in Seen(order, n) :: Less(k, order[n])
  {
    assert order[..n + 1] == order[..n] + [order[n]];
    LessTrichotomy(order[n], order[n]);
  }

  lemma SilentNext<T, D, K>(from: map<string, T>, to: map<string, T>, facts: T -> K, told: (Sides<T>, D) -> bool,
                            order: seq<string>, n: nat, keys: seq<string>, out: seq<D>, counts: Counts)
    requires n < |order| && Ascending(order) && order[n] in from.Keys + to.Keys && Alike(At(from, to, order[n]), facts)
    requires Partly(from, to, facts, told, Seen(order, n), keys, out, counts)
    ensures Partly(from, to, facts, told, Seen(order, n + 1), keys, out, counts)
  {
    hide *;
    SeenGrows(order, n);
    SilentAt(from, to, facts, told, Seen(order, n), keys, out, counts, order[n]);
  }

  lemma ToldNext<T, D, K>(from: map<string, T>, to: map<string, T>, facts: T -> K, told: (Sides<T>, D) -> bool,
                          order: seq<string>, n: nat, keys: seq<string>, out: seq<D>, counts: Counts, d: D)
    requires n < |order| && Ascending(order) && order[n] in from.Keys + to.Keys && !Alike(At(from, to, order[n]), facts)
    requires told(At(from, to, order[n]), d) && Partly(from, to, facts, told, Seen(order, n), keys, out, counts)
    ensures Partly(from, to, facts, told, Seen(order, n + 1), keys + [order[n]], out + [d],
                   Bump(counts, KindOf(At(from, to, order[n]))))
  {
    hide *;
    SeenGrows(order, n);
    ToldAtKey(from, to, facts, told, Seen(order, n), keys, out, counts, order[n], d);
  }

  function Also<D>(out: seq<D>, d: Option<D>): seq<D> {
    if d.Some? then out + [d.value] else out
  }

  function AlsoKey<D>(keys: seq<string>, k: string, d: Option<D>): seq<string> {
    if d.Some? then keys + [k] else keys
  }

  function Counted<T, D>(counts: Counts, side: Sides<T>, d: Option<D>): Counts {
    if d.Some? then Bump(counts, KindOf(side)) else counts
  }

  /** One key on: what is told of it, if anything, is listed and counted. */
  lemma Next<T, D, K>(from: map<string, T>, to: map<string, T>, facts: T -> K, told: (Sides<T>, D) -> bool,
                      order: seq<string>, n: nat, keys: seq<string>, out: seq<D>, counts: Counts, d: Option<D>)
    requires n < |order| && Ascending(order) && order[n] in from.Keys + to.Keys
    requires Partly(from, to, facts, told, Seen(order, n), keys, out, counts)
    requires var side := At(from, to, order[n]);
      if Alike(side, facts) then d == None else d.Some? && told(side, d.value)
    ensures Partly(from, to, facts, told, Seen(order, n + 1), AlsoKey(keys, order[n], d), Also(out, d),
                   Counted(counts, At(from, to, order[n]), d))
  {
    hide Partly, Seen, At, Alike, Ascending, Less, Bump, KindOf;
    if d == None {
      SilentNext(from, to, facts, told, order, n, keys, out, counts);
    } else {
      ToldNext(from, to, facts, told, order, n, keys, out, counts, d.value);
    }
  }

  lemma SeenAll(order: seq<string>, keys: set<string>)
    requires forall k :: k in order <==> k in keys
    ensures Seen(order, |order|) == keys
  {
    assert order[..|order|] == order;
  }

  // ---- what any report keeps ----

  function Of<D>(out: seq<D>, kind: D -> Change, c: Change): nat {
    if out == [] then 0 else
      var n := |out| - 1;
      Of(out[..n], kind, c) + if kind(out[n]) == c then 1 else 0
  }

  function Listed<D>(out: seq<D>, kind: D -> Change): Counts {
    Counts(Of(out, kind, Added), Of(out, kind, Removed), Of(out, kind, Changed))
  }

  function Kept<T>(from: map<string, T>, to: map<string, T>, keys: seq<string>, c: Change): set<string> {
    set k | k in keys && HasKind(from, to, k, c)
  }

  predicate HasKind<T>(from: map<string, T>, to: map<string, T>, k: string, c: Change) {
    k in from.Keys + to.Keys && KindOf(At(from, to, k)) == c
  }

  ghost predicate Marks<T(!new), D(!new)>(told: (Sides<T>, D) -> bool, kind: D -> Change) {
    forall s, d | told(s, d) :: kind(d) == KindOf(s)
  }

  lemma {:induction false} OfIsKept<T(!new), D(!new)>(from: map<string, T>, to: map<string, T>,
                                                      told: (Sides<T>, D) -> bool, kind: D -> Change,
                                          keys: seq<string>, out: seq<D>, c: Change)
    requires Marks(told, kind) && Ascending(keys) && Details(from, to, told, keys, out)
    ensures Of(out, kind, c) == |Kept(from, to, keys, c)|
  {
    if keys == [] {
      assert Kept(from, to, keys, c) == {};
    } else {
      hide Less, At, KindOf;
      var n := |keys| - 1;
      OfIsKept(from, to, told, kind, keys[..n], out[..n], c);
      assert TellsAt(from, to, told, keys[n], out[n]);
      KeptSnoc(from, to, keys, c);
    }
  }

  lemma InButLastAll(keys: seq<string>)
    requires Ascending(keys) && keys != []
    ensures forall k :: k in keys[..|keys| - 1] <==> k in keys && k != keys[|keys| - 1]
  {
    hide Ascending;
    forall k
      ensures k in keys[..|keys| - 1] <==> k in keys && k != keys[|keys| - 1]
    {
      InButLast(keys, k);
    }
  }

  lemma KeptSnoc<T>(from: map<string, T>, to: map<string, T>, keys: seq<string>, c: Change)
    requires keys != [] && Ascending(keys)
    ensures var k := keys[|keys| - 1];
      |Kept(from, to, keys, c)| == |Kept(from, to, keys[..|keys| - 1], c)| + if HasKind(from, to, k, c) then 1 else 0
  {
    InButLastAll(keys);
    hide Ascending, HasKind;
    var k := keys[|keys| - 1];
    var before, after := Kept(from, to, keys[..|keys| - 1], c), Kept(from, to, keys, c);
    assert k in keys && k !in before;
    if HasKind(from, to, k, c) {
      assert after == before + {k};
    } else {
      assert after == before;
    }
  }

  /** Each count is how many entries of that kind are listed. */
  lemma CountsAreListed<T(!new), D(!new), K>(from: map<string, T>, to: map<string, T>, facts: T -> K,
                                             told: (Sides<T>, D) -> bool, kind: D -> Change,
                                 keys: seq<string>, out: seq<D>, counts: Counts)
    requires Report(from, to, facts, told, keys, out, counts) && Marks(told, kind)
    ensures counts == Listed(out, kind)
  {
    OfIsKept(from, to, told, kind, keys, out, Added);
    OfIsKept(from, to, told, kind, keys, out, Removed);
    OfIsKept(from, to, told, kind, keys, out, Changed);
    KeptAreTold(from, to, facts, keys);
  }

  lemma KeptAreTold<T, K>(from: map<string, T>, to: map<string, T>, facts: T -> K, keys: seq<string>)
    requires Orders(keys, Told(from, to, facts, true))
    ensures Kept(from, to, keys, Added) == to.Keys - from.Keys
    ensures Kept(from, to, keys, Removed) == from.Keys - to.Keys
    ensures Kept(from, to, keys, Changed) == Told(from, to, facts, false)
  {
  }

  /** Walking the other way tells the same keys in the same order, each from the other side. */
  lemma ReportMirrored<T, D, K>(from: map<string, T>, to: map<string, T>, facts: T -> K, told: (Sides<T>, D) -> bool,
                                keys: seq<string>, out: seq<D>, counts: Counts, keys': seq<string>, out': seq<D>,
                                counts': Counts)
    requires Report(from, to, facts, told, keys, out, counts) && Report(to, from, facts, told, keys', out', counts')
    ensures keys' == keys && |keys| == |out'| == |out| && counts' == CountsReversed(counts)
    ensures forall i | 0 <= i < |out| ::
      TellsAt(from, to, told, keys[i], out[i]) && TellsAt(to, from, told, keys[i], out'[i])
    ensures forall k | k in keys :: At(to, from, k) == Turned(At(from, to, k))
  {
    ToldMirrored(from, to, facts);
    hide Told, At;
    OneOrder(keys, keys');
    assert forall k | k in keys :: k in Told(from, to, facts, true);
    forall i | 0 <= i < |out|
      ensures told(At(from, to, keys[i]), out[i]) && told(At(to, from, keys[i]), out'[i])
    {
      assert TellsAt(from, to, told, keys[i], out[i]) && TellsAt(to, from, told, keys'[i], out'[i]);
    }
  }

  lemma ToldMirrored<T, K>(from: map<string, T>, to: map<string, T>, facts: T -> K)
    ensures Told(from, to, facts, true) == Told(to, from, facts, true) <= from.Keys + to.Keys
    ensures Told(from, to, facts, false) == Told(to, from, facts, false) <= from.Keys + to.Keys
    ensures forall k | k in from.Keys + to.Keys :: At(to, from, k) == Turned(At(from, to, k))
  {
  }

  function Turned<T>(s: Sides<T>): Sides<T> {
    match s
    case OnlyFrom(a) => OnlyTo(a)
    case OnlyTo(b) => OnlyFrom(b)
    case Both(a, b) => Both(b, a)
  }

  /** Two sides that agree leave nothing to report. */
  lemma NothingToReport<T, D, K>(from: map<string, T>, to: map<string, T>, facts: T -> K, told: (Sides<T>, D) -> bool,
                                 keys: seq<string>, out: seq<D>, counts: Counts)
    requires Report(from, to, facts, told, keys, out, counts) && PairKeys.Agree(from, to, facts)
    ensures out == [] && counts == Counts(0, 0, 0)
  {
    assert Told(from, to, facts, true) == {} && Told(from, to, facts, false) == {};
    Inhabited(keys);
    assert from.Keys - to.Keys == {} && to.Keys - from.Keys == {};
  }
}
