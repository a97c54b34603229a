/** What a whole comparison of keyed repeats adds up to, group by group. */
module PairTotals {
  import opened DiffKeys
  import opened Pairing
  import opened PairKeys
  import opened Totals

  function Some(family: map<string, set<string>>, bases: set<string>): set<string>
    requires bases <= family.Keys
  {
    set b, name | b in bases && name in family[b] :: name
  }

  function Sizes(family: map<string, set<string>>): map<string, int> {
    map b | b in family :: |family[b]|
  }

  ghost predicate Disjoint(family: map<string, set<string>>, bases: set<string>)
    requires bases <= family.Keys
  {
    forall a, b, name | a in bases && b in bases && name in family[a] && name in family[b] :: a == b
  }

  lemma SomeWithout(family: map<string, set<string>>, bases: set<string>, b: string)
    requires bases <= family.Keys && b in bases && Disjoint(family, bases)
    ensures |Some(family, bases)| == |Some(family, bases - {b})| + |family[b]|
  {
    var rest := Some(family, bases - {b});
    assert Some(family, bases) == rest + family[b] by {
      forall name
        ensures name in Some(family, bases) <==> name in rest || name in family[b]
      {
        if a :| a in bases && name in family[a] {
          assert a == b || a in bases - {b};
        }
      }
    }
    assert rest !! family[b];
  }

  /** Disjoint families add up. */
  lemma {:induction false} UnionTotal(family: map<string, set<string>>, bases: set<string>)
    requires bases <= family.Keys && Disjoint(family, bases)
    ensures |Some(family, bases)| == Total(bases, Sizes(family))
  {
    if bases != {} {
      hide Some, Total;
      var b :| b in bases;
      TotalWithout(bases, Sizes(family), b);
      UnionTotal(family, bases - {b});
      SomeWithout(family, bases, b);
    } else {
      assert Some(family, bases) == {};
    }
  }

  // ---- the names of one group ----

  /** The name is in both layouts and says the same in both. */
  predicate SameAt<T, K(==)>(x: seq<T>, y: seq<T>, facts: T -> K, i: nat) {
    i < |x| && i < |y| && facts(x[i]) == facts(y[i])
  }

  predicate ToldAt<T, K(==)>(x: seq<T>, y: seq<T>, facts: T -> K, either: bool, i: nat) {
    !SameAt(x, y, facts, i) && if either then i < |x| || i < |y| else i < |x| && i < |y|
  }

  /** The places of a group that a comparison reports: all of them, or only those on both sides. */
  function ToldPlaces<T, K(==)>(x: seq<T>, y: seq<T>, facts: T -> K, either: bool): set<nat> {
    set i: nat | i < |x| + |y| && ToldAt(x, y, facts, either, i)
  }

  function NamesAt(b: string, places: set<nat>): set<string> {
    set i | i in places :: Nth(b, i)
  }

  lemma {:induction false} NamesAtSize(b: string, places: set<nat>)
    ensures |NamesAt(b, places)| == |places|
  {
    hide Nth;
    if places != {} {
      var i :| i in places;
      NamesAtSize(b, places - {i});
      assert NamesAt(b, places) == NamesAt(b, places - {i}) + {Nth(b, i)};
      if j :| j in places - {i} && Nth(b, j) == Nth(b, i) {
        NthApart(b, i, j);
      }
    }
  }

  lemma NthApart(b: string, i: nat, j: nat)
    requires Nth(b, i) == Nth(b, j)
    ensures i == j
  {
    if i != j {
      SameBase(b, i + 1, j + 1);
    }
  }

  /** Places of differing pairs. */
  function DiffPlaces<K(==)>(xs: seq<K>, ys: seq<K>): set<nat>
    requires |xs| == |ys|
  {
    set i: nat | i < |xs| && xs[i] != ys[i]
  }

  lemma {:induction false} DiffPlacesSize<K>(xs: seq<K>, ys: seq<K>)
    requires |xs| == |ys|
    ensures |DiffPlaces(xs, ys)| == DiffCount(xs, ys)
  {
    if xs != [] {
      var n := |xs| - 1;
      DiffPlacesSize(xs[..n], ys[..n]);
      assert DiffPlaces(xs, ys) == DiffPlaces(xs[..n], ys[..n]) + if xs[n] == ys[n] then {} else {n};
    } else {
      assert DiffPlaces(xs, ys) == {};
    }
  }

  predicate Reaches(i: nat, lo: nat) {
    lo <= i
  }

  function Between(lo: nat, hi: nat): set<nat> {
    set i: nat | i < hi && Reaches(i, lo)
  }

  lemma {:induction false} BetweenSize(lo: nat, hi: nat)
    requires lo <= hi
    ensures |Between(lo, hi)| == hi - lo
  {
    if lo < hi {
      BetweenSize(lo, hi - 1);
      assert Between(lo, hi) == Between(lo, hi - 1) + {hi - 1};
    } else {
      assert Between(lo, hi) == {};
    }
  }

  /** What a comparison reports of one group is the pairing's own cost. */
  lemma GroupCost<T, K>(fs: seq<T>, ts: seq<T>, facts: T -> K, m: Match)
    requires Best(Facts(fs, facts), Facts(ts, facts), m)
    ensures |ToldPlaces(LaidFrom(fs, m), LaidTo(ts, m), facts, false)|
         == Pairs(m) - |EqualFacts(Facts(fs, facts), Facts(ts, facts), m)|
    ensures |ToldPlaces(LaidFrom(fs, m), LaidTo(ts, m), facts, true)| == Reported(Facts(fs, facts), Facts(ts, facts), m)
  {
    hide Chosen, Partners, Rest, EqualFacts, DiffCount;
    BestShape(fs, ts, facts, m);
    LaidSizes(fs, ts, facts, m);
    PairsThatDiffer(fs, ts, facts, m);
    var x, y := LaidFrom(fs, m), LaidTo(ts, m);
    var xs, ys := Facts(Chosen(fs, m, true), facts), Facts(Partners(ts, m), facts);
    DiffPlacesSize(xs, ys);
    assert ToldPlaces(x, y, facts, false) == DiffPlaces(xs, ys);
    var lo, hi := Least(|x|, |y|), |x| + |y| - Least(|x|, |y|);
    assert ToldPlaces(x, y, facts, true) == DiffPlaces(xs, ys) + Between(lo, hi);
    assert DiffPlaces(xs, ys) !! Between(lo, hi);
    BetweenSize(lo, hi);
  }

  // ---- the whole of both sides ----

  predicate SameKey<T, K(==)>(outFrom: map<string, T>, outTo: map<string, T>, facts: T -> K, k: string) {
    k in outFrom && k in outTo && facts(outFrom[k]) == facts(outTo[k])
  }

  predicate ToldKey<T, K(==)>(outFrom: map<string, T>, outTo: map<string, T>, facts: T -> K, either: bool, k: string) {
    !SameKey(outFrom, outTo, facts, k) && if either then k in outFrom || k in outTo else k in outFrom && k in outTo
  }

  /** The names a comparison reports: all of them, or only those on both sides. */
  function Told<T, K(==)>(outFrom: map<string, T>, outTo: map<string, T>, facts: T -> K, either: bool): set<string> {
    set k | k in outFrom.Keys + outTo.Keys && ToldKey(outFrom, outTo, facts, either, k)
  }

  /** Everything told is a differing pair or on one side only. */
  lemma ToldSplits<T, K>(from: map<string, T>, to: map<string, T>, facts: T -> K)
    ensures |Told(from, to, facts, true)|
      == |Told(from, to, facts, false)| + |to.Keys - from.Keys| + |from.Keys - to.Keys|
  {
    var all, both, added, removed :=
      Told(from, to, facts, true), Told(from, to, facts, false), to.Keys - from.Keys, from.Keys - to.Keys;
    assert forall k :: k in all <==> k in both || k in added || k in removed;
    assert both !! added && both !! removed && added !! removed;
    hide Told;
    ThreeParts(all, both, added, removed);
  }

  lemma ThreeParts(all: set<string>, x: set<string>, y: set<string>, z: set<string>)
    requires forall k :: k in all <==> k in x || k in y || k in z
    requires x !! y && x !! z && y !! z
    ensures |all| == |x| + |y| + |z|
  {
    assert all == x + y + z;
  }

  /** The names reported of one group. */
  function ToldOf<T, K(==)>(from: seq<T>, to: seq<T>, key: T -> string, facts: T -> K, m: Match, either: bool,
                            b: string): set<string>
    requires |m| == |Group(from, key, b)|
  {
    NamesAt(b, ToldPlaces(LaidFrom(Group(from, key, b), m), LaidTo(Group(to, key, b), m), facts, either))
  }

  ghost predicate Fits<T>(from: seq<T>, key: T -> string, plan: map<string, Match>) {
    forall b | b in plan :: |plan[b]| == |Group(from, key, b)|
  }

  function Families<T, K(==)>(from: seq<T>, to: seq<T>, key: T -> string, facts: T -> K, plan: map<string, Match>,
                              either: bool): map<string, set<string>>
    requires Fits(from, key, plan)
  {
    map b | b in plan :: ToldOf(from, to, key, facts, plan[b], either, b)
  }

  /** Where a plain name sits on one side. */
  lemma NameSits<T>(items: seq<T>, key: T -> string, bases: set<string>, out: map<string, T>, b: string, i: nat)
    requires KeySet(items, key) <= bases && Plain(bases) && b in bases && out.Keys == Indexed(items, key).Keys
    ensures Nth(b, i) in out <==> i < |Group(items, key, b)|
  {
    hide Indexed, Group, Nth, Plain;
    NamesAreIndexed(items, key, bases, Nth(b, i));
    if NameOf(items, key, bases, Nth(b, i)) {
      var c, j: nat :| c in bases && HasNth(items, key, c, j, Nth(b, i));
      PlainNamesApart(bases, b, i, c, j);
    }
    if i < |Group(items, key, b)| {
      assert HasNth(items, key, b, i, Nth(b, i));
    }
  }

  lemma SizesFit<T, K>(from: seq<T>, to: seq<T>, key: T -> string, facts: T -> K,
                       outFrom: map<string, T>, outTo: map<string, T>, plan: map<string, Match>)
    requires Paired(from, to, key, facts, outFrom, outTo, plan)
    ensures Fits(from, key, plan)
    ensures forall b | b in plan :: (|LaidFrom(Group(from, key, b), plan[b])| == |Group(from, key, b)|
                                     && |LaidTo(Group(to, key, b), plan[b])| == |Group(to, key, b)|)
  {
    hide Group, LaidFrom, LaidTo;
    forall b | b in plan
      ensures |plan[b]| == |Group(from, key, b)|
      ensures |LaidFrom(Group(from, key, b), plan[b])| == |Group(from, key, b)|
      ensures |LaidTo(Group(to, key, b), plan[b])| == |Group(to, key, b)|
    {
      BestShape(Group(from, key, b), Group(to, key, b), facts, plan[b]);
      LaidSizes(Group(from, key, b), Group(to, key, b), facts, plan[b]);
    }
  }

  lemma ToldThere<T, K>(from: seq<T>, to: seq<T>, key: T -> string, facts: T -> K, outFrom: map<string, T>,
                        outTo: map<string, T>,
                        plan: map<string, Match>, either: bool, b: string, i: nat)
    requires Paired(from, to, key, facts, outFrom, outTo, plan) && Plain(plan.Keys) && b in plan
    requires |plan[b]| == |Group(from, key, b)|
    ensures ToldKey(outFrom, outTo, facts, either, Nth(b, i))
        <==> ToldAt(LaidFrom(Group(from, key, b), plan[b]), LaidTo(Group(to, key, b), plan[b]), facts, either, i)
    ensures Nth(b, i) in outFrom.Keys + outTo.Keys <==> i < |Group(from, key, b)| || i < |Group(to, key, b)|
  {
    hide Indexed, Group, Nth, Plain, LaidFrom, LaidTo;
    NameSits(from, key, plan.Keys, outFrom, b, i);
    NameSits(to, key, plan.Keys, outTo, b, i);
    SizesFit(from, to, key, facts, outFrom, outTo, plan);
    PlainNeverClashes(from, key, plan.Keys);
    PlainNeverClashes(to, key, plan.Keys);
    assert FiledFrom(from, key, outFrom, b, plan[b]) && FiledTo(to, key, outTo, b, plan[b]);
  }

  lemma ToldIsUnion<T, K>(from: seq<T>, to: seq<T>, key: T -> string, facts: T -> K, outFrom: map<string, T>,
                          outTo: map<string, T>,
                          plan: map<string, Match>, either: bool)
    requires Paired(from, to, key, facts, outFrom, outTo, plan) && Plain(plan.Keys) && Fits(from, key, plan)
    ensures Told(outFrom, outTo, facts, either) == Some(Families(from, to, key, facts, plan, either), plan.Keys)
  {
    hide Indexed, Group, Nth, Plain, LaidFrom, LaidTo, FiledFrom, FiledTo, ToldAt, ToldKey;
    var families := Families(from, to, key, facts, plan, either);
    forall k | k in Told(outFrom, outTo, facts, either)
      ensures k in Some(families, plan.Keys)
    {
      NamesAreIndexed(from, key, plan.Keys, k);
      NamesAreIndexed(to, key, plan.Keys, k);
      assert NameOf(from, key, plan.Keys, k) || NameOf(to, key, plan.Keys, k);
      var b, i: nat :| b in plan.Keys && k == Nth(b, i);
      ToldThere(from, to, key, facts, outFrom, outTo, plan, either, b, i);
      SizesFit(from, to, key, facts, outFrom, outTo, plan);
      assert i in ToldPlaces(LaidFrom(Group(from, key, b), plan[b]), LaidTo(Group(to, key, b), plan[b]), facts, either);
      assert k in families[b];
    }
    forall k | k in Some(families, plan.Keys)
      ensures k in Told(outFrom, outTo, facts, either)
    {
      var b :| b in plan && k in families[b];
      var x, y := LaidFrom(Group(from, key, b), plan[b]), LaidTo(Group(to, key, b), plan[b]);
      var i: nat :| i in ToldPlaces(x, y, facts, either) && k == Nth(b, i);
      ToldThere(from, to, key, facts, outFrom, outTo, plan, either, b, i);
      ToldIsSomewhere(outFrom, outTo, facts, either, k);
    }
  }

  lemma ToldIsSomewhere<T, K>(outFrom: map<string, T>, outTo: map<string, T>, facts: T -> K, either: bool, k: string)
    requires ToldKey(outFrom, outTo, facts, either, k)
    ensures k in outFrom.Keys + outTo.Keys
  {
  }

  /** What a comparison reports of every group under some pairing of each. */
  function Costs<T, K(==)>(from: seq<T>, to: seq<T>, key: T -> string, facts: T -> K, plan: map<string,
                           Match>): map<string, int>
    requires Fits(from, key, plan)
  {
    map b | b in plan :: Reported(Facts(Group(from, key, b), facts), Facts(Group(to, key, b), facts), plan[b])
  }

  ghost predicate Pairings<T>(from: seq<T>, to: seq<T>, key: T -> string, plan: map<string, Match>) {
    Fits(from, key, plan) && forall b | b in plan :: OneToOne(plan[b], |Group(to, key, b)|)
  }

  /** What a pairing of one group has to report: everything, or only the pairs that differ. */
  function GroupTold<T, K(==)>(from: seq<T>, to: seq<T>, key: T -> string, facts: T -> K, m: Match, either: bool,
                               b: string): int
    requires |m| == |Group(from, key, b)|
  {
    var xs, ys := Facts(Group(from, key, b), facts), Facts(Group(to, key, b), facts);
    if either then Reported(xs, ys, m) else Pairs(m) - |EqualFacts(xs, ys, m)|
  }

  /** The cost of what is reported is the pairing's own, group by group. */
  lemma ToldTotal<T, K>(from: seq<T>, to: seq<T>, key: T -> string, facts: T -> K, outFrom: map<string, T>,
                        outTo: map<string, T>,
                        plan: map<string, Match>, either: bool)
    requires Paired(from, to, key, facts, outFrom, outTo, plan) && Plain(plan.Keys) && Fits(from, key, plan)
    ensures |Told(outFrom, outTo, facts, either)|
      == Total(plan.Keys, Sizes(Families(from, to, key, facts, plan, either)))
    ensures forall b | b in plan ::
      |ToldOf(from, to, key, facts, plan[b], either, b)| == GroupTold(from, to, key, facts, plan[b], either, b)
  {
    hide Indexed, Group, Nth, Plain, LaidFrom, LaidTo, FiledFrom, FiledTo, ToldPlaces, Told, Some, EqualFacts, Reported;
    ToldIsUnion(from, to, key, facts, outFrom, outTo, plan, either);
    var families := Families(from, to, key, facts, plan, either);
    forall a, b, k | a in plan && b in plan && k in families[a] && k in families[b]
      ensures a == b
    {
      var i: nat :| k == Nth(a, i);
      var j: nat :| k == Nth(b, j);
      PlainNamesApart(plan.Keys, a, i, b, j);
    }
    UnionTotal(families, plan.Keys);
    forall b | b in plan
      ensures |ToldOf(from, to, key, facts, plan[b], either, b)| == GroupTold(from, to, key, facts, plan[b], either, b)
    {
      var fs, ts := Group(from, key, b), Group(to, key, b);
      GroupCost(fs, ts, facts, plan[b]);
      NamesAtSize(b, ToldPlaces(LaidFrom(fs, plan[b]), LaidTo(ts, plan[b]), facts, either));
    }
  }

  /** No pairing of the repeats would report fewer additions, removals and changes than the one made. */
  lemma ReportsLeast<T, K>(from: seq<T>, to: seq<T>, key: T -> string, facts: T -> K, outFrom: map<string, T>,
                           outTo: map<string, T>,
                           plan: map<string, Match>, other: map<string, Match>)
    requires Paired(from, to, key, facts, outFrom, outTo, plan) && Plain(plan.Keys)
    requires Pairings(from, to, key, other) && other.Keys == plan.Keys
    ensures |Told(outFrom, outTo, facts, true)| <= Total(plan.Keys, Costs(from, to, key, facts, other))
  {
    hide Group, Plain, FiledFrom, FiledTo, Told, ToldOf, Reported, Best;
    SizesFit(from, to, key, facts, outFrom, outTo, plan);
    ToldTotal(from, to, key, facts, outFrom, outTo, plan, true);
    forall b | b in plan
      ensures Sizes(Families(from, to, key, facts, plan, true))[b] <= Costs(from, to, key, facts, other)[b]
    {
      BestReportsLeast(Facts(Group(from, key, b), facts), Facts(Group(to, key, b), facts), plan[b], other[b]);
    }
    TotalAtMost(plan.Keys, Sizes(Families(from, to, key, facts, plan, true)), Costs(from, to, key, facts, other));
  }

  /** Comparing the other way round changes as many. */
  lemma ChangesMirrored<T, K>(from: seq<T>, to: seq<T>, key: T -> string, facts: T -> K,
                              outFrom: map<string, T>, outTo: map<string, T>, plan: map<string, Match>,
                              outFrom': map<string, T>, outTo': map<string, T>, plan': map<string, Match>)
    requires Paired(from, to, key, facts, outFrom, outTo, plan) && Plain(plan.Keys)
    requires Paired(to, from, key, facts, outFrom', outTo', plan')
    ensures |Told(outFrom, outTo, facts, false)| == |Told(outFrom', outTo', facts, false)|
    ensures outFrom'.Keys == outTo.Keys && outTo'.Keys == outFrom.Keys
  {
    hide Group, Plain, FiledFrom, FiledTo, Told, ToldOf, Best, EqualFacts, Indexed;
    SizesFit(from, to, key, facts, outFrom, outTo, plan);
    SizesFit(to, from, key, facts, outFrom', outTo', plan');
    assert plan.Keys == plan'.Keys;
    ToldTotal(from, to, key, facts, outFrom, outTo, plan, false);
    ToldTotal(to, from, key, facts, outFrom', outTo', plan', false);
    var sizes, sizes' := Sizes(Families(from, to, key, facts, plan, false)),
      Sizes(Families(to, from, key, facts, plan', false));
    forall b | b in plan
      ensures sizes[b] == sizes'[b]
    {
      BestMirrored(Facts(Group(from, key, b), facts), Facts(Group(to, key, b), facts), plan[b], plan'[b]);
    }
    TotalAtMost(plan.Keys, sizes, sizes');
    TotalAtMost(plan.Keys, sizes', sizes);
  }

  /** No item is dropped exactly when no key reads as a repeat that another really has; then each side is what both
      share and what is only there. */
  lemma PairingConserves<T, K>(from: seq<T>, to: seq<T>, key: T -> string, facts: T -> K,
                               outFrom: map<string, T>, outTo: map<string, T>, plan: map<string, Match>)
    requires Paired(from, to, key, facts, outFrom, outTo, plan)
    ensures |from| == |outFrom.Keys * outTo.Keys| + |outFrom.Keys - outTo.Keys| <==> !Clash(Keys(from, key))
    ensures |to| == |outFrom.Keys * outTo.Keys| + |outTo.Keys - outFrom.Keys| <==> !Clash(Keys(to, key))
  {
    hide Indexed, Clash, Planned, FiledFrom, FiledTo, Plain, KeySet;
    IndexIsLossless(from, key);
    IndexIsLossless(to, key);
    SplitSize(outFrom.Keys, outTo.Keys);
    SplitSize(outTo.Keys, outFrom.Keys);
    assert outFrom.Keys * outTo.Keys == outTo.Keys * outFrom.Keys;
    KeysSize(Indexed(from, key));
    KeysSize(Indexed(to, key));
  }

  lemma SplitSize(x: set<string>, y: set<string>)
    ensures |x| == |x * y| + |x - y|
  {
    assert x == x * y + (x - y);
  }

  lemma KeysSize<T>(m: map<string, T>)
    ensures |m.Keys| == |m|
  {
  }

  // ---- what a pairing settles ----

  /** What is filed where no key clashes is settled by its layouts. */
  lemma FiledAgree<T>(items: seq<T>, key: T -> string, bases: set<string>, x: map<string, T>, y: map<string, T>,
                      layouts: map<string, seq<T>>)
    requires KeySet(items, key) <= bases && bases == layouts.Keys
    requires x.Keys == Indexed(items, key).Keys && y.Keys == Indexed(items, key).Keys
    requires forall b | b in bases :: |layouts[b]| == |Group(items, key, b)|
    requires forall b | b in bases :: FiledAs(x, b, layouts[b]) && FiledAs(y, b, layouts[b])
    ensures x == y
  {
    hide Indexed, Group, Nth;
    forall name | name in x
      ensures x[name] == y[name]
    {
      NamesAreIndexed(items, key, bases, name);
      var b, i: nat :| b in bases && HasNth(items, key, b, i, name);
      assert FiledAs(x, b, layouts[b]) && FiledAs(y, b, layouts[b]);
    }
  }

  /** Two pairings of the same items pair them alike, and file each side alike where none of its keys clash. */
  lemma PairedAgree<T, K>(from: seq<T>, to: seq<T>, key: T -> string, facts: T -> K,
                          outFrom: map<string, T>, outTo: map<string, T>, plan: map<string, Match>,
                          outFrom': map<string, T>, outTo': map<string, T>, plan': map<string, Match>)
    requires Paired(from, to, key, facts, outFrom, outTo, plan)
    requires Paired(from, to, key, facts, outFrom', outTo', plan')
    ensures plan == plan'
    ensures !Clash(Keys(from, key)) ==> outFrom == outFrom'
    ensures !Clash(Keys(to, key)) ==> outTo == outTo'
  {
    hide Group, Indexed, FiledAs, LaidFrom, LaidTo, Clash, Best, ByPosition, KeySet;
    forall b | b in plan
      ensures plan[b] == plan'[b]
    {
      PairingAgrees(Facts(Group(from, key, b), facts), Facts(Group(to, key, b), facts), plan[b], plan'[b]);
    }
    SizesFit(from, to, key, facts, outFrom, outTo, plan);
    if !Clash(Keys(from, key)) {
      var layouts := map b | b in plan :: LaidFrom(Group(from, key, b), plan[b]);
      forall b | b in plan
        ensures FiledAs(outFrom, b, layouts[b]) && FiledAs(outFrom', b, layouts[b])
      {
        assert FiledFrom(from, key, outFrom, b, plan[b]) && FiledFrom(from, key, outFrom', b, plan'[b]);
      }
      FiledAgree(from, key, plan.Keys, outFrom, outFrom', layouts);
    }
    if !Clash(Keys(to, key)) {
      var layouts := map b | b in plan :: LaidTo(Group(to, key, b), plan[b]);
      forall b | b in plan
        ensures FiledAs(outTo, b, layouts[b]) && FiledAs(outTo', b, layouts[b])
      {
        assert FiledTo(to, key, outTo, b, plan[b]) && FiledTo(to, key, outTo', b, plan'[b]);
      }
      FiledAgree(to, key, plan.Keys, outTo, outTo', layouts);
    }
  }

  ghost predicate Single<T>(items: seq<T>, key: T -> string) {
    forall i, j | 0 <= i < j < |items| :: key(items[i]) != key(items[j])
  }

  lemma SingleCount<T>(items: seq<T>, key: T -> string, b: string)
    requires Single(items, key)
    ensures Count(Keys(items, key), b) <= 1
  {
    var keys := Keys(items, key);
    if Count(keys, b) >= 2 {
      var i := RepeatAt(keys, b, 1);
      var j := RepeatAt(keys, b, 2);
    }
  }

  lemma SingleNeverClashes<T>(items: seq<T>, key: T -> string)
    requires Single(items, key)
    ensures !Clash(Keys(items, key)) && forall b :: |Group(items, key, b)| <= 1
  {
    hide Single, Count, Group;
    forall b
      ensures Count(Keys(items, key), b) <= 1 && |Group(items, key, b)| <= 1
    {
      SingleCount(items, key, b);
      NoGroup(items, key, b);
    }
  }

  lemma LaidFromSingle<T>(fs: seq<T>, m: Match)
    requires |fs| == |m| <= 1
    ensures LaidFrom(fs, m) == fs
  {
    if |m| == 1 {
      assert m[..0] == [] && fs[..0] == [];
      assert Chosen(fs, m, true) == if m[0] >= 0 then fs else [];
      assert Chosen(fs, m, false) == if m[0] >= 0 then [] else fs;
    }
  }

  lemma LaidToSingle<T>(ts: seq<T>, m: Match)
    requires |m| <= 1 && |ts| <= 1 && OneToOne(m, |ts|)
    ensures LaidTo(ts, m) == ts
  {
    PartnersSingle(ts, m);
    if |ts| == 1 {
      RestSingle(ts, Image(m, 1));
      assert Image(m, 1)[0] == (0 in m);
      hide Partners, Rest;
      assert 0 in m <==> |m| == 1 && m[0] == 0;
    }
  }

  lemma PartnersSingle<T>(ts: seq<T>, m: Match)
    requires |m| <= 1
    ensures Partners(ts, m) == if |m| == 1 && 0 <= m[0] < |ts| then [ts[m[0]]] else []
  {
    if |m| == 1 {
      assert m[..0] == [] && Partners(ts, m[..0]) == [];
    }
  }

  lemma RestSingle<T>(ts: seq<T>, used: seq<bool>)
    requires |ts| == |used| == 1
    ensures Rest(ts, used) == if used[0] then [] else ts
  {
    NothingRests(ts, used);
  }

  /** Where no key comes up twice on either side, comparing the other way files each side as before. */
  lemma SingleMirrored<T, K>(from: seq<T>, to: seq<T>, key: T -> string, facts: T -> K,
                             outFrom: map<string, T>, outTo: map<string, T>, plan: map<string, Match>,
                             outFrom': map<string, T>, outTo': map<string, T>, plan': map<string, Match>)
    requires Paired(from, to, key, facts, outFrom, outTo, plan) && Single(from, key) && Single(to, key)
    requires Paired(to, from, key, facts, outFrom', outTo', plan')
    ensures outFrom' == outTo && outTo' == outFrom
  {
    hide Group, Indexed, FiledAs, LaidFrom, LaidTo, Clash, Best, ByPosition, KeySet, Single;
    SingleNeverClashes(from, key);
    SingleNeverClashes(to, key);
    var bases := plan.Keys;
    assert plan'.Keys == bases;
    var layFrom, layTo := map b | b in bases :: Group(from, key, b), map b | b in bases :: Group(to, key, b);
    forall b | b in bases
      ensures FiledAs(outFrom, b, layFrom[b]) && FiledAs(outTo, b, layTo[b])
      ensures FiledAs(outFrom', b, layTo[b]) && FiledAs(outTo', b, layFrom[b])
    {
      BestShape(Group(from, key, b), Group(to, key, b), facts, plan[b]);
      BestShape(Group(to, key, b), Group(from, key, b), facts, plan'[b]);
      LaidFromSingle(Group(from, key, b), plan[b]);
      LaidToSingle(Group(to, key, b), plan[b]);
      LaidFromSingle(Group(to, key, b), plan'[b]);
      LaidToSingle(Group(from, key, b), plan'[b]);
      assert FiledFrom(from, key, outFrom, b, plan[b]) && FiledTo(to, key, outTo, b, plan[b]);
      assert FiledFrom(to, key, outFrom', b, plan'[b]) && FiledTo(from, key, outTo', b, plan'[b]);
    }
    FiledAgree(from, key, bases, outFrom, outTo', layFrom);
    FiledAgree(to, key, bases, outTo, outFrom', layTo);
  }
}
