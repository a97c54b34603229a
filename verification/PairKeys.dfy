/** Keying both sides of a comparison so that equal repeats pair first. */
module PairKeys {
  import opened DiffKeys
  import opened Pairing

  /** The items under one key, in order. */
  function Group<T>(items: seq<T>, key: T -> string, base: string): seq<T> {
    if items == [] then [] else
      var it := items[|items| - 1];
      Group(items[..|items| - 1], key, base) + if key(it) == base then [it] else []
  }

  function Facts<T, K>(items: seq<T>, facts: T -> K): seq<K> {
    seq(|items|, i requires 0 <= i < |items| => facts(items[i]))
  }

  /** The from items with, or without, a partner. */
  function Chosen<T>(fs: seq<T>, m: Match, paired: bool): seq<T>
    requires |fs| == |m|
  {
    if fs == [] then [] else
      var i := |fs| - 1;
      Chosen(fs[..i], m[..i], paired) + if (m[i] >= 0) == paired then [fs[i]] else []
  }

  /** The to items taken, in the order they were taken. */
  function Partners<T>(ts: seq<T>, m: Match): seq<T> {
    if m == [] then [] else
      var i := |m| - 1;
      Partners(ts, m[..i]) + if 0 <= m[i] < |ts| then [ts[m[i]]] else []
  }

  function Rest<T>(ts: seq<T>, used: seq<bool>): seq<T>
    requires |ts| == |used|
  {
    if ts == [] then [] else
      var j := |ts| - 1;
      Rest(ts[..j], used[..j]) + if used[j] then [] else [ts[j]]
  }

  /** A group in the order it is numbered: pairs first, then what is left. */
  function LaidFrom<T>(fs: seq<T>, m: Match): seq<T>
    requires |fs| == |m|
  {
    Chosen(fs, m, true) + Chosen(fs, m, false)
  }

  function LaidTo<T>(ts: seq<T>, m: Match): seq<T> {
    Partners(ts, m) + Rest(ts, Image(m, |ts|))
  }

  /** A group filed under its numbered names, in order. */
  function Named<T>(base: string, layout: seq<T>): map<string, T> {
    if layout == [] then map[] else
      Named(base, layout[..|layout| - 1])[Occurrence(base, |layout|) := layout[|layout| - 1]]
  }

  lemma NamedSnoc<T>(out: map<string, T>, base: string, layout: seq<T>, x: T)
    ensures out + Named(base, layout + [x]) == (out + Named(base, layout))[Occurrence(base, |layout| + 1) := x]
  {
    assert (layout + [x])[..|layout|] == layout;
  }

  lemma {:induction false} ChosenSizes<T>(fs: seq<T>, m: Match)
    requires |fs| == |m|
    ensures |Chosen(fs, m, true)| == Pairs(m) && |Chosen(fs, m, false)| == |fs| - Pairs(m)
  {
    if fs != [] {
      ChosenSizes(fs[..|fs| - 1], m[..|fs| - 1]);
    }
  }

  lemma {:induction false} PartnersSize<T>(ts: seq<T>, m: Match)
    requires forall i | 0 <= i < |m| :: m[i] < |ts|
    ensures |Partners(ts, m)| == Pairs(m)
  {
    if m != [] {
      PartnersSize(ts, m[..|m| - 1]);
    }
  }

  lemma {:induction false} RestSize<T>(ts: seq<T>, used: seq<bool>)
    requires |ts| == |used|
    ensures |Rest(ts, used)| == |ts| - MarkCount(used)
  {
    if ts != [] {
      RestSize(ts[..|ts| - 1], used[..|ts| - 1]);
    }
  }

  lemma LaidSizes<T, K>(fs: seq<T>, ts: seq<T>, facts: T -> K, m: Match)
    requires Best(Facts(fs, facts), Facts(ts, facts), m)
    ensures |LaidFrom(fs, m)| == |fs| && |LaidTo(ts, m)| == |ts|
    ensures |Chosen(fs, m, true)| == |Partners(ts, m)| == Pairs(m) == Least(|fs|, |ts|)
  {
    ChosenSizes(fs, m);
    PartnersSize(ts, m);
    RestSize(ts, Image(m, |ts|));
    ImageCounts(Facts(fs, facts), Facts(ts, facts), m);
  }

  lemma ChosenSnoc<T>(fs: seq<T>, m: Match, i: nat, paired: bool)
    requires |fs| == |m| && i < |fs|
    ensures Chosen(fs[..i + 1], m[..i + 1], paired)
         == if (m[i] >= 0) == paired then Chosen(fs[..i], m[..i], paired) + [fs[i]] else Chosen(fs[..i], m[..i], paired)
    ensures Pairs(m[..i + 1]) == Pairs(m[..i]) + if m[i] >= 0 then 1 else 0
  {
    assert fs[..i + 1][..i] == fs[..i] && m[..i + 1][..i] == m[..i];
  }

  lemma PartnersSnoc<T>(ts: seq<T>, m: Match, i: nat)
    requires i < |m|
    ensures Partners(ts, m[..i + 1])
         == if 0 <= m[i] < |ts| then Partners(ts, m[..i]) + [ts[m[i]]] else Partners(ts, m[..i])
  {
    assert m[..i + 1][..i] == m[..i];
  }

  lemma RestSnoc<T>(ts: seq<T>, used: seq<bool>, j: nat)
    requires |ts| == |used| && j < |ts|
    ensures Rest(ts[..j + 1], used[..j + 1])
         == if used[j] then Rest(ts[..j], used[..j]) else Rest(ts[..j], used[..j]) + [ts[j]]
  {
    assert ts[..j + 1][..j] == ts[..j] && used[..j + 1][..j] == used[..j];
  }

  /** Numbers the pairs of one group on both sides. */
  method NamePairs<T>(base: string, fs: seq<T>, ts: seq<T>, m: Match, from0: map<string, T>, to0: map<string, T>)
    returns (outFrom: map<string, T>, outTo: map<string, T>, n: nat)
    requires |m| == |fs| && OneToOne(m, |ts|)
    ensures n == Pairs(m)
    ensures outFrom == from0 + Named(base, Chosen(fs, m, true))
    ensures outTo == to0 + Named(base, Partners(ts, m))
  {
    hide Chosen, Partners, Named, Occurrence;
    outFrom, outTo, n := from0, to0, 0;
    NothingLaid(base, fs, ts, m, from0, to0);
    for i := 0 to |m|
      invariant n == Pairs(m[..i]) == |Chosen(fs[..i], m[..i], true)| == |Partners(ts, m[..i])|
      invariant outFrom == from0 + Named(base, Chosen(fs[..i], m[..i], true))
      invariant outTo == to0 + Named(base, Partners(ts, m[..i]))
    {
      ChosenSnoc(fs, m, i, true);
      PartnersSnoc(ts, m, i);
      if m[i] >= 0 {
        NamedSnoc(from0, base, Chosen(fs[..i], m[..i], true), fs[i]);
        NamedSnoc(to0, base, Partners(ts, m[..i]), ts[m[i]]);
        n := n + 1;
        var k := Occurrence(base, n);
        outFrom, outTo := outFrom[k := fs[i]], outTo[k := ts[m[i]]];
      }
    }
    assert m[..|m|] == m && fs[..|m|] == fs;
  }

  lemma NothingLaid<T>(base: string, fs: seq<T>, ts: seq<T>, m: Match, from0: map<string, T>, to0: map<string, T>)
    requires |m| == |fs|
    ensures Chosen(fs[..0], m[..0], true) == Chosen(fs[..0], m[..0], false) == [] && Partners(ts, m[..0]) == []
    ensures from0 + Named(base, Chosen(fs[..0], m[..0], true)) == from0
    ensures to0 + Named(base, Partners(ts, m[..0])) == to0
    ensures Pairs(m[..0]) == 0
  {
  }

  /** Numbers the from items left over, behind the pairs. */
  method NameLeftFrom<T>(base: string, fs: seq<T>, m: Match, from0: map<string, T>, pairs: nat, paired: map<string, T>)
    returns (outFrom: map<string, T>, n: nat)
    requires |m| == |fs| && pairs == Pairs(m) && paired == from0 + Named(base, Chosen(fs, m, true))
    ensures n == |fs| && outFrom == from0 + Named(base, LaidFrom(fs, m))
  {
    hide Chosen, Named, Occurrence, Pairs;
    ghost var first := Chosen(fs, m, true);
    ChosenSizes(fs, m);
    NothingLaid(base, fs, fs, m, from0, from0);
    assert first + [] == first;
    outFrom, n := paired, pairs;
    for i := 0 to |m|
      invariant n == |first| + |Chosen(fs[..i], m[..i], false)|
      invariant outFrom == from0 + Named(base, first + Chosen(fs[..i], m[..i], false))
    {
      ChosenSnoc(fs, m, i, false);
      if m[i] < 0 {
        ghost var layout := first + Chosen(fs[..i], m[..i], false);
        NamedSnoc(from0, base, layout, fs[i]);
        assert layout + [fs[i]] == first + Chosen(fs[..i + 1], m[..i + 1], false);
        n := n + 1;
        outFrom := outFrom[Occurrence(base, n) := fs[i]];
      }
    }
    assert m[..|m|] == m && fs[..|m|] == fs;
  }

  /** Numbers the to items left over, going on from n; there are none unless every from item is paired. */
  method NameLeftTo<T>(base: string, ts: seq<T>, m: Match, used: seq<bool>, to0: map<string, T>, paired: map<string, T>,
                       n0: nat)
    returns (outTo: map<string, T>)
    requires used == Image(m, |ts|) && paired == to0 + Named(base, Partners(ts, m))
    requires (forall j | 0 <= j < |used| :: used[j]) || n0 == |Partners(ts, m)|
    ensures outTo == to0 + Named(base, LaidTo(ts, m))
  {
    hide Partners, Rest, Named, Occurrence, Image;
    ghost var first := Partners(ts, m);
    NothingRests(ts, used);
    assert first + [] == first;
    outTo := paired;
    var n := n0;
    for j := 0 to |used|
      invariant (forall j | 0 <= j < |used| :: used[j]) || n == |first| + |Rest(ts[..j], used[..j])|
      invariant outTo == to0 + Named(base, first + Rest(ts[..j], used[..j]))
    {
      RestSnoc(ts, used, j);
      if !used[j] {
        ghost var layout := first + Rest(ts[..j], used[..j]);
        NamedSnoc(to0, base, layout, ts[j]);
        assert layout + [ts[j]] == first + Rest(ts[..j + 1], used[..j + 1]);
        n := n + 1;
        outTo := outTo[Occurrence(base, n) := ts[j]];
      }
    }
    assert used[..|used|] == used && ts[..|used|] == ts;
  }

  /** Pairs one group and files it on both sides. */
  method PairBase<T, K(==)>(base: string, fs: seq<T>, ts: seq<T>, facts: T -> K, from0: map<string, T>,
                            to0: map<string, T>)
    returns (outFrom: map<string, T>, outTo: map<string, T>, m: Match)
    ensures Best(Facts(fs, facts), Facts(ts, facts), m) && ByPosition(Facts(fs, facts), Facts(ts, facts), m)
    ensures outFrom == from0 + Named(base, LaidFrom(fs, m))
    ensures outTo == to0 + Named(base, LaidTo(ts, m))
  {
    hide Chosen, Partners, Rest, Named, Occurrence, Best, Image, LaidFrom, LaidTo, ByPosition;
    var used;
    m, used := PairGroup(Facts(fs, facts), Facts(ts, facts));
    BestShape(fs, ts, facts, m);
    LaidSizes(fs, ts, facts, m);
    var n;
    outFrom, outTo, n := NamePairs(base, fs, ts, m, from0, to0);
    if forall i | 0 <= i < |m| :: m[i] >= 0 {
      AllPaired(m);
    }
    outFrom, n := NameLeftFrom(base, fs, m, from0, n, outFrom);
    outTo := NameLeftTo(base, ts, m, used, to0, outTo, n);
  }

  lemma BestShape<T, K>(fs: seq<T>, ts: seq<T>, facts: T -> K, m: Match)
    requires Best(Facts(fs, facts), Facts(ts, facts), m)
    ensures |m| == |fs| && OneToOne(m, |ts|)
  {
  }

  lemma NothingRests<T>(ts: seq<T>, used: seq<bool>)
    requires |ts| == |used|
    ensures Rest(ts[..0], used[..0]) == []
  {
  }

  // ---- what the two maps hold ----

  /** How many positions differ. */
  function DiffCount<K(==)>(xs: seq<K>, ys: seq<K>): nat
    requires |xs| == |ys|
  {
    if xs == [] then 0 else
      var n := |xs| - 1;
      DiffCount(xs[..n], ys[..n]) + if xs[n] == ys[n] then 0 else 1
  }

  lemma {:induction false} NoDiffs<K>(xs: seq<K>, ys: seq<K>)
    requires |xs| == |ys| && DiffCount(xs, ys) == 0
    ensures xs == ys
  {
    if xs != [] {
      NoDiffs(xs[..|xs| - 1], ys[..|ys| - 1]);
      assert xs == xs[..|xs| - 1] + [xs[|xs| - 1]];
    }
  }

  /** Of a group's pairs, those that differ are all but the equal ones. */
  lemma {:induction false} PairsThatDiffer<T, K>(fs: seq<T>, ts: seq<T>, facts: T -> K, m: Match)
    requires |m| == |fs| && OneToOne(m, |ts|)
    ensures |Chosen(fs, m, true)| == |Partners(ts, m)| == Pairs(m)
    ensures DiffCount(Facts(Chosen(fs, m, true), facts), Facts(Partners(ts, m), facts))
         == Pairs(m) - |EqualFacts(Facts(fs, facts), Facts(ts, facts), m)|
  {
    ChosenSizes(fs, m);
    PartnersSize(ts, m);
    if m != [] {
      hide Chosen, Partners, EqualFacts, DiffCount, Facts;
      var n := |m| - 1;
      PairsThatDiffer(fs[..n], ts, facts, m[..n]);
      assert m == m[..n + 1] && fs == fs[..n + 1];
      ChosenSnoc(fs, m, n, true);
      PartnersSnoc(ts, m, n);
      FactsPrefix(fs, facts, n);
      EqualFactsPrefix(Facts(fs, facts), Facts(ts, facts), m, n);
      if m[n] >= 0 {
        FactsSnoc(Chosen(fs[..n], m[..n], true), facts, fs[n]);
        FactsSnoc(Partners(ts, m[..n]), facts, ts[m[n]]);
        DiffCountSnoc(Facts(Chosen(fs[..n], m[..n], true), facts), facts(fs[n]), Facts(Partners(ts, m[..n]), facts),
          facts(ts[m[n]]));
      }
    }
  }

  lemma FactsPrefix<T, K>(items: seq<T>, facts: T -> K, n: nat)
    requires n <= |items|
    ensures Facts(items[..n], facts) == Facts(items, facts)[..n]
  {
  }

  lemma FactsSnoc<T, K>(items: seq<T>, facts: T -> K, x: T)
    ensures Facts(items + [x], facts) == Facts(items, facts) + [facts(x)]
  {
  }

  lemma DiffCountSnoc<K>(xs: seq<K>, x: K, ys: seq<K>, y: K)
    requires |xs| == |ys|
    ensures DiffCount(xs + [x], ys + [y]) == DiffCount(xs, ys) + if x == y then 0 else 1
  {
    assert (xs + [x])[..|xs|] == xs && (ys + [y])[..|ys|] == ys;
  }

  /** Only the items up to the last pairing matter to it. */
  lemma {:induction false} EqualFactsPrefix<K>(a: seq<K>, b: seq<K>, m: Match, n: nat)
    requires |m| == n + 1 <= |a|
    ensures EqualFacts(a, b, m)
         == EqualFacts(a[..n], b, m[..n])
            + if 0 <= m[n] < |b| && a[n] == b[m[n]] then multiset{a[n]} else multiset{}
  {
    EqualFactsLonger(a[..n], a, b, m[..n]);
  }

  lemma {:induction false} EqualFactsLonger<K>(a: seq<K>, a': seq<K>, b: seq<K>, m: Match)
    requires |m| <= |a| && a <= a'
    ensures EqualFacts(a, b, m) == EqualFacts(a', b, m)
  {
    if m != [] {
      EqualFactsLonger(a, a', b, m[..|m| - 1]);
    }
  }

  /** The name of the item laid i-th under a base. */
  function Nth(base: string, i: nat): string {
    Occurrence(base, i + 1)
  }

  ghost predicate FiledAs<T>(out: map<string, T>, base: string, layout: seq<T>) {
    forall i | 0 <= i < |layout| :: Nth(base, i) in out && out[Nth(base, i)] == layout[i]
  }

  lemma {:induction false} NamedFiles<T>(base: string, layout: seq<T>)
    ensures FiledAs(Named(base, layout), base, layout)
    ensures Named(base, layout).Keys == set i | 0 <= i < |layout| :: Nth(base, i)
  {
    hide Occurrence;
    if layout != [] {
      var n := |layout| - 1;
      NamedFiles(base, layout[..n]);
      forall i | 0 <= i < n
        ensures Nth(base, i) != Nth(base, n)
      {
        SameBase(base, i + 1, n + 1);
      }
      assert (set i | 0 <= i < |layout| :: Nth(base, i)) == (set i | 0 <= i < n :: Nth(base, i)) + {Nth(base, n)};
    }
  }

  lemma SameBase(base: string, m: nat, n: nat)
    requires m >= 1 && n >= 1 && m != n
    ensures Occurrence(base, m) != Occurrence(base, n)
  {
    if Occurrence(base, m) == Occurrence(base, n) {
      OccurrenceInjective(base, m, base, n);
    }
  }

  /** No key reads as a repeat of another. */
  ghost predicate Plain(bases: set<string>) {
    forall a, b, n | a in bases && b in bases :: !Repeats(a, b, n)
  }

  lemma PlainNamesApart(bases: set<string>, a: string, i: nat, b: string, j: nat)
    requires Plain(bases) && a in bases && b in bases && Nth(a, i) == Nth(b, j)
    ensures a == b && i == j
  {
    OccurrenceInjective(a, i + 1, b, j + 1);
  }

  /** Keys all plain clash nowhere. */
  lemma PlainNeverClashes<T>(items: seq<T>, key: T -> string, bases: set<string>)
    requires Plain(bases) && KeySet(items, key) <= bases
    ensures !Clash(Keys(items, key))
  {
    var keys := Keys(items, key);
    forall a, b, n
      ensures !ClashOf(keys, a, b, n)
    {
      CountIn(keys, b);
      assert (a in keys <==> a in KeySet(items, key)) && (b in keys <==> b in KeySet(items, key));
    }
  }

  /** Where no key clashes, an item's name is its alone. */
  lemma NamesApart<T>(items: seq<T>, key: T -> string, a: string, i: nat, b: string, j: nat)
    requires !Clash(Keys(items, key)) && i < |Group(items, key, a)| && j < |Group(items, key, b)|
    requires Nth(a, i) == Nth(b, j)
    ensures a == b && i == j
  {
    var keys := Keys(items, key);
    NoGroup(items, key, a);
    NoGroup(items, key, b);
    CountIn(keys, a);
    CountIn(keys, b);
    OccurrenceInjective(a, i + 1, b, j + 1);
    assert !ClashOf(keys, a, b, j + 1) && !ClashOf(keys, b, a, i + 1);
  }

  // ---- the whole of both sides ----

  function KeySet<T>(items: seq<T>, key: T -> string): set<string> {
    set k | k in Keys(items, key)
  }

  method GroupAll<T>(items: seq<T>, key: T -> string) returns (groups: map<string, seq<T>>)
    ensures groups.Keys == KeySet(items, key)
    ensures forall b | b in groups :: groups[b] == Group(items, key, b)
  {
    groups := map[];
    for n := 0 to |items|
      invariant groups.Keys == KeySet(items[..n], key)
      invariant forall b | b in groups :: groups[b] == Group(items[..n], key, b)
    {
      var k := key(items[n]);
      assert items[..n + 1][..n] == items[..n];
      assert Keys(items[..n + 1], key) == Keys(items[..n], key) + [k];
      if k !in groups {
        NoGroup(items[..n], key, k);
      }
      groups := groups[k := (if k in groups then groups[k] else []) + [items[n]]];
    }
    assert items[..|items|] == items;
  }

  lemma {:induction false} NoGroup<T>(items: seq<T>, key: T -> string, b: string)
    ensures |Group(items, key, b)| == Count(Keys(items, key), b)
    ensures b !in KeySet(items, key) ==> Group(items, key, b) == []
  {
    if items != [] {
      var n := |items| - 1;
      NoGroup(items[..n], key, b);
      assert Keys(items, key) == Keys(items[..n], key) + [key(items[n])];
      assert Keys(items, key)[..n] == Keys(items[..n], key);
    }
  }

  /** A name one of these bases has an item for. */
  ghost predicate NameOf<T>(items: seq<T>, key: T -> string, bases: set<string>, name: string) {
    exists b, i: nat :: b in bases && HasNth(items, key, b, i, name)
  }

  predicate HasNth<T>(items: seq<T>, key: T -> string, b: string, i: nat, name: string) {
    i < |Group(items, key, b)| && name == Nth(b, i)
  }

  /** One side once the bases done so far are filed. */
  ghost predicate Side<T>(items: seq<T>, key: T -> string, done: set<string>,
                          out: map<string, T>, layouts: map<string, seq<T>>) {
    && layouts.Keys == done
    && (forall b | b in done :: |layouts[b]| == |Group(items, key, b)|)
    && (forall name :: name in out <==> NameOf(items, key, done, name))
    && (!Clash(Keys(items, key)) ==> forall b | b in done :: FiledAs(out, b, layouts[b]))
  }

  lemma SideGrows<T>(items: seq<T>, key: T -> string, done: set<string>,
                     out: map<string, T>, layouts: map<string, seq<T>>, base: string, layout: seq<T>)
    requires Side(items, key, done, out, layouts) && base !in done
    requires |layout| == |Group(items, key, base)|
    ensures Side(items, key, done + {base}, out + Named(base, layout), layouts[base := layout])
  {
    hide Named, Group, Nth, Clash;
    var out', done' := out + Named(base, layout), done + {base};
    NamedFiles(base, layout);
    forall name
      ensures name in out' <==> NameOf(items, key, done', name)
    {
      if name in out {
        var b, i :| b in done && HasNth(items, key, b, i, name);
        assert b in done';
      }
      if name in Named(base, layout) {
        var i :| 0 <= i < |layout| && name == Nth(base, i);
        assert HasNth(items, key, base, i, name);
      }
      if NameOf(items, key, done', name) {
        var b, i :| b in done' && HasNth(items, key, b, i, name);
        if b == base {
          assert Nth(base, i) in Named(base, layout);
        } else {
          assert NameOf(items, key, done, name);
        }
      }
    }
    if !Clash(Keys(items, key)) {
      forall b, i | b in done && 0 <= i < |layouts[b]|
        ensures Nth(b, i) !in Named(base, layout)
      {
        if Nth(b, i) in Named(base, layout) {
          var j :| 0 <= j < |layout| && Nth(b, i) == Nth(base, j);
          NamesApart(items, key, b, i, base, j);
        }
      }
    }
  }

  /** Every name of every base is what plain indexing files. */
  lemma NamesAreIndexed<T>(items: seq<T>, key: T -> string, bases: set<string>, name: string)
    requires KeySet(items, key) <= bases
    ensures NameOf(items, key, bases, name) <==> name in Indexed(items, key)
  {
    hide Indexed, Occurrence, Group;
    var keys := Keys(items, key);
    assert items[..|items|] == items;
    IndexedNames(items, key, |items|);
    if NameOf(items, key, bases, name) {
      var b, i: nat :| b in bases && HasNth(items, key, b, i, name);
      NoGroup(items, key, b);
      var j := RepeatAt(keys, b, i + 1);
      assert Name(keys, j) == name;
    }
    if name in Indexed(items, key) {
      var j: nat :| j < |items| && Name(keys, j) == name;
      var b, c := keys[j], Count(keys[..j + 1], keys[j]);
      NoGroup(items, key, b);
      CountAt(keys, j);
      CountGrows(keys, b, j + 1);
      assert b in keys && HasNth(items, key, b, c - 1, name);
    }
  }

  ghost predicate Planned<T, K>(from: seq<T>, to: seq<T>, key: T -> string, facts: T -> K, plan: map<string, Match>) {
    forall b | b in plan :: PlannedFor(Facts(Group(from, key, b), facts), Facts(Group(to, key, b), facts), plan[b])
  }

  ghost predicate PlannedFor<K>(fs: seq<K>, ts: seq<K>, m: Match) {
    Best(fs, ts, m) && ByPosition(fs, ts, m)
  }

  /** Both sides name the same items and tell them the same. */
  ghost predicate Agree<T, K>(outFrom: map<string, T>, outTo: map<string, T>, facts: T -> K) {
    outFrom.Keys == outTo.Keys && forall k | k in outFrom :: facts(outFrom[k]) == facts(outTo[k])
  }

  lemma AgreeGrows<T, K>(outFrom: map<string, T>, outTo: map<string, T>, facts: T -> K, base: string, x: seq<T>,
                         y: seq<T>)
    requires Agree(outFrom, outTo, facts) && Facts(x, facts) == Facts(y, facts)
    ensures Agree(outFrom + Named(base, x), outTo + Named(base, y), facts)
  {
    hide Named, Nth;
    NamedFiles(base, x);
    NamedFiles(base, y);
    assert |x| == |Facts(x, facts)| == |y|;
    forall k | k in Named(base, x)
      ensures facts(Named(base, x)[k]) == facts(Named(base, y)[k])
    {
      var i :| 0 <= i < |x| && k == Nth(base, i);
      assert Facts(x, facts)[i] == Facts(y, facts)[i];
    }
  }

  /** A group paired with itself is laid out alike on both sides. */
  lemma LaidWithItself<T, K>(fs: seq<T>, facts: T -> K, m: Match)
    requires Best(Facts(fs, facts), Facts(fs, facts), m)
    ensures Facts(LaidFrom(fs, m), facts) == Facts(LaidTo(fs, m), facts)
  {
    hide Chosen, Partners, Rest, EqualFacts, Pairs;
    BestShape(fs, fs, facts, m);
    SharedWithItself(Facts(fs, facts));
    PairsThatDiffer(fs, fs, facts, m);
    LaidSizes(fs, fs, facts, m);
    NoDiffs(Facts(Chosen(fs, m, true), facts), Facts(Partners(fs, m), facts));
    assert LaidFrom(fs, m) == Chosen(fs, m, true) && LaidTo(fs, m) == Partners(fs, m);
  }

  /** What PairIndex promises of its two maps: the best pairing of every group, each group filed in order. */
  ghost predicate Paired<T, K>(from: seq<T>, to: seq<T>, key: T -> string, facts: T -> K,
                               outFrom: map<string, T>, outTo: map<string, T>, plan: map<string, Match>) {
    && plan.Keys == KeySet(from, key) + KeySet(to, key)
    && Planned(from, to, key, facts, plan)
    && outFrom.Keys == Indexed(from, key).Keys && outTo.Keys == Indexed(to, key).Keys
    && (forall b | b in plan :: |plan[b]| == |Group(from, key, b)|)
    && (!Clash(Keys(from, key)) ==> forall b | b in plan :: FiledFrom(from, key, outFrom, b, plan[b]))
    && (!Clash(Keys(to, key)) ==> forall b | b in plan :: FiledTo(to, key, outTo, b, plan[b]))
  }

  ghost predicate FiledFrom<T>(from: seq<T>, key: T -> string, outFrom: map<string, T>, b: string, m: Match) {
    |m| == |Group(from, key, b)| && FiledAs(outFrom, b, LaidFrom(Group(from, key, b), m))
  }

  ghost predicate FiledTo<T>(to: seq<T>, key: T -> string, outTo: map<string, T>, b: string, m: Match) {
    FiledAs(outTo, b, LaidTo(Group(to, key, b), m))
  }

  /** How each group done so far is laid out. */
  ghost predicate Laid<T>(from: seq<T>, to: seq<T>, key: T -> string, plan: map<string, Match>,
                          laidFrom: map<string, seq<T>>, laidTo: map<string, seq<T>>) {
    && laidFrom.Keys == laidTo.Keys == plan.Keys
    && forall b | b in plan :: LaidBase(from, to, key, b, plan[b], laidFrom[b], laidTo[b])
  }

  ghost predicate LaidBase<T>(from: seq<T>, to: seq<T>, key: T -> string, b: string, m: Match, x: seq<T>, y: seq<T>) {
    |m| == |Group(from, key, b)| && x == LaidFrom(Group(from, key, b), m) && y == LaidTo(Group(to, key, b), m)
  }

  /** What holds once some of the groups are filed. */
  ghost predicate Filed<T, K>(from: seq<T>, to: seq<T>, key: T -> string, facts: T -> K,
                              outFrom: map<string, T>, outTo: map<string, T>, plan: map<string, Match>,
                              laidFrom: map<string, seq<T>>, laidTo: map<string, seq<T>>) {
    && Side(from, key, plan.Keys, outFrom, laidFrom) && Side(to, key, plan.Keys, outTo, laidTo)
    && Planned(from, to, key, facts, plan) && Laid(from, to, key, plan, laidFrom, laidTo)
    && (from == to ==> Agree(outFrom, outTo, facts))
  }

  lemma FileBase<T, K>(from: seq<T>, to: seq<T>, key: T -> string, facts: T -> K,
                       outFrom: map<string, T>, outTo: map<string, T>, plan: map<string, Match>,
                       laidFrom: map<string, seq<T>>, laidTo: map<string, seq<T>>, base: string, m: Match)
    requires Filed(from, to, key, facts, outFrom, outTo, plan, laidFrom, laidTo)
    requires base !in plan
    requires PlannedFor(Facts(Group(from, key, base), facts), Facts(Group(to, key, base), facts), m)
    ensures |m| == |Group(from, key, base)|
    ensures var x, y := LaidFrom(Group(from, key, base), m), LaidTo(Group(to, key, base), m);
            Filed(from, to, key, facts, outFrom + Named(base, x), outTo + Named(base, y), plan[base := m],
              laidFrom[base := x], laidTo[base := y])
  {
    hide Side, LaidFrom, LaidTo, Best, ByPosition, Agree, Named, Group;
    var fs, ts := Group(from, key, base), Group(to, key, base);
    BestShape(fs, ts, facts, m);
    LaidSizes(fs, ts, facts, m);
    SideGrows(from, key, plan.Keys, outFrom, laidFrom, base, LaidFrom(fs, m));
    SideGrows(to, key, plan.Keys, outTo, laidTo, base, LaidTo(ts, m));
    assert plan[base := m].Keys == plan.Keys + {base};
    if from == to {
      LaidWithItself(fs, facts, m);
      AgreeGrows(outFrom, outTo, facts, base, LaidFrom(fs, m), LaidTo(ts, m));
    }
  }

  /** Files every group under its numbered names, best pairs under equal numbers; the groups come in any order. */
  method PairIndex<T, K(==)>(from: seq<T>, to: seq<T>, key: T -> string, facts: T -> K)
    returns (outFrom: map<string, T>, outTo: map<string, T>, ghost plan: map<string, Match>)
    ensures Paired(from, to, key, facts, outFrom, outTo, plan)
    ensures from == to ==> Agree(outFrom, outTo, facts)
  {
    hide Group, Named, LaidFrom, LaidTo, Best, ByPosition, Filed, Paired, KeySet, Agree;
    var fromGroups := GroupAll(from, key);
    var toGroups := GroupAll(to, key);
    var all := fromGroups.Keys + toGroups.Keys;
    outFrom, outTo, plan := map[], map[], map[];
    ghost var laidFrom: map<string, seq<T>>, laidTo: map<string, seq<T>> := map[], map[];
    NothingFiled(from, to, key, facts);
    var left := all;
    while left != {}
      invariant left <= all && plan.Keys == all - left
      invariant Filed(from, to, key, facts, outFrom, outTo, plan, laidFrom, laidTo)
      decreases left
    {
      var base :| base in left;
      NoGroup(from, key, base);
      NoGroup(to, key, base);
      var fs := if base in fromGroups then fromGroups[base] else [];
      var ts := if base in toGroups then toGroups[base] else [];
      ghost var from0, to0, plan0 := outFrom, outTo, plan;
      var m;
      outFrom, outTo, m := PairBase(base, fs, ts, facts, outFrom, outTo);
      FileBase(from, to, key, facts, from0, to0, plan, laidFrom, laidTo, base, m);
      laidFrom, laidTo := laidFrom[base := LaidFrom(fs, m)], laidTo[base := LaidTo(ts, m)];
      plan := plan[base := m];
      left := left - {base};
      assert plan.Keys == plan0.Keys + {base} == all - left;
    }
    SidesPaired(from, to, key, facts, outFrom, outTo, plan, laidFrom, laidTo);
  }

  lemma NothingFiled<T, K>(from: seq<T>, to: seq<T>, key: T -> string, facts: T -> K)
    ensures Filed(from, to, key, facts, map[], map[], map[], map[], map[])
  {
    assert Side(from, key, {}, map[], map[]) && Side(to, key, {}, map[], map[]);
  }

  lemma SidesPaired<T, K>(from: seq<T>, to: seq<T>, key: T -> string, facts: T -> K, outFrom: map<string, T>,
                          outTo: map<string, T>,
                          plan: map<string, Match>, laidFrom: map<string, seq<T>>, laidTo: map<string, seq<T>>)
    requires plan.Keys == KeySet(from, key) + KeySet(to, key)
    requires Filed(from, to, key, facts, outFrom, outTo, plan, laidFrom, laidTo)
    ensures Paired(from, to, key, facts, outFrom, outTo, plan)
    ensures from == to ==> Agree(outFrom, outTo, facts)
  {
    hide Indexed, NameOf, Clash, FiledAs, LaidFrom, LaidTo, Group, Planned, Agree;
    forall name
      ensures name in outFrom <==> name in Indexed(from, key)
      ensures name in outTo <==> name in Indexed(to, key)
    {
      NamesAreIndexed(from, key, plan.Keys, name);
      NamesAreIndexed(to, key, plan.Keys, name);
    }
  }
}
