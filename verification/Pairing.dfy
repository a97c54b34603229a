/** Pairing the repeats of one key so that a comparison reports the least. Items are told apart
    by the facts the comparison reads, so an item is its facts here. */
module Pairing {
  /** Where each from item went: a position among the to items, or -1. */
  type Match = seq<int>

  ghost predicate OneToOne(m: Match, size: nat) {
    && (forall i | 0 <= i < |m| :: -1 <= m[i] < size)
    && (forall i, j | 0 <= i < j < |m| && m[i] >= 0 :: m[i] != m[j])
  }

  function Pairs(m: Match): nat {
    if m == [] then 0 else Pairs(m[..|m| - 1]) + if m[|m| - 1] >= 0 then 1 else 0
  }

  predicate PairedEqual<K(==)>(a: seq<K>, b: seq<K>, m: Match, i: nat)
    requires i < |m| <= |a|
  {
    0 <= m[i] < |b| && a[i] == b[m[i]]
  }

  /** The facts of the items paired with their equal. */
  function EqualFacts<K(==)>(a: seq<K>, b: seq<K>, m: Match): multiset<K>
    requires |m| <= |a|
  {
    if m == [] then multiset{} else
      var i := |m| - 1;
      EqualFacts(a, b, m[..i]) + if PairedEqual(a, b, m, i) then multiset{a[i]} else multiset{}
  }

  /** The facts of the items left without a partner. */
  function Unmatched<K(==)>(a: seq<K>, m: Match): multiset<K>
    requires |m| <= |a|
  {
    if m == [] then multiset{} else
      var i := |m| - 1;
      Unmatched(a, m[..i]) + if m[i] < 0 then multiset{a[i]} else multiset{}
  }

  /** The facts whose mark is this. */
  function Marked<K(==)>(s: seq<K>, marks: seq<bool>, mark: bool): multiset<K>
    requires |s| == |marks|
  {
    if s == [] then multiset{} else
      Marked(s[..|s| - 1], marks[..|s| - 1], mark) + if marks[|s| - 1] == mark then multiset{s[|s| - 1]} else multiset{}
  }

  function MarkCount(marks: seq<bool>): nat {
    if marks == [] then 0 else MarkCount(marks[..|marks| - 1]) + if marks[|marks| - 1] then 1 else 0
  }

  lemma {:induction false} MarkedSplit<K>(s: seq<K>, marks: seq<bool>)
    requires |s| == |marks|
    ensures Marked(s, marks, true) + Marked(s, marks, false) == multiset(s)
  {
    if s != [] {
      MarkedSplit(s[..|s| - 1], marks[..|s| - 1]);
      assert s == s[..|s| - 1] + [s[|s| - 1]];
    }
  }

  lemma {:induction false} MarkedIsSomewhere<K>(s: seq<K>, marks: seq<bool>, mark: bool, k: K) returns (j: nat)
    requires |s| == |marks| && k in Marked(s, marks, mark)
    ensures j < |s| && marks[j] == mark && s[j] == k
  {
    var n := |s| - 1;
    if marks[n] == mark && s[n] == k {
      j := n;
    } else {
      j := MarkedIsSomewhere(s[..n], marks[..n], mark, k);
    }
  }

  lemma {:induction false} MarkedOccurs<K>(s: seq<K>, marks: seq<bool>, mark: bool, j: nat)
    requires |s| == |marks| && j < |s| && marks[j] == mark
    ensures s[j] in Marked(s, marks, mark)
  {
    if j < |s| - 1 {
      MarkedOccurs(s[..|s| - 1], marks[..|s| - 1], mark, j);
    }
  }

  lemma CarryOver<K>(x: multiset<K>, p: multiset<K>, y: multiset<K>, q: multiset<K>, more: multiset<K>)
    requires x + p == y + q
    ensures (x + more) + p == (y + more) + q
  {
    assert (x + more) + p == (x + p) + more;
    assert (y + more) + q == (y + q) + more;
  }

  function Alone<K(==)>(k: K, there: bool): multiset<K> {
    if there then multiset{k} else multiset{}
  }

  lemma MarkedSnoc<K>(s: seq<K>, marks: seq<bool>, mark: bool)
    requires |s| == |marks| && s != []
    ensures var n := |s| - 1; Marked(s, marks, mark) == Marked(s[..n], marks[..n], mark) + Alone(s[n], marks[n] == mark)
  {
  }

  /** Marking one more moves exactly its fact across. */
  lemma {:induction false} MarkMoves<K>(s: seq<K>, marks: seq<bool>, j: nat, mark: bool)
    requires |s| == |marks| && j < |s| && !marks[j]
    ensures Marked(s, marks[j := true], mark) + Alone(s[j], !mark) == Marked(s, marks, mark) + Alone(s[j], mark)
  {
    hide Marked;
    var n := |s| - 1;
    var marks' := marks[j := true];
    MarkedSnoc(s, marks, mark);
    MarkedSnoc(s, marks', mark);
    if j < n {
      MarkMoves(s[..n], marks[..n], j, mark);
      assert marks'[..n] == marks[..n][j := true] && s[..n][j] == s[j];
      CarryOver(Marked(s[..n], marks'[..n], mark), Alone(s[j], !mark),
        Marked(s[..n], marks[..n], mark), Alone(s[j], mark),
        Alone(s[n], marks[n] == mark));
    } else {
      assert marks'[..n] == marks[..n];
    }
  }

  lemma {:induction false} MarkAdds(marks: seq<bool>, j: nat)
    requires j < |marks| && !marks[j]
    ensures MarkCount(marks[j := true]) == MarkCount(marks) + 1
  {
    var n := |marks| - 1;
    var marks' := marks[j := true];
    if j < n {
      MarkAdds(marks[..n], j);
      assert marks'[..n] == marks[..n][j := true];
    } else {
      assert marks'[..n] == marks[..n];
    }
  }

  lemma MarkOne<K>(s: seq<K>, marks: seq<bool>, j: nat)
    requires |s| == |marks| && j < |s| && !marks[j]
    ensures Marked(s, marks[j := true], true) == Marked(s, marks, true) + multiset{s[j]}
    ensures Marked(s, marks, false) == Marked(s, marks[j := true], false) + multiset{s[j]}
    ensures MarkCount(marks[j := true]) == MarkCount(marks) + 1
  {
    hide Marked, MarkCount;
    MarkMoves(s, marks, j, true);
    MarkMoves(s, marks, j, false);
    MarkAdds(marks, j);
  }

  lemma {:induction false} UnmatchedOccurs<K>(a: seq<K>, m: Match, i: nat)
    requires i < |m| <= |a| && m[i] < 0
    ensures a[i] in Unmatched(a, m)
  {
    if i < |m| - 1 {
      UnmatchedOccurs(a, m[..|m| - 1], i);
    }
  }

  function Image(m: Match, size: nat): (marks: seq<bool>)
    ensures |marks| == size
  {
    seq(size, j => j in m)
  }

  lemma ImageSnoc(m: Match, x: int, size: nat)
    requires OneToOne(m + [x], size)
    ensures OneToOne(m, size)
    ensures x < 0 ==> Image(m + [x], size) == Image(m, size)
    ensures 0 <= x < size ==> !Image(m, size)[x] && Image(m + [x], size) == Image(m, size)[x := true]
  {
    var m' := m + [x];
    assert forall i | 0 <= i < |m| :: m'[i] == m[i];
    assert m'[|m|] == x;
  }

  /** Whatever the pairing, its pairs are as many as the to items it uses, and its equal facts are among theirs. */
  lemma {:induction false} ImageCounts<K>(a: seq<K>, b: seq<K>, m: Match)
    requires |m| <= |a| && OneToOne(m, |b|)
    ensures Pairs(m) == MarkCount(Image(m, |b|))
    ensures EqualFacts(a, b, m) <= Marked(b, Image(m, |b|), true)
    ensures EqualFacts(a, b, m) <= multiset(a[..|m|])
    ensures Pairs(m) <= |m|
  {
    if m == [] {
      NoneMarked(b, Image(m, |b|));
    } else {
      var i := |m| - 1;
      assert m == m[..i] + [m[i]];
      ImageSnoc(m[..i], m[i], |b|);
      hide OneToOne, Marked, MarkCount, Image;
      ImageCounts(a, b, m[..i]);
      assert a[..|m|] == a[..i] + [a[i]];
      if m[i] >= 0 {
        MarkOne(b, Image(m[..i], |b|), m[i]);
      }
    }
  }

  lemma {:induction false} NoneMarked<K>(s: seq<K>, marks: seq<bool>)
    requires |s| == |marks| && forall j | 0 <= j < |marks| :: !marks[j]
    ensures MarkCount(marks) == 0 && Marked(s, marks, true) == multiset{} && Marked(s, marks, false) == multiset(s)
  {
    if s != [] {
      NoneMarked(s[..|s| - 1], marks[..|s| - 1]);
      assert s == s[..|s| - 1] + [s[|s| - 1]];
    }
  }

  lemma {:induction false} AllMarked(marks: seq<bool>)
    ensures MarkCount(marks) <= |marks|
    ensures (forall j | 0 <= j < |marks| :: marks[j]) ==> MarkCount(marks) == |marks|
  {
    if marks != [] {
      AllMarked(marks[..|marks| - 1]);
    }
  }

  lemma {:induction false} AllPaired(m: Match)
    requires forall i | 0 <= i < |m| :: m[i] >= 0
    ensures Pairs(m) == |m|
  {
    if m != [] {
      AllPaired(m[..|m| - 1]);
    }
  }

  function Least(x: nat, y: nat): nat {
    if x < y then x else y
  }

  /** No pairing has more pairs than the shorter side, nor more equal pairs than the facts both sides share. */
  lemma NoBetterPairing<K>(a: seq<K>, b: seq<K>, m: Match)
    requires |m| == |a| && OneToOne(m, |b|)
    ensures Pairs(m) <= Least(|a|, |b|)
    ensures |EqualFacts(a, b, m)| <= |multiset(a) * multiset(b)|
  {
    hide EqualFacts, Marked, MarkCount, Pairs, Image;
    ImageCounts(a, b, m);
    AllMarked(Image(m, |b|));
    MarkedSplit(b, Image(m, |b|));
    assert a[..|a|] == a;
    assert EqualFacts(a, b, m) <= multiset(a) * multiset(b);
    SubsetSize(EqualFacts(a, b, m), multiset(a) * multiset(b));
  }

  lemma SubsetSize<K>(x: multiset<K>, y: multiset<K>)
    requires x <= y
    ensures |x| <= |y|
  {
    assert y == x + (y - x);
  }

  /** What a comparison reports of a pairing: pairs that differ, and whoever is left on either side. */
  function Reported<K(==)>(a: seq<K>, b: seq<K>, m: Match): int
    requires |m| == |a|
  {
    (Pairs(m) - |EqualFacts(a, b, m)|) + (|a| - Pairs(m)) + (|b| - Pairs(m))
  }

  /** As many pairs as the shorter side allows, and as many equal ones as the facts allow. */
  ghost predicate Best<K>(a: seq<K>, b: seq<K>, m: Match) {
    && |m| == |a| && OneToOne(m, |b|)
    && Pairs(m) == Least(|a|, |b|)
    && |EqualFacts(a, b, m)| == |multiset(a) * multiset(b)|
  }

  /** A best pairing reports the least that any pairing can. */
  lemma BestReportsLeast<K>(a: seq<K>, b: seq<K>, best: Match, m: Match)
    requires Best(a, b, best)
    requires |m| == |a| && OneToOne(m, |b|)
    ensures Reported(a, b, best) <= Reported(a, b, m)
  {
    NoBetterPairing(a, b, m);
  }

  /** Between the passes: every pair is equal, and no unpaired item has an equal among the unused. */
  ghost predicate Equalised<K>(a: seq<K>, b: seq<K>, m: Match, used: seq<bool>) {
    && |m| <= |a| && |used| == |b| && OneToOne(m, |b|) && used == Image(m, |b|)
    && multiset(a[..|m|]) == EqualFacts(a, b, m) + Unmatched(a, m)
    && EqualFacts(a, b, m) == Marked(b, used, true)
    && Unmatched(a, m) !! Marked(b, used, false)
  }

  lemma EqualisedNothing<K>(a: seq<K>, b: seq<K>, used: seq<bool>)
    requires used == Image([], |b|)
    ensures Equalised(a, b, [], used)
  {
    NoneMarked(b, used);
  }

  lemma EqualisedHit<K>(a: seq<K>, b: seq<K>, m: Match, used: seq<bool>, j: nat)
    requires Equalised(a, b, m, used) && |m| < |a| && j < |b| && !used[j] && a[|m|] == b[j]
    ensures Equalised(a, b, m + [j], used[j := true])
  {
    hide Marked;
    var i, m' := |m|, m + [j as int];
    assert OneToOne(m', |b|);
    ImageSnoc(m, j, |b|);
    MarkOne(b, used, j);
    assert m'[..i] == m && a[..i + 1] == a[..i] + [a[i]];
    assert PairedEqual(a, b, m', i);
  }

  lemma EqualisedMiss<K>(a: seq<K>, b: seq<K>, m: Match, used: seq<bool>)
    requires Equalised(a, b, m, used) && |m| < |a|
    requires forall j | 0 <= j < |b| && !used[j] :: a[|m|] != b[j]
    ensures Equalised(a, b, m + [-1], used)
  {
    hide Marked;
    var i, m' := |m|, m + [-1];
    assert OneToOne(m', |b|);
    ImageSnoc(m, -1, |b|);
    if a[i] in Marked(b, used, false) {
      var j := MarkedIsSomewhere(b, used, false, a[i]);
    }
    assert m'[..i] == m && a[..i + 1] == a[..i] + [a[i]];
  }

  lemma EqualisedApart<K>(a: seq<K>, b: seq<K>, m: Match, used: seq<bool>, i: nat, j: nat)
    requires Equalised(a, b, m, used) && i < |m| && m[i] < 0 && j < |b| && !used[j]
    ensures a[i] != b[j]
  {
    UnmatchedOccurs(a, m, i);
    MarkedOccurs(b, used, false, j);
  }

  /** Equal repeats pair off to the last fact both sides share. */
  lemma EqualisedShares<K>(a: seq<K>, b: seq<K>, m: Match, used: seq<bool>)
    requires Equalised(a, b, m, used) && |m| == |a|
    ensures EqualFacts(a, b, m) == multiset(a) * multiset(b)
  {
    hide Marked, Unmatched, EqualFacts;
    MarkedSplit(b, used);
    assert a[..|a|] == a;
    var e, u, v := EqualFacts(a, b, m), Unmatched(a, m), Marked(b, used, false);
    assert (e + u) * (e + v) == e by {
      forall k
        ensures ((e + u) * (e + v))[k] == e[k]
      {
        assert u[k] == 0 || v[k] == 0;
      }
    }
  }

  lemma {:induction false} SameEqualFacts<K>(a: seq<K>, b: seq<K>, m: Match, m': Match)
    requires |m| == |m'| <= |a|
    requires forall i | 0 <= i < |m| :: PairedEqual(a, b, m, i) <==> PairedEqual(a, b, m', i)
    ensures EqualFacts(a, b, m) == EqualFacts(a, b, m')
  {
    if m != [] {
      var n := |m| - 1;
      assert forall i | 0 <= i < n :: PairedEqual(a, b, m[..n], i) <==> PairedEqual(a, b, m, i);
      assert forall i | 0 <= i < n :: PairedEqual(a, b, m'[..n], i) <==> PairedEqual(a, b, m', i);
      SameEqualFacts(a, b, m[..n], m'[..n]);
    }
  }

  /** Item i takes the first equal that none before it took, or goes without. */
  ghost predicate EqualTaken<K>(a: seq<K>, b: seq<K>, m: Match, i: nat)
    requires i < |m| <= |a|
  {
    if m[i] < 0 then m[i] == -1 && forall j | 0 <= j < |b| && j !in m[..i] :: a[i] != b[j]
    else
      && m[i] < |b| && m[i] !in m[..i] && a[i] == b[m[i]]
      && forall j | 0 <= j < m[i] && j !in m[..i] :: a[i] != b[j]
  }

  ghost predicate EqualsFirst<K>(a: seq<K>, b: seq<K>, m: Match) {
    |m| <= |a| && forall i | 0 <= i < |m| :: EqualTaken(a, b, m, i)
  }

  lemma EqualsMore<K>(a: seq<K>, b: seq<K>, m: Match, x: int)
    requires EqualsFirst(a, b, m) && |m| < |a| && EqualTaken(a, b, m + [x], |m|)
    ensures EqualsFirst(a, b, m + [x])
  {
    forall i | 0 <= i < |m|
      ensures EqualTaken(a, b, m + [x], i)
    {
      assert EqualTaken(a, b, m, i) && (m + [x])[..i] == m[..i] && (m + [x])[i] == m[i];
    }
  }

  lemma TakenHere<K>(a: seq<K>, b: seq<K>, m: Match, used: seq<bool>, j: nat)
    requires |m| < |a| && used == Image(m, |b|) && j <= |b|
    requires forall k | 0 <= k < j && !used[k] :: a[|m|] != b[k]
    requires j < |b| ==> !used[j] && a[|m|] == b[j]
    ensures EqualTaken(a, b, m + [if j < |b| then j else -1], |m|)
  {
    assert (m + [if j < |b| then j else -1])[..|m|] == m;
  }

  /** First pass: each item takes the first unused equal. */
  method PairEquals<K(==)>(a: seq<K>, b: seq<K>) returns (m: Match, used: seq<bool>)
    ensures |m| == |a| && Equalised(a, b, m, used) && EqualsFirst(a, b, m)
  {
    hide Equalised, Image, EqualsFirst;
    m, used := [], Image([], |b|);
    EqualisedNothing(a, b, used);
    NoEquals(a, b);
    for i := 0 to |a|
      invariant |m| == i && |used| == |b| && Equalised(a, b, m, used) && EqualsFirst(a, b, m)
    {
      UsedIsImage(a, b, m, used);
      var j := 0;
      while j < |b| && (used[j] || a[i] != b[j])
        invariant 0 <= j <= |b|
        invariant forall k | 0 <= k < j && !used[k] :: a[i] != b[k]
      {
        j := j + 1;
      }
      TakenHere(a, b, m, used, j);
      EqualsMore(a, b, m, if j < |b| then j else -1);
      if j < |b| {
        EqualisedHit(a, b, m, used, j);
        m, used := m + [j], used[j := true];
      } else {
        EqualisedMiss(a, b, m, used);
        m := m + [-1];
      }
    }
  }

  lemma NoEquals<K>(a: seq<K>, b: seq<K>)
    ensures EqualsFirst(a, b, [])
  {
  }

  lemma UsedIsImage<K>(a: seq<K>, b: seq<K>, m: Match, used: seq<bool>)
    requires Equalised(a, b, m, used)
    ensures used == Image(m, |b|)
  {
  }

  /** Item i keeps its equal; without one it takes the first to item that no equal and no item before it took. */
  ghost predicate RestTaken(size: nat, m0: Match, m: Match, i: nat)
    requires i < |m0| == |m|
  {
    if m0[i] >= 0 then m[i] == m0[i]
    else if m[i] < 0 then m[i] == -1 && forall j | 0 <= j < size :: j in m0 || j in m[..i]
    else
      && m[i] < size && m[i] !in m0 && m[i] !in m[..i]
      && forall j | 0 <= j < m[i] :: j in m0 || j in m[..i]
  }

  /** The pairing as it is made: equals first, each the first there is, then whoever is left, by position. */
  ghost predicate ByPosition<K>(a: seq<K>, b: seq<K>, m: Match) {
    exists m0 :: ByPositionFrom(a, b, m0, m)
  }

  ghost predicate ByPositionFrom<K>(a: seq<K>, b: seq<K>, m0: Match, m: Match) {
    EqualsFirst(a, b, m0) && |m| == |m0| == |a| && forall i | 0 <= i < |m| :: RestTaken(|b|, m0, m, i)
  }

  lemma {:induction false} EqualsAgree<K>(a: seq<K>, b: seq<K>, x: Match, y: Match, n: nat)
    requires EqualsFirst(a, b, x) && EqualsFirst(a, b, y) && n <= |x| && n <= |y|
    ensures x[..n] == y[..n]
  {
    if n > 0 {
      EqualsAgree(a, b, x, y, n - 1);
      assert EqualTaken(a, b, x, n - 1) && EqualTaken(a, b, y, n - 1);
      assert x[n - 1] == y[n - 1];
      assert x[..n] == x[..n - 1] + [x[n - 1]] && y[..n] == y[..n - 1] + [y[n - 1]];
    }
  }

  lemma {:induction false} RestAgrees<K>(a: seq<K>, b: seq<K>, m0: Match, x: Match, y: Match, n: nat)
    requires ByPositionFrom(a, b, m0, x) && ByPositionFrom(a, b, m0, y) && n <= |a|
    ensures x[..n] == y[..n]
  {
    if n > 0 {
      RestAgrees(a, b, m0, x, y, n - 1);
      assert RestTaken(|b|, m0, x, n - 1) && RestTaken(|b|, m0, y, n - 1);
      assert x[n - 1] == y[n - 1];
      assert x[..n] == x[..n - 1] + [x[n - 1]] && y[..n] == y[..n - 1] + [y[n - 1]];
    }
  }

  /** A group is paired in one way. */
  lemma PairingAgrees<K>(a: seq<K>, b: seq<K>, x: Match, y: Match)
    requires ByPosition(a, b, x) && ByPosition(a, b, y)
    ensures x == y
  {
    var x0 :| ByPositionFrom(a, b, x0, x);
    var y0 :| ByPositionFrom(a, b, y0, y);
    EqualsAgree(a, b, x0, y0, |a|);
    assert x0[..|a|] == x0 && y0[..|a|] == y0;
    RestAgrees(a, b, x0, x, y, |a|);
    assert x[..|a|] == x && y[..|a|] == y;
  }

  /** In the second pass: the first pass's pairs stand, and every pair added is of items the first pass left over. */
  ghost predicate Filling<K>(a: seq<K>, b: seq<K>, m0: Match, used0: seq<bool>, m: Match, used: seq<bool>) {
    && |m| == |m0| == |a| && |used0| == |used| == |b| && OneToOne(m, |b|) && used == Image(m, |b|)
    && (forall i | 0 <= i < |m| :: m[i] == m0[i] || (m0[i] < 0 <= m[i] < |b| && !used0[m[i]]))
    && (forall j | 0 <= j < |b| && used0[j] :: used[j])
  }

  lemma Fill<K>(a: seq<K>, b: seq<K>, m0: Match, used0: seq<bool>, m: Match, used: seq<bool>, i: nat, j: nat)
    requires Filling(a, b, m0, used0, m, used) && i < |m| && m[i] < 0 && j < |b| && !used[j]
    ensures Filling(a, b, m0, used0, m[i := j], used[j := true])
  {
    var m' := m[i := j as int];
    assert forall k | 0 <= k < |b| :: k in m' <==> k in m || k == j by {
      forall k | 0 <= k < |b| && k in m
        ensures k in m'
      {
        var x :| 0 <= x < |m| && m[x] == k;
        assert m'[x] == k;
      }
      assert m'[i] == j;
    }
  }

  /** Filling up adds no equal pair, and ends with one side used up. */
  lemma FilledIsBest<K>(a: seq<K>, b: seq<K>, m0: Match, used0: seq<bool>, m: Match, used: seq<bool>)
    requires Equalised(a, b, m0, used0) && Filling(a, b, m0, used0, m, used)
    requires (forall i | 0 <= i < |m| :: m[i] >= 0) || (forall j | 0 <= j < |b| :: used[j])
    ensures Best(a, b, m)
  {
    hide Marked, Unmatched, EqualFacts, MarkCount, Pairs;
    EqualisedShares(a, b, m0, used0);
    forall i | 0 <= i < |m|
      ensures PairedEqual(a, b, m0, i) <==> PairedEqual(a, b, m, i)
    {
      if m[i] != m0[i] {
        EqualisedApart(a, b, m0, used0, i, m[i]);
      }
    }
    SameEqualFacts(a, b, m0, m);
    ImageCounts(a, b, m);
    AllMarked(used);
    if forall i | 0 <= i < |m| :: m[i] >= 0 {
      AllPaired(m);
    }
  }

  lemma FillingNothing<K>(a: seq<K>, b: seq<K>, m0: Match, used0: seq<bool>)
    requires Equalised(a, b, m0, used0) && |m0| == |a|
    ensures Filling(a, b, m0, used0, m0, used0)
  {
  }

  /** Where item i gets the first unused, or none is left, everyone up to it is taken care of. */
  lemma RestGoesOn<K>(a: seq<K>, b: seq<K>, m0: Match, used0: seq<bool>, before: Match, i: nat, j: nat, m: Match)
    requires Filling(a, b, m0, used0, before, Image(before, |b|)) && i < |a| && j <= |b|
    requires forall k | i <= k < |a| :: before[k] == m0[k]
    requires forall k | 0 <= k < i :: RestTaken(|b|, m0, before, k)
    requires m == if before[i] < 0 && j < |b| then before[i := j] else before
    requires before[i] < 0 ==> (forall k | 0 <= k < j :: k in before) && (j < |b| ==> j !in before)
    ensures forall k | 0 <= k <= i :: RestTaken(|b|, m0, m, k)
  {
    forall k | 0 <= k < i
      ensures RestTaken(|b|, m0, m, k)
    {
      assert m[..k] == before[..k] && RestTaken(|b|, m0, before, k);
    }
    assert m[..i] == before[..i];
    forall x: int | 0 <= x < |b|
      ensures x in before <==> x in m0 || x in m[..i]
    {
      if x in before {
        var y :| 0 <= y < |a| && before[y] == x;
        assert y < i ==> m[..i][y] == x;
      }
      if x in m0 {
        var y :| 0 <= y < |a| && m0[y] == x;
        assert before[y] == x;
      }
    }
  }

  /** Two passes: each item takes an equal, then whoever is left takes whoever is left. */
  method PairGroup<K(==)>(a: seq<K>, b: seq<K>) returns (m: Match, used: seq<bool>)
    ensures Best(a, b, m) && used == Image(m, |b|) && ByPosition(a, b, m)
    ensures forall i, j | 0 <= i < |m| && 0 <= j < |b| :: m[i] >= 0 || used[j]
  {
    hide Equalised, EqualsFirst, RestTaken, Best;
    m, used := PairEquals(a, b);
    ghost var m0, used0 := m, used;
    FillingNothing(a, b, m0, used0);
    var j := 0;
    for i := 0 to |a|
      invariant 0 <= j <= |b| && Filling(a, b, m0, used0, m, used)
      invariant forall k | 0 <= k < j :: used[k]
      invariant forall k | 0 <= k < i :: m[k] >= 0 || j == |b|
      invariant (forall k | i <= k < |m| :: m[k] == m0[k]) && forall k | 0 <= k < i :: RestTaken(|b|, m0, m, k)
    {
      ghost var before := m;
      if m[i] < 0 {
        while j < |b| && used[j]
          invariant 0 <= j <= |b| && forall k | 0 <= k < j :: used[k]
        {
          j := j + 1;
        }
        assert used == Image(before, |b|);
        assert forall k | 0 <= k < j :: used[k] && Image(before, |b|)[k] == (k in before);
        if j < |b| {
          Fill(a, b, m0, used0, m, used, i, j);
          m, used := m[i := j], used[j := true];
        }
      }
      RestGoesOn(a, b, m0, used0, before, i, j, m);
    }
    FilledIsBest(a, b, m0, used0, m, used);
    assert ByPositionFrom(a, b, m0, m);
  }

  lemma SharedWithItself<K>(a: seq<K>)
    ensures multiset(a) * multiset(a) == multiset(a) && |multiset(a)| == |a|
  {
  }

  /** Comparing the other way round reports as much, with added and removed changing places. */
  lemma BestMirrored<K>(a: seq<K>, b: seq<K>, m: Match, m': Match)
    requires Best(a, b, m) && Best(b, a, m')
    ensures |a| - Pairs(m) == |a| - Pairs(m') && |b| - Pairs(m) == |b| - Pairs(m')
    ensures Pairs(m) - |EqualFacts(a, b, m)| == Pairs(m') - |EqualFacts(b, a, m')|
  {
    assert multiset(a) * multiset(b) == multiset(b) * multiset(a);
  }
}
