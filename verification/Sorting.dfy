/** Sorting by a comparison, and what a sorted order determines. */
module Sorting {
  import opened Text

  /** A strict weak order: asymmetric, and "not less" chains. */
  ghost predicate Ranks<T(!new)>(less: (T, T) -> bool) {
    && (forall a, b | less(a, b) :: !less(b, a))
    && (forall a, b, c | !less(a, b) && !less(b, c) :: !less(a, c))
  }

  ghost predicate Sorted<T>(s: seq<T>, less: (T, T) -> bool) {
    forall i, j | 0 <= i < j < |s| :: !less(s[j], s[i])
  }

  /** What sort.Slice leaves: the same items, none before one that is less. */
  method SortBy<T(!new)>(s: seq<T>, less: (T, T) -> bool) returns (out: seq<T>)
    requires Ranks(less)
    ensures Sorted(out, less) && multiset(out) == multiset(s)
  {
    hide Ranks, Sorted;
    out := [];
    NothingSorted(less);
    for n := 0 to |s|
      invariant Sorted(out, less) && multiset(out) == multiset(s[..n])
    {
      var x, p := s[n], |out|;
      while p > 0 && less(x, out[p - 1])
        invariant 0 <= p <= |out|
        invariant forall i | p <= i < |out| :: less(x, out[i])
      {
        p := p - 1;
      }
      InsertKeepsSorted(out, x, p, less);
      assert s[..n + 1] == s[..n] + [x];
      InsertAdds(out, x, p);
      out := out[..p] + [x] + out[p..];
    }
    assert s[..|s|] == s;
  }

  lemma NothingSorted<T>(less: (T, T) -> bool)
    ensures Sorted([], less)
  {
  }

  lemma InsertAdds<T>(s: seq<T>, x: T, p: nat)
    requires p <= |s|
    ensures multiset(s[..p] + [x] + s[p..]) == multiset(s) + multiset{x}
  {
    assert s == s[..p] + s[p..];
  }

  lemma InsertKeepsSorted<T(!new)>(s: seq<T>, x: T, p: nat, less: (T, T) -> bool)
    requires Ranks(less) && Sorted(s, less) && p <= |s|
    requires forall i | p <= i < |s| :: less(x, s[i])
    requires p > 0 ==> !less(x, s[p - 1])
    ensures Sorted(s[..p] + [x] + s[p..], less)
  {
    forall i | 0 <= i < p
      ensures !less(x, s[i])
    {
      if i < p - 1 {
        assert !less(x, s[p - 1]) && !less(s[p - 1], s[i]);
      }
    }
    assert forall i | p <= i < |s| :: !less(s[i], x);
  }

  lemma LessRanks()
    ensures Ranks(Less)
  {
    forall a, b | Less(a, b)
      ensures !Less(b, a)
    {
      LessTrichotomy(a, b);
    }
    forall a, b, c | !Less(a, b) && !Less(b, c)
      ensures !Less(a, c)
    {
      LessTrichotomy(a, b);
      LessTrichotomy(b, c);
      LessTrichotomy(a, c);
      if Less(b, a) && Less(c, b) {
        LessTransitive(c, b, a);
      }
    }
  }

  method SortStrings(s: seq<string>) returns (out: seq<string>)
    ensures Sorted(out, Less) && multiset(out) == multiset(s)
  {
    LessRanks();
    out := SortBy(s, Less);
  }

  /** A bag of strings has one sorted order. */
  lemma {:induction false} OneSorting(x: seq<string>, y: seq<string>)
    requires Sorted(x, Less) && Sorted(y, Less) && multiset(x) == multiset(y)
    ensures x == y
  {
    hide Less, Sorted;
    assert |x| == |multiset(x)| == |multiset(y)| == |y|;
    if x != [] {
      var n := |x| - 1;
      LastIsMost(x, y);
      LastIsMost(y, x);
      LessTrichotomy(x[n], y[n]);
      WithoutLast(x);
      WithoutLast(y);
      OneSorting(x[..n], y[..n]);
    }
  }

  lemma WithoutLast(x: seq<string>)
    requires x != [] && Sorted(x, Less)
    ensures var n := |x| - 1;
      x == x[..n] + [x[n]] && Sorted(x[..n], Less) && multiset(x[..n]) == multiset(x) - multiset{x[n]}
  {
    assert x == x[..|x| - 1] + [x[|x| - 1]];
  }

  lemma LastIsMost(x: seq<string>, y: seq<string>)
    requires Sorted(x, Less) && multiset(x) == multiset(y) && |x| == |y| > 0
    ensures !Less(x[|x| - 1], y[|y| - 1])
  {
    hide Less;
    assert y[|y| - 1] in multiset(y);
    assert y[|y| - 1] in x;
    var i :| 0 <= i < |x| && x[i] == y[|y| - 1];
    LessTrichotomy(x[i], x[i]);
  }

  /** Sorted without repeats is strictly ascending. */
  lemma SortedIsAscending(s: seq<string>)
    requires Sorted(s, Less) && forall i, j | 0 <= i < j < |s| :: s[i] != s[j]
    ensures Ascending(s)
  {
    hide Less;
    forall i, j | 0 <= i < j < |s|
      ensures Less(s[i], s[j])
    {
      LessTrichotomy(s[i], s[j]);
    }
  }

  /** One set of keys has one ascending order. */
  lemma {:induction false} OneOrder(x: seq<string>, y: seq<string>)
    requires Ascending(x) && Ascending(y) && forall k :: k in x <==> k in y
    ensures x == y
  {
    hide Less, Ascending;
    Inhabited(x);
    Inhabited(y);
    if x != [] && y != [] {
      var m, n := |x| - 1, |y| - 1;
      LastAscends(x, y[n]);
      LastAscends(y, x[m]);
      assert x[m] in y && y[n] in x;
      LessTrichotomy(x[m], y[n]);
      forall k
        ensures k in x[..m] <==> k in y[..n]
      {
        InButLast(x, k);
        InButLast(y, k);
      }
      OneOrder(x[..m], y[..n]);
      assert x == x[..m] + [x[m]] && y == y[..n] + [y[n]];
    }
  }

  lemma LastAscends(x: seq<string>, k: string)
    requires Ascending(x) && x != []
    ensures k in x ==> k == x[|x| - 1] || Less(k, x[|x| - 1])
    ensures Ascending(x[..|x| - 1])
  {
  }

  lemma Inhabited(x: seq<string>)
    ensures x != [] ==> exists k :: k in x
  {
    if x != [] {
      assert x[0] in x;
    }
  }

  lemma InButLast(x: seq<string>, k: string)
    requires Ascending(x) && x != []
    ensures k in x[..|x| - 1] <==> k in x && k != x[|x| - 1]
  {
    LessTrichotomy(k, k);
    assert x == x[..|x| - 1] + [x[|x| - 1]];
  }
}
