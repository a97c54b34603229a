/** Adding up a cost over a set of keys. */
module Totals {
  ghost function Total<K>(bases: set<K>, cost: map<K, int>): int
    requires bases <= cost.Keys
  {
    if bases == {} then 0 else
      var b :| b in bases;
      cost[b] + Total(bases - {b}, cost)
  }

  lemma {:induction false} TotalWithout<K>(bases: set<K>, cost: map<K, int>, b: K)
    requires bases <= cost.Keys && b in bases
    ensures Total(bases, cost) == cost[b] + Total(bases - {b}, cost)
  {
    var c :| c in bases && Total(bases, cost) == cost[c] + Total(bases - {c}, cost);
    if b != c {
      TotalWithout(bases - {c}, cost, b);
      TotalWithout(bases - {b}, cost, c);
      assert bases - {c} - {b} == bases - {b} - {c};
    }
  }

  lemma {:induction false} TotalAtMost<K>(bases: set<K>, cost: map<K, int>, cost': map<K, int>)
    requires bases <= cost.Keys && bases <= cost'.Keys && forall b | b in bases :: cost[b] <= cost'[b]
    ensures Total(bases, cost) <= Total(bases, cost')
  {
    if bases != {} {
      var b :| b in bases;
      TotalWithout(bases, cost, b);
      TotalWithout(bases, cost', b);
      TotalAtMost(bases - {b}, cost, cost');
    }
  }

  lemma TotalSame<K>(bases: set<K>, cost: map<K, int>, cost': map<K, int>)
    requires bases <= cost.Keys && bases <= cost'.Keys && forall b | b in bases :: cost[b] == cost'[b]
    ensures Total(bases, cost) == Total(bases, cost')
  {
    TotalAtMost(bases, cost, cost');
    TotalAtMost(bases, cost', cost);
  }

  /** Counting one more of a key adds one to the total. */
  lemma TotalBump<K>(counts: map<K, int>, k: K)
    ensures var more := counts[k := (if k in counts then counts[k] else 0) + 1];
      Total(more.Keys, more) == Total(counts.Keys, counts) + 1
  {
    var more := counts[k := (if k in counts then counts[k] else 0) + 1];
    TotalWithout(more.Keys, more, k);
    assert more.Keys - {k} == counts.Keys - {k};
    TotalSame(counts.Keys - {k}, counts, more);
    if k in counts {
      TotalWithout(counts.Keys, counts, k);
    } else {
      assert counts.Keys - {k} == counts.Keys;
    }
  }

  /** Where in a list something holds. */
  function Places<T>(s: seq<T>, p: T -> bool): set<nat> {
    set i: nat | i < |s| && p(s[i])
  }

  lemma PlacesSnoc<T>(s: seq<T>, p: T -> bool)
    requires s != []
    ensures var n := |s| - 1; |Places(s, p)| == |Places(s[..n], p)| + if p(s[n]) then 1 else 0
  {
    var n := |s| - 1;
    assert Places(s, p) == Places(s[..n], p) + if p(s[n]) then {n} else {};
  }

  lemma NoPlaces<T>(p: T -> bool)
    ensures Places([], p) == {}
  {
  }
}
