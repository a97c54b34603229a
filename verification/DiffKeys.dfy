/** How compared items are keyed: repeats of one key are numbered, which keeps them apart unless a key is already
    written like a numbered one. */
module DiffKeys {
  const DIGITS := "0123456789"

  function Itoa(n: nat): (s: string)
    ensures s != "" && (|s| == 1 <==> n < 10)
  {
    if n < 10 then [DIGITS[n]] else Itoa(n / 10) + [DIGITS[n % 10]]
  }

  function Occurrence(base: string, n: nat): string {
    if n == 1 then base else base + "#" + Itoa(n)
  }

  lemma DigitsDiffer(i: nat, j: nat)
    requires i < 10 && j < 10 && DIGITS[i] == DIGITS[j]
    ensures i == j && DIGITS[i] != '#'
  {
  }

  lemma {:induction false} ItoaHasNoHash(n: nat)
    ensures '#' !in Itoa(n)
  {
    DigitsDiffer(n % 10, n % 10);
    if n >= 10 {
      ItoaHasNoHash(n / 10);
    }
  }

  lemma {:induction false} ItoaInjective(m: nat, n: nat)
    requires Itoa(m) == Itoa(n)
    ensures m == n
  {
    var s := Itoa(m);
    if m >= 10 && n >= 10 {
      assert s[..|s| - 1] == Itoa(m / 10) && s[..|s| - 1] == Itoa(n / 10);
      assert s[|s| - 1] == DIGITS[m % 10] && s[|s| - 1] == DIGITS[n % 10];
      DigitsDiffer(m % 10, n % 10);
      ItoaInjective(m / 10, n / 10);
    } else if m < 10 && n < 10 {
      DigitsDiffer(m, n);
    }
  }

  /** a reads as the n-th repeat of b. */
  predicate Repeats(a: string, b: string, n: nat) {
    n >= 2 && a == b + "#" + Itoa(n)
  }

  lemma NumberedApart(b1: string, n1: nat, b2: string, n2: nat)
    requires b1 + "#" + Itoa(n1) == b2 + "#" + Itoa(n2)
    ensures b1 == b2 && n1 == n2
  {
    var d1, d2 := Itoa(n1), Itoa(n2);
    var s := b1 + "#" + d1;
    ItoaHasNoHash(n1);
    ItoaHasNoHash(n2);
    assert s == b2 + "#" + d2;
    assert s[|b1|] == '#' && forall i | |b1| < i < |s| :: s[i] in d1;
    assert s[|b2|] == '#' && forall i | |b2| < i < |s| :: s[i] in d2;
    assert b1 == s[..|b1|] == b2;
    assert d1 == s[|b1| + 1..] == d2;
    ItoaInjective(n1, n2);
  }

  /** Two names coincide only when one key reads as a repeat of the other. */
  lemma OccurrenceInjective(b1: string, n1: nat, b2: string, n2: nat)
    requires n1 >= 1 && n2 >= 1 && Occurrence(b1, n1) == Occurrence(b2, n2)
    ensures (b1 == b2 && n1 == n2) || (n1 == 1 && Repeats(b1, b2, n2)) || (n2 == 1 && Repeats(b2, b1, n1))
  {
    if n1 >= 2 && n2 >= 2 {
      NumberedApart(b1, n1, b2, n2);
    }
  }

  function Count(keys: seq<string>, k: string): nat {
    if keys == [] then 0 else Count(keys[..|keys| - 1], k) + if keys[|keys| - 1] == k then 1 else 0
  }

  /** The name item i is filed under. */
  function Name(keys: seq<string>, i: nat): string
    requires i < |keys|
  {
    Occurrence(keys[i], Count(keys[..i + 1], keys[i]))
  }

  function Keys<T>(items: seq<T>, key: T -> string): seq<string> {
    seq(|items|, i requires 0 <= i < |items| => key(items[i]))
  }

  function Indexed<T>(items: seq<T>, key: T -> string): map<string, T> {
    if items == [] then map[] else
      Indexed(items[..|items| - 1], key)[Name(Keys(items, key), |items| - 1) := items[|items| - 1]]
  }

  /** Files every item under its key and how often that key has come up so far. */
  method Index<T>(items: seq<T>, key: T -> string) returns (out: map<string, T>)
    ensures out == Indexed(items, key)
  {
    out := map[];
    var seen: map<string, nat> := map[];
    ghost var keys := Keys(items, key);
    for i := 0 to |items|
      invariant out == Indexed(items[..i], key)
      invariant forall k :: (if k in seen then seen[k] else 0) == Count(keys[..i], k)
    {
      var k := key(items[i]);
      assert keys[..i + 1][..i] == keys[..i] && items[..i + 1][..i] == items[..i];
      assert Keys(items[..i + 1], key) == keys[..i + 1] && keys[..i + 1][..i + 1] == keys[..i + 1];
      seen := seen[k := (if k in seen then seen[k] else 0) + 1];
      out := out[Occurrence(k, seen[k]) := items[i]];
    }
    assert items[..|items|] == items;
  }

  // ---- when nothing is dropped ----

  /** Some key reads as a repeat that another key really has. */
  ghost predicate Clash(keys: seq<string>) {
    exists a, b, n :: ClashOf(keys, a, b, n)
  }

  predicate ClashOf(keys: seq<string>, a: string, b: string, n: nat) {
    a in keys && Repeats(a, b, n) && n <= Count(keys, b)
  }

  lemma {:induction false} CountGrows(keys: seq<string>, k: string, i: nat)
    requires i <= |keys|
    ensures Count(keys[..i], k) <= Count(keys, k)
  {
    if i == |keys| {
      assert keys[..i] == keys;
    } else {
      CountGrows(keys[..|keys| - 1], k, i);
      assert keys[..|keys| - 1][..i] == keys[..i];
    }
  }

  lemma CountAt(keys: seq<string>, i: nat)
    requires i < |keys|
    ensures Count(keys[..i + 1], keys[i]) == Count(keys[..i], keys[i]) + 1
  {
    assert keys[..i + 1][..i] == keys[..i];
  }

  lemma CountsDiffer(keys: seq<string>, i: nat, j: nat)
    requires i < j < |keys| && keys[i] == keys[j]
    ensures Count(keys[..i + 1], keys[i]) < Count(keys[..j + 1], keys[j])
  {
    CountAt(keys, j);
    CountGrows(keys[..j], keys[i], i + 1);
    assert keys[..j][..i + 1] == keys[..i + 1];
  }

  /** The place of each repeat. */
  lemma {:induction false} RepeatAt(keys: seq<string>, k: string, n: nat) returns (j: nat)
    requires 1 <= n <= Count(keys, k)
    ensures j < |keys| && keys[j] == k && Count(keys[..j + 1], k) == n
  {
    var last := |keys| - 1;
    if keys[last] == k && Count(keys, k) == n {
      j := last;
      assert keys[..last + 1] == keys;
    } else {
      j := RepeatAt(keys[..last], k, n);
      assert keys[..last][..j + 1] == keys[..j + 1];
    }
  }

  lemma NamesCollide(keys: seq<string>, i: nat, j: nat)
    requires i < j < |keys| && Name(keys, i) == Name(keys, j)
    ensures Clash(keys)
  {
    var ni, nj := Count(keys[..i + 1], keys[i]), Count(keys[..j + 1], keys[j]);
    CountAt(keys, i);
    CountAt(keys, j);
    OccurrenceInjective(keys[i], ni, keys[j], nj);
    CountGrows(keys, keys[i], i + 1);
    CountGrows(keys, keys[j], j + 1);
    if keys[i] == keys[j] && ni == nj {
      CountsDiffer(keys, i, j);
    } else if Repeats(keys[i], keys[j], nj) {
      assert ClashOf(keys, keys[i], keys[j], nj);
    } else {
      assert ClashOf(keys, keys[j], keys[i], ni);
    }
  }

  lemma {:induction false} CountIn(keys: seq<string>, k: string)
    ensures Count(keys, k) > 0 <==> k in keys
  {
    if keys != [] {
      CountIn(keys[..|keys| - 1], k);
      assert keys == keys[..|keys| - 1] + [keys[|keys| - 1]];
    }
  }

  lemma ClashCollides(keys: seq<string>) returns (i: nat, j: nat)
    requires Clash(keys)
    ensures i < j < |keys| && Name(keys, i) == Name(keys, j)
  {
    var a, b, n :| ClashOf(keys, a, b, n);
    CountIn(keys, a);
    var x := RepeatAt(keys, a, 1);
    var y := RepeatAt(keys, b, n);
    assert |a| > |b|;
    i, j := if x < y then x else y, if x < y then y else x;
  }

  lemma IndexedSnoc<T>(items: seq<T>, key: T -> string, n: nat)
    requires n < |items|
    ensures Indexed(items[..n + 1], key) == Indexed(items[..n], key)[Name(Keys(items, key), n) := items[n]]
  {
    var keys := Keys(items, key);
    assert items[..n + 1][..n] == items[..n];
    assert Keys(items[..n + 1], key) == keys[..n + 1] && keys[..n + 1][..n + 1] == keys[..n + 1];
  }

  /** The names filed are those of the items so far. */
  lemma {:induction false} IndexedNames<T>(items: seq<T>, key: T -> string, n: nat)
    requires n <= |items|
    ensures Indexed(items[..n], key).Keys == set i: nat | i < n :: Name(Keys(items, key), i)
  {
    hide Name, Indexed;
    var keys := Keys(items, key);
    if n == 0 {
      IndexedNothing(items[..0], key);
    } else {
      IndexedNames(items, key, n - 1);
      IndexedSnoc(items, key, n - 1);
      var before, after := set i: nat | i < n - 1 :: Name(keys, i), set i: nat | i < n :: Name(keys, i);
      assert after == before + {Name(keys, n - 1)};
    }
  }

  lemma IndexedNothing<T>(items: seq<T>, key: T -> string)
    requires items == []
    ensures Indexed(items, key) == map[]
  {
  }

  ghost predicate NamesDistinct(keys: seq<string>, n: nat)
    requires n <= |keys|
  {
    forall i, j | 0 <= i < j < n :: Name(keys, i) != Name(keys, j)
  }

  lemma {:induction false} IndexedSize<T>(items: seq<T>, key: T -> string, n: nat)
    requires n <= |items|
    ensures |Indexed(items[..n], key)| <= n
    ensures |Indexed(items[..n], key)| == n <==> NamesDistinct(Keys(items, key), n)
  {
    hide Name, Indexed;
    var keys := Keys(items, key);
    if n == 0 {
      IndexedNothing(items[..0], key);
    } else {
      IndexedSize(items, key, n - 1);
      IndexedNames(items, key, n - 1);
      IndexedSnoc(items, key, n - 1);
      var before, name := Indexed(items[..n - 1], key), Name(keys, n - 1);
      GrownSize(before, name, items[n - 1]);
      if name in before {
        var i: nat :| i < n - 1 && Name(keys, i) == name;
      }
    }
  }

  lemma GrownSize<T>(m: map<string, T>, k: string, v: T)
    ensures |m[k := v]| == |m| + if k in m then 0 else 1
  {
    assert m[k := v].Keys == m.Keys + {k};
  }

  /** Numbering repeats drops no item exactly when no key reads as a repeat that another key really has. */
  lemma IndexIsLossless<T>(items: seq<T>, key: T -> string)
    ensures |Indexed(items, key)| == |items| <==> !Clash(Keys(items, key))
  {
    var keys := Keys(items, key);
    IndexedSize(items, key, |items|);
    assert items[..|items|] == items;
    if Clash(keys) {
      var i, j := ClashCollides(keys);
    }
    forall i, j | 0 <= i < j < |items| && Name(keys, i) == Name(keys, j)
      ensures Clash(keys)
    {
      NamesCollide(keys, i, j);
    }
  }

  const LOSSY := ["a", "a", "a#2"]

  lemma LossyClash()
    ensures Clash(LOSSY)
  {
    hide Clash;
    assert Itoa(2) == "2";
    assert Count(["a"], "a") == 1 by {
      assert ["a"][..0] == [];
    }
    assert Count(["a", "a"], "a") == 2 by {
      assert ["a", "a"][..1] == ["a"];
    }
    assert Count(LOSSY, "a") == 2 by {
      assert LOSSY[..2] == ["a", "a"];
    }
    assert LOSSY[2] == "a#2";
    ClashExists(LOSSY, "a#2", "a", 2);
  }

  lemma ClashExists(keys: seq<string>, a: string, b: string, n: nat)
    requires ClashOf(keys, a, b, n)
    ensures Clash(keys)
  {
  }

  /** A list that does lose an item: two items under "a" and one under "a#2". */
  lemma LossyIndex(key: string -> string)
    requires forall s :: key(s) == s
    ensures |Indexed(LOSSY, key)| < |LOSSY|
  {
    hide Indexed, Clash;
    LossyClash();
    assert Keys(LOSSY, key) == LOSSY;
    IndexIsLossless(LOSSY, key);
    IndexedSize(LOSSY, key, |LOSSY|);
    assert LOSSY[..|LOSSY|] == LOSSY;
  }
}
