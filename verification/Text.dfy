/** Strings as the services read them: white space, trimming and byte order. */
module Text {
  /** Go's unicode.IsSpace: the White_Space property. */
  predicate IsSpace(c: char) {
    '\t' <= c <= '\r' || c == ' ' || c == '\U{0085}' || c == '\U{00A0}' || c == '\U{1680}'
    || '\U{2000}' <= c <= '\U{200A}' || c == '\U{2028}' || c == '\U{2029}' || c == '\U{202F}'
    || c == '\U{205F}' || c == '\U{3000}'
  }

  /** White space is these characters and no others. */
  lemma Spaces(c: char)
    ensures IsSpace(c) <==>
      c in {'\t', '\n', '\U{000B}', '\U{000C}', '\r', ' ', '\U{0085}', '\U{00A0}', '\U{1680}', '\U{2000}', '\U{2001}',
            '\U{2002}', '\U{2003}', '\U{2004}', '\U{2005}', '\U{2006}', '\U{2007}', '\U{2008}', '\U{2009}',
            '\U{200A}', '\U{2028}', '\U{2029}', '\U{202F}', '\U{205F}', '\U{3000}'}
  {
  }

  function TrimLeft(s: string): string {
    if s != "" && IsSpace(s[0]) then TrimLeft(s[1..]) else s
  }

  function TrimRight(s: string): string {
    if s != "" && IsSpace(s[|s| - 1]) then TrimRight(s[..|s| - 1]) else s
  }

  function TrimSpace(s: string): string {
    TrimRight(TrimLeft(s))
  }

  predicate Trimmed(s: string) {
    s == "" || (!IsSpace(s[0]) && !IsSpace(s[|s| - 1]))
  }

  predicate Blank(s: string) {
    forall c | c in s :: IsSpace(c)
  }

  lemma {:induction false} TrimLeftIsSuffix(s: string) returns (k: nat)
    ensures k <= |s| && TrimLeft(s) == s[k..] && Blank(s[..k])
    ensures TrimLeft(s) == "" || !IsSpace(TrimLeft(s)[0])
  {
    hide IsSpace;
    if s != "" && IsSpace(s[0]) {
      var j := TrimLeftIsSuffix(s[1..]);
      k := j + 1;
      BlankBehind(s, j);
    } else {
      k := 0;
    }
  }

  lemma BlankBehind(s: string, j: nat)
    requires s != "" && IsSpace(s[0]) && j < |s| && Blank(s[1..][..j])
    ensures Blank(s[..j + 1]) && s[1..][j..] == s[j + 1..]
  {
    hide IsSpace;
    forall c | c in s[..j + 1]
      ensures IsSpace(c)
    {
      var i :| 0 <= i < j + 1 && s[i] == c;
      assert i > 0 ==> s[1..][..j][i - 1] == c;
    }
  }

  lemma {:induction false} TrimRightIsPrefix(s: string) returns (k: nat)
    ensures k <= |s| && TrimRight(s) == s[..k] && Blank(s[k..])
    ensures TrimRight(s) == "" || !IsSpace(TrimRight(s)[|TrimRight(s)| - 1])
  {
    hide IsSpace;
    if s != "" && IsSpace(s[|s| - 1]) {
      k := TrimRightIsPrefix(s[..|s| - 1]);
      assert s[..|s| - 1][..k] == s[..k];
      assert s[k..] == s[..|s| - 1][k..] + [s[|s| - 1]];
    } else {
      k := |s|;
    }
  }

  /** Trimming keeps a slice of the text, drops only white space around it and leaves none at its ends. */
  lemma {:induction false} TrimSpaceSlice(s: string) returns (lo: nat, hi: nat)
    ensures lo <= hi <= |s| && TrimSpace(s) == s[lo..hi]
    ensures Blank(s[..lo]) && Blank(s[hi..])
    ensures Trimmed(TrimSpace(s))
    ensures TrimSpace(s) == "" <==> Blank(s)
  {
    hide IsSpace;
    lo := TrimLeftIsSuffix(s);
    var t := s[lo..];
    var k := TrimRightIsPrefix(t);
    hi := lo + k;
    assert t[..k] == s[lo..hi] && t[k..] == s[hi..];
    assert s == s[..lo] + s[lo..hi] + s[hi..];
    if k > 0 {
      assert TrimSpace(s)[0] == t[0];
      assert TrimSpace(s)[0] in s;
    }
  }

  lemma {:induction false} TrimmedIsFixed(s: string)
    requires Trimmed(s)
    ensures TrimSpace(s) == s
  {
  }

  /** Byte order on strings, as Go's < reads them. */
  predicate Less(a: string, b: string) {
    b != "" && (a == "" || a[0] < b[0] || (a[0] == b[0] && Less(a[1..], b[1..])))
  }

  lemma {:induction false} LessTrichotomy(a: string, b: string)
    ensures a == b || Less(a, b) || Less(b, a)
    ensures !(Less(a, b) && Less(b, a)) && !Less(a, a)
  {
    if a != "" && b != "" {
      LessTrichotomy(a[1..], b[1..]);
      LessTrichotomy(a[1..], a[1..]);
      assert a[0] == b[0] && a[1..] == b[1..] ==> a == [a[0]] + a[1..] == b;
    } else if a != "" {
      LessTrichotomy(a[1..], a[1..]);
    }
  }

  /** a and b agree up to k. */
  ghost predicate SameUpTo(a: string, b: string, k: nat) {
    k <= |a| && k <= |b| && forall i | 0 <= i < k :: a[i] == b[i]
  }

  /** One text comes before another exactly when it is a shorter beginning of it, or has the smaller character at
      the first place they differ. */
  lemma {:induction false} LessAtFirstDifference(a: string, b: string)
    ensures Less(a, b) <==>
      exists k: nat :: SameUpTo(a, b, k) && k < |b| && (k == |a| || (k < |a| && a[k] < b[k]))
  {
    if a != "" && b != "" && a[0] == b[0] {
      LessAtFirstDifference(a[1..], b[1..]);
      if Less(a, b) {
        var k: nat :| SameUpTo(a[1..], b[1..], k) && k < |b[1..]|
          && (k == |a[1..]| || (k < |a[1..]| && a[1..][k] < b[1..][k]));
        assert SameUpTo(a, b, k + 1) by {
          assert forall i | 0 < i < k + 1 :: a[i] == a[1..][i - 1] && b[i] == b[1..][i - 1];
        }
      }
      if k: nat :| SameUpTo(a, b, k) && k < |b| && (k == |a| || (k < |a| && a[k] < b[k])) {
        assert k > 0 && SameUpTo(a[1..], b[1..], k - 1);
      }
    } else if b != "" {
      assert SameUpTo(a, b, 0);
    }
  }

  lemma {:induction false} LessTransitive(a: string, b: string, c: string)
    requires Less(a, b) && Less(b, c)
    ensures Less(a, c)
  {
    if a != "" && a[0] == b[0] == c[0] {
      LessTransitive(a[1..], b[1..], c[1..]);
    }
  }

  /** Strictly increasing in byte order: sorted, with no repeats. */
  ghost predicate Ascending(s: seq<string>) {
    forall i, j | 0 <= i < j < |s| :: Less(s[i], s[j])
  }

  function LowerChar(c: char): char {
    if 'A' <= c <= 'Z' then c - 'A' + 'a' else c
  }

  /** Lower case of the ASCII letters. No other character lower-cases to a letter of the words looked for here. */
  function Lower(s: string): string {
    seq(|s|, i requires 0 <= i < |s| => LowerChar(s[i]))
  }

  predicate SmallLetter(c: char) {
    c in {'a', 'b', 'c', 'd', 'e', 'f', 'g', 'h', 'i', 'j', 'k', 'l', 'm',
          'n', 'o', 'p', 'q', 'r', 's', 't', 'u', 'v', 'w', 'x', 'y', 'z'}
  }

  predicate Capital(c: char) {
    c in {'A', 'B', 'C', 'D', 'E', 'F', 'G', 'H', 'I', 'J', 'K', 'L', 'M',
          'N', 'O', 'P', 'Q', 'R', 'S', 'T', 'U', 'V', 'W', 'X', 'Y', 'Z'}
  }

  /** The twenty-six capitals become small letters; nothing else changes. */
  lemma LowerLetters(c: char)
    ensures Lower("ABCDEFGHIJKLMNOPQRSTUVWXYZ") == "abcdefghijklmnopqrstuvwxyz"
    ensures !Capital(c) ==> LowerChar(c) == c
  {
  }

  predicate StartsAt(s: string, word: string, i: nat) {
    i + |word| <= |s| && s[i..i + |word|] == word
  }

  predicate Contains(s: string, word: string) {
    exists i: nat :: i <= |s| && StartsAt(s, word, i)
  }

  /** Joining by a separator the first parts do not hold loses nothing. */
  lemma SeparatorSplits(sep: char, a: string, x: string, b: string, y: string)
    requires sep !in a && sep !in b && a + [sep] + x == b + [sep] + y
    ensures a == b && x == y
  {
    var s := a + [sep] + x;
    assert s == b + [sep] + y;
    assert s[|a|] == sep && s[|b|] == sep;
    assert forall i | 0 <= i < |a| :: s[i] == a[i];
    assert forall i | 0 <= i < |b| :: s[i] == b[i];
    assert a == s[..|a|] && b == s[..|b|];
    assert x == s[|a| + 1..] && y == s[|b| + 1..];
  }
}
