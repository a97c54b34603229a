/** What blanking a full identifier does for the bare name it ends in, which other tables may share. */
module Namesakes {
  import opened Text
  import opened Sorting
  import opened Citations

  predicate Overlaps(p: nat, n: nat, q: nat, m: nat) {
    q < p + n && p < q + m
  }

  /** Nothing that is written as one of the identifiers overlaps the one here, but itself. */
  ghost predicate StandsAlone(lowered: string, needles: seq<string>, needle: string, p: nat) {
    forall d, q: nat | d in needles && StartsAt(lowered, d, q) && Overlaps(p, |needle|, q, |d|) :: d == needle && q == p
  }

  ghost predicate Solid(needles: seq<string>) {
    forall d | d in needles :: d != "" && NoBlank(d)
  }

  /** A span is an occurrence of the identifier it is written as. */
  lemma SpanOccurs(lowered: string, needles: seq<string>, spans: seq<Span>, out: string, i: nat) returns (d: string)
    requires Unpinned(lowered, needles, spans, out) && i < |spans|
    ensures d in needles && StartsAt(lowered, d, spans[i].at) && |d| == spans[i].size
  {
    assert Pins(lowered, needles, spans[i]);
    d := lowered[spans[i].at..spans[i].at + spans[i].size];
  }

  /** A full mention no other overlaps is blanked from end to end. */
  lemma MentionBlanked(lowered: string, needles: seq<string>, spans: seq<Span>, out: string, needle: string, p: nat)
    requires Unpinned(lowered, needles, spans, out) && Blanked(lowered, needle, spans)
    requires Bounded(lowered, needle, p) && StandsAlone(lowered, needles, needle, p)
    ensures needle != "" && forall x: nat | p <= x < p + |needle| :: InSpan(spans, x)
  {
    hide Bounded, Unpinned;
    var y: nat :| p <= y < p + |needle| && InSpan(spans, y);
    var i :| 0 <= i < |spans| && Within(spans[i], y);
    var d := SpanOccurs(lowered, needles, spans, out, i);
    forall x: nat | p <= x < p + |needle|
      ensures InSpan(spans, x)
    {
      assert Within(spans[i], x);
    }
  }

  /** How much of the text a bare mention takes up, the opening backtick with it. */
  function BareWidth(candidate: string): nat {
    |Bare(candidate)| + if PlainWord(Bare(candidate)) then 1 else 0
  }

  /** So no table is mentioned by its bare name inside it: not its own, and not a namesake. */
  lemma NamesakesKeptOut(lowered: string, needles: seq<string>, spans: seq<Span>, unpinned: string, needle: string,
                         p: nat,
                         namesake: string, at: nat)
    requires Unpinned(lowered, needles, spans, unpinned) && Blanked(lowered, needle, spans)
    requires Bounded(lowered, needle, p) && StandsAlone(lowered, needles, needle, p)
    requires IsTableId(namesake) && BareAt(namesake, unpinned, at)
    ensures !Overlaps(p, |needle|, at, BareWidth(namesake))
  {
    hide Bounded, Unpinned, Blanked, StandsAlone, IsTableId, InSpan, BareAt, Bare, PlainWord;
    MentionBlanked(lowered, needles, spans, unpinned, needle, p);
    IdHasNoBlank(namesake);
    if Overlaps(p, |needle|, at, BareWidth(namesake)) {
      BareMentionsMissSpans(namesake, lowered, needles, spans, unpinned, at, if p < at then at else p);
    }
  }

  // ---- when the bare name stays ----

  /** Where the bare name of a full mention begins. */
  function NameAt(c: string, p: nat): nat {
    p + |Scope(c)| + 1
  }

  lemma MentionParts(hay: string, c: string, p: nat)
    requires IsTableId(c) && StartsAt(hay, Lower(c), p)
    ensures |Lower(c)| == |Scope(c)| + 1 + |Bare(c)| && |Lower(Bare(c))| == |Bare(c)| > 0
    ensures StartsAt(hay, Lower(Bare(c)), NameAt(c, p)) && hay[NameAt(c, p) - 1] == '/'
  {
    ScopeAndBare(c);
    IdHasNoBlank(c);
    var l, s := Lower(c), |Scope(c)| + 1;
    assert c[s - 1] == '/' && c[s..] == Bare(c);
    assert l[s..] == Lower(Bare(c));
    assert hay[p + s..p + |l|] == hay[p..p + |l|][s..];
    assert hay[p + s - 1] == l[s - 1];
  }

  /** The bare name of a full mention can still be found there exactly when no span touches that part of it. */
  lemma BareNameStays(lowered: string, needles: seq<string>, spans: seq<Span>, unpinned: string, c: string, p: nat)
    requires IsTableId(c) && Unpinned(lowered, needles, spans, unpinned) && Bounded(lowered, Lower(c), p)
    ensures Bounded(unpinned, Lower(Bare(c)), NameAt(c, p)) <==> !Touched(spans, NameAt(c, p), |Bare(c)|)
  {
    hide IsTableId, InSpan, Lower, Pins, Scope, Bare;
    MentionParts(lowered, c, p);
    IdHasNoBlank(c);
    var name, at := Lower(Bare(c)), NameAt(c, p);
    if Bounded(unpinned, name, at) {
      forall x | at <= x < at + |name|
        ensures !InSpan(spans, x)
      {
        MentionsMissSpans(lowered, needles, spans, unpinned, name, at, x);
      }
    }
    if !Touched(spans, at, |name|) {
      forall x | at <= x < at + |name|
        ensures unpinned[x] == lowered[x]
      {
        assert !InSpan(spans, x);
      }
      assert unpinned[at..at + |name|] == lowered[at..at + |name|];
    }
  }

  /** And then every namesake that is not a plain word is mentioned there. */
  lemma NamesakesCitable(lowered: string, needles: seq<string>, spans: seq<Span>, unpinned: string, c: string, p: nat,
                         namesake: string)
    requires IsTableId(c) && Unpinned(lowered, needles, spans, unpinned) && Bounded(lowered, Lower(c), p)
    requires Lower(Bare(namesake)) == Lower(Bare(c)) && !PlainWord(Bare(namesake))
    ensures BareAt(namesake, unpinned, NameAt(c, p)) <==> !Touched(spans, NameAt(c, p), |Bare(c)|)
  {
    hide IsTableId, Unpinned, Bounded, Lower, Scope, Bare, PlainWord, Touched;
    BareNameStays(lowered, needles, spans, unpinned, c, p);
  }

  // ---- the first pass to touch a mention ----

  /** Some match of pass i overlaps this stretch. */
  ghost predicate PassTouches(needles: seq<string>, passes: seq<Pass>, i: nat, p: nat, n: nat)
    requires i < |passes| <= |needles|
  {
    exists k :: 0 <= k < |passes[i].tiles| && Overlaps(p, n, passes[i].tiles[k], |needles[i]|)
  }

  ghost predicate FirstToTouch(needles: seq<string>, passes: seq<Pass>, j: nat, p: nat, n: nat) {
    && j < |passes| <= |needles| && PassTouches(needles, passes, j, p, n)
    && forall i | 0 <= i < j :: !PassTouches(needles, passes, i, p, n)
  }

  /** Every place blanked is blanked by a match of some pass. */
  lemma {:induction false} BlankedByPass(needles: seq<string>, passes: seq<Pass>, x: nat)
    requires |passes| <= |needles|
    ensures InSpan(PassSpans(needles, passes), x)
       <==> exists i :: 0 <= i < |passes| && Covered(passes[i].tiles, |needles[i]|, x)
  {
    hide Covered, InSpan;
    if passes == [] {
      NoSpans(x);
    } else {
      var n := |passes| - 1;
      BlankedByPass(needles, passes[..n], x);
      InSpansOf(PassSpans(needles, passes[..n]), passes[n].tiles, |needles[n]|, x);
      assert forall i | 0 <= i < n :: passes[..n][i] == passes[i];
      if i :| 0 <= i < |passes| && Covered(passes[i].tiles, |needles[i]|, x) {
        assert i < n ==> Covered(passes[..n][i].tiles, |needles[i]|, x);
      }
    }
  }

  lemma NoSpans(x: nat)
    ensures !InSpan([], x)
  {
  }

  /** What an earlier pass blanked is blank in the text of a later one. */
  lemma {:induction false} BlankLater(lowered: string, needles: seq<string>, passes: seq<Pass>, out: string, i: nat,
                                      j: nat, x: nat)
    requires Passes(lowered, needles, passes, out) && i < j < |passes|
    requires Covered(passes[i].tiles, |needles[i]|, x)
    ensures x < |passes[j].text| ==> passes[j].text[x] == ' '
    decreases j
  {
    hide Covered, Tiles;
    assert PassDone(lowered, needles, passes, j);
    if i < j - 1 {
      BlankLater(lowered, needles, passes, out, i, j - 1, x);
    }
  }

  /** A full mention is touched by some pass, so by a first one. */
  lemma SomePassTouches(lowered: string, needles: seq<string>, passes: seq<Pass>, out: string, needle: string, p: nat)
    returns (j: nat)
    requires Passes(lowered, needles, passes, out) && Blanked(lowered, needle, PassSpans(needles, passes))
    requires Bounded(lowered, needle, p)
    ensures FirstToTouch(needles, passes, j, p, |needle|)
  {
    hide Bounded, PassDone, InSpan, Covered;
    var x: nat :| p <= x < p + |needle| && InSpan(PassSpans(needles, passes), x);
    BlankedByPass(needles, passes, x);
    var i: nat :| i < |passes| && Covered(passes[i].tiles, |needles[i]|, x);
    CoveredTouches(needles, passes, i, p, |needle|, x);
    j := LeastTouching(needles, passes, i, p, |needle|);
  }

  lemma CoveredTouches(needles: seq<string>, passes: seq<Pass>, i: nat, p: nat, n: nat, x: nat)
    requires i < |passes| <= |needles| && Covered(passes[i].tiles, |needles[i]|, x) && p <= x < p + n
    ensures PassTouches(needles, passes, i, p, n)
  {
    var k :| 0 <= k < |passes[i].tiles| && passes[i].tiles[k] <= x < passes[i].tiles[k] + |needles[i]|;
    assert Overlaps(p, n, passes[i].tiles[k], |needles[i]|);
  }

  lemma {:induction false} LeastTouching(needles: seq<string>, passes: seq<Pass>, i: nat, p: nat, n: nat)
    returns (j: nat)
    requires i < |passes| <= |needles| && PassTouches(needles, passes, i, p, n)
    ensures FirstToTouch(needles, passes, j, p, n)
  {
    hide PassTouches;
    if h: nat :| h < i && PassTouches(needles, passes, h, p, n) {
      j := LeastTouching(needles, passes, h, p, n);
    } else {
      j := i;
    }
  }

  /** Nothing but the mention itself, written as one of the identifiers, reaches into its bare name. */
  ghost predicate NameClear(lowered: string, needles: seq<string>, c: string, p: nat) {
    forall d, q: nat | d in needles && StartsAt(lowered, d, q) && Overlaps(p, |Lower(c)|, q, |d|) ::
      (d == Lower(c) && q == p) || q + |d| <= NameAt(c, p)
  }

  /** Where others overlap a mention ahead of its bare name only, the first pass to touch it decides: the bare name
      stays, for every namesake to be found by, exactly when that pass does not match the mention itself. */
  lemma FirstPassDecides(lowered: string, needles: seq<string>, passes: seq<Pass>, unpinned: string, c: string, p: nat,
                         j: nat)
    requires IsTableId(c) && Passes(lowered, needles, passes, unpinned) && Solid(needles)
    requires Unpinned(lowered, needles, PassSpans(needles, passes), unpinned)
    requires Bounded(lowered, Lower(c), p) && NameClear(lowered, needles, c, p)
    requires FirstToTouch(needles, passes, j, p, |Lower(c)|)
    ensures Bounded(unpinned, Lower(Bare(c)), NameAt(c, p)) <==> !(needles[j] == Lower(c) && p in passes[j].tiles)
  {
    hide IsTableId, Unpinned, Bounded, PassDone, InSpan, Covered, Lower, Scope, Bare;
    var spans, at := PassSpans(needles, passes), NameAt(c, p);
    BareNameStays(lowered, needles, spans, unpinned, c, p);
    MentionStarts(lowered, Lower(c), p);
    MentionParts(lowered, c, p);
    if needles[j] == Lower(c) && p in passes[j].tiles {
      OwnTileCovers(passes[j].tiles, |needles[j]|, p, at);
      BlankedByPass(needles, passes, at);
      assert InSpan(spans, at);
    }
    if x: nat :| at <= x < at + |Bare(c)| && InSpan(spans, x) {
      TouchedIsOwn(lowered, needles, passes, unpinned, c, p, j, x);
    }
  }

  lemma MentionStarts(hay: string, needle: string, p: nat)
    requires Bounded(hay, needle, p)
    ensures StartsAt(hay, needle, p)
  {
  }

  lemma OwnTileCovers(tiles: seq<nat>, size: nat, p: nat, x: nat)
    requires p in tiles && p <= x < p + size
    ensures Covered(tiles, size, x)
  {
  }

  /** What blanks any of the bare name is the mention itself, in the first pass to touch it. */
  lemma TouchedIsOwn(lowered: string, needles: seq<string>, passes: seq<Pass>, unpinned: string, c: string, p: nat,
                     j: nat, x: nat)
    requires Passes(lowered, needles, passes, unpinned) && Solid(needles)
    requires NameClear(lowered, needles, c, p) && FirstToTouch(needles, passes, j, p, |Lower(c)|)
    requires NameAt(c, p) <= x < p + |Lower(c)| && InSpan(PassSpans(needles, passes), x)
    ensures needles[j] == Lower(c) && p in passes[j].tiles
  {
    hide PassDone, InSpan, Covered, Lower, PassSpans, PassTouches, NoBlank, Scope;
    BlankedByPass(needles, passes, x);
    var i: nat :| i < |passes| && Covered(passes[i].tiles, |needles[i]|, x);
    var t := CoveringTile(passes[i].tiles, |needles[i]|, x);
    TileOccurs(lowered, needles, passes, unpinned, i, t);
    assert needles[i] in needles && Overlaps(p, |Lower(c)|, t, |needles[i]|);
    assert needles[i] == Lower(c) && t == p;
    CoveredTouches(needles, passes, i, p, |Lower(c)|, x);
    UntouchedBefore(lowered, needles, passes, unpinned, i, p);
    assert i == j;
  }

  lemma CoveringTile(tiles: seq<nat>, size: nat, x: nat) returns (t: nat)
    requires Covered(tiles, size, x)
    ensures t in tiles && t <= x < t + size
  {
    var k :| 0 <= k < |tiles| && tiles[k] <= x < tiles[k] + size;
    t := tiles[k];
  }

  /** What is not blank in a pass's text is as it was written. */
  lemma {:induction false} TextKept(lowered: string, needles: seq<string>, passes: seq<Pass>, out: string, i: nat,
                                    x: nat)
    requires Passes(lowered, needles, passes, out) && i < |passes|
    ensures |passes[i].text| == |lowered|
    ensures x < |lowered| ==> passes[i].text[x] == lowered[x] || passes[i].text[x] == ' '
  {
    hide Covered, Tiles;
    assert PassDone(lowered, needles, passes, i);
    if i > 0 {
      TextKept(lowered, needles, passes, out, i - 1, x);
    }
  }

  lemma TileStarts(lowered: string, needles: seq<string>, passes: seq<Pass>, out: string, i: nat, t: nat)
    requires Passes(lowered, needles, passes, out) && i < |passes| && t in passes[i].tiles
    ensures StartsAt(passes[i].text, needles[i], t)
  {
    assert PassDone(lowered, needles, passes, i);
  }

  lemma NonBlankPart(text: string, needle: string, t: nat, x: nat)
    requires StartsAt(text, needle, t) && NoBlank(needle) && t <= x < t + |needle|
    ensures text[x] == needle[x - t] && text[x] != ' '
  {
    assert text[x] == text[t..t + |needle|][x - t];
  }

  /** A match of a later pass is written in the original text too. */
  lemma TileOccurs(lowered: string, needles: seq<string>, passes: seq<Pass>, out: string, i: nat, t: nat)
    requires Passes(lowered, needles, passes, out) && Solid(needles)
    requires i < |passes| && t in passes[i].tiles
    ensures StartsAt(lowered, needles[i], t)
  {
    hide PassDone, NoBlank;
    var d, text := needles[i], passes[i].text;
    TileStarts(lowered, needles, passes, out, i, t);
    TextKept(lowered, needles, passes, out, i, 0);
    assert d in needles;
    forall x | t <= x < t + |d|
      ensures lowered[x] == d[x - t]
    {
      NonBlankPart(text, d, t, x);
      TextKept(lowered, needles, passes, out, i, x);
    }
    assert lowered[t..t + |d|] == d;
  }

  /** A match was touched by no pass before its own. */
  lemma UntouchedBefore(lowered: string, needles: seq<string>, passes: seq<Pass>, out: string, i: nat, t: nat)
    requires Passes(lowered, needles, passes, out) && Solid(needles)
    requires i < |passes| && t in passes[i].tiles
    ensures forall h | 0 <= h < i :: !PassTouches(needles, passes, h, t, |needles[i]|)
  {
    hide PassDone, NoBlank, PassTouches, Covered;
    TileStarts(lowered, needles, passes, out, i, t);
    assert needles[i] in needles;
    forall h | 0 <= h < i
      ensures !PassTouches(needles, passes, h, t, |needles[i]|)
    {
      forall x: nat | t <= x < t + |needles[i]|
        ensures !Covered(passes[h].tiles, |needles[h]|, x)
      {
        NonBlankPart(passes[i].text, needles[i], t, x);
        if Covered(passes[h].tiles, |needles[h]|, x) {
          BlankLater(lowered, needles, passes, out, h, i, x);
        }
      }
      assert needles[h] in needles;
      UncoveredUntouched(needles, passes, h, t, |needles[i]|);
    }
  }

  lemma UncoveredUntouched(needles: seq<string>, passes: seq<Pass>, h: nat, p: nat, n: nat)
    requires h < |passes| <= |needles| && n > 0 && needles[h] != ""
    requires forall x: nat | p <= x < p + n :: !Covered(passes[h].tiles, |needles[h]|, x)
    ensures !PassTouches(needles, passes, h, p, n)
  {
    var tiles, size := passes[h].tiles, |needles[h]|;
    forall k | 0 <= k < |tiles|
      ensures !Overlaps(p, n, tiles[k], size)
    {
      var x := if p < tiles[k] then tiles[k] else p;
      assert tiles[k] <= x < tiles[k] + size ==> Covered(tiles, size, x);
    }
  }

  lemma NeedlesSolid(candidates: seq<string>)
    requires forall c | c in candidates :: IsTableId(c)
    ensures Solid(Needles(candidates))
  {
    hide IsTableId, Lower, NoBlank;
    forall d | d in Needles(candidates)
      ensures d != "" && NoBlank(d)
    {
      var i :| 0 <= i < |candidates| && Needles(candidates)[i] == d;
      IdHasNoBlank(candidates[i]);
    }
  }

  /** Of what is extracted: a full mention that others overlap ahead of its bare name only keeps that name, for every
      namesake to be found by, exactly when the first candidate in order to touch it does not match it. */
  lemma FirstCandidateDecides(candidates: seq<string>, lowered: string, passes: seq<Pass>, unpinned: string, c: string,
                              p: nat) returns (j: nat)
    requires (forall d | d in candidates :: IsTableId(d)) && c in candidates
    requires Passes(lowered, Needles(candidates), passes, unpinned)
    requires Unpinned(lowered, Needles(candidates), PassSpans(Needles(candidates), passes), unpinned)
    requires Blanked(lowered, Lower(c), PassSpans(Needles(candidates), passes))
    requires Bounded(lowered, Lower(c), p) && NameClear(lowered, Needles(candidates), c, p)
    ensures FirstToTouch(Needles(candidates), passes, j, p, |Lower(c)|)
    ensures Bounded(unpinned, Lower(Bare(c)), NameAt(c, p))
       <==> !(Lower(candidates[j]) == Lower(c) && p in passes[j].tiles)
  {
    hide IsTableId, Bounded, Blanked, Unpinned, PassDone, Lower, NameClear, PassTouches, Bare, Scope;
    NeedlesSolid(candidates);
    j := SomePassTouches(lowered, Needles(candidates), passes, unpinned, Lower(c), p);
    FirstPassDecides(lowered, Needles(candidates), passes, unpinned, c, p, j);
    assert Needles(candidates)[j] == Lower(candidates[j]);
  }

  // ---- the passes are settled ----

  lemma TilesAgree(hay: string, needle: string, x: seq<nat>, y: seq<nat>)
    requires needle != "" && Tiles(hay, needle, |hay| + 1, x) && Tiles(hay, needle, |hay| + 1, y)
    ensures x == y
  {
    hide Bounded;
    TilesAgreeFrom(hay, needle, x, y, 0);
  }

  lemma {:induction false} TilesAgreeFrom(hay: string, needle: string, x: seq<nat>, y: seq<nat>, n: nat)
    requires needle != "" && Tiles(hay, needle, |hay| + 1, x) && Tiles(hay, needle, |hay| + 1, y)
    requires n <= |x| && n <= |y| && x[..n] == y[..n]
    ensures x == y
    decreases |x| - n
  {
    hide Tiles;
    if n < |y| {
      NextTile(hay, needle, x, y, n);
    }
    if n < |x| {
      NextTile(hay, needle, y, x, n);
    }
    if n < |x| && n < |y| {
      assert x[..n + 1] == y[..n + 1];
      TilesAgreeFrom(hay, needle, x, y, n + 1);
    } else {
      assert x == x[..n] && y == y[..n];
    }
  }

  /** The next match of the one is no later than the next of the other. */
  lemma NextTile(hay: string, needle: string, x: seq<nat>, y: seq<nat>, n: nat)
    requires needle != "" && Tiles(hay, needle, |hay| + 1, x) && Tiles(hay, needle, |hay| + 1, y)
    requires n <= |x| && n < |y| && x[..n] == y[..n]
    ensures n < |x| && x[n] <= y[n]
  {
    hide Tiles, Covered;
    TileCovered(hay, needle, x, y, n);
    var t := CoveringTile(x, |needle|, y[n]);
    var i :| 0 <= i < |x| && x[i] == t;
    forall k | 0 <= k < n
      ensures x[k] + |needle| <= y[n]
    {
      assert x[..n][k] == y[..n][k];
      TileGap(hay, needle, y, k, n);
    }
    if n < i {
      TileGap(hay, needle, x, n, i);
    }
  }

  lemma TileGap(hay: string, needle: string, tiles: seq<nat>, i: nat, j: nat)
    requires Tiles(hay, needle, |hay| + 1, tiles) && i < j < |tiles|
    ensures tiles[i] + |needle| <= tiles[j]
  {
  }

  lemma TileCovered(hay: string, needle: string, x: seq<nat>, y: seq<nat>, n: nat)
    requires Tiles(hay, needle, |hay| + 1, x) && Tiles(hay, needle, |hay| + 1, y) && n < |y| && needle != ""
    ensures Covered(x, |needle|, y[n])
  {
    hide Bounded, Covered;
  }

  /** One text and one list of identifiers are blanked in one way. */
  lemma PassesAgree(lowered: string, needles: seq<string>, passes: seq<Pass>, out: string, passes': seq<Pass>,
                    out': string)
    requires Passes(lowered, needles, passes, out) && Passes(lowered, needles, passes', out') && Solid(needles)
    ensures passes == passes' && out == out'
  {
    hide PassDone, TextAfter;
    PassesAgreeTo(lowered, needles, passes, out, passes', out', |needles|);
    assert passes[..|needles|] == passes && passes'[..|needles|] == passes';
  }

  lemma {:induction false} PassesAgreeTo(lowered: string, needles: seq<string>, passes: seq<Pass>, out: string,
                                         passes': seq<Pass>, out': string, n: nat)
    requires Passes(lowered, needles, passes, out) && Passes(lowered, needles, passes', out') && Solid(needles)
    requires n <= |needles|
    ensures passes[..n] == passes'[..n]
  {
    if n > 0 {
      hide Tiles, NoBlank, MaskedAll;
      PassesAgreeTo(lowered, needles, passes, out, passes', out', n - 1);
      assert PassDone(lowered, needles, passes, n - 1) && PassDone(lowered, needles, passes', n - 1);
      if n > 1 {
        assert passes[..n - 1][n - 2] == passes'[..n - 1][n - 2];
      }
      assert needles[n - 1] in needles;
      TilesAgree(passes[n - 1].text, needles[n - 1], passes[n - 1].tiles, passes'[n - 1].tiles);
    }
  }

  // ---- a namesake that is cited ----

  const RETRIEVED := ["s/a-b", "a-b/c1", "z/c1"]
  const OVERLAPPED := "s/a-b/c1"

  lemma BoundedHere(hay: string, needle: string, p: nat)
    requires needle != ""
    ensures Bounded(hay, needle, p) ==> p + |needle| <= |hay| && hay[p] == needle[0]
  {
    if Bounded(hay, needle, p) {
      assert hay[p..p + |needle|][0] == hay[p];
    }
  }

  /** Blanking "s/a-b" takes the front off the mention of "a-b/c1", which is not found any more. */
  lemma OverlappedPasses(passes: seq<Pass>, unpinned: string)
    requires Passes(OVERLAPPED, RETRIEVED, passes, unpinned)
    ensures unpinned == "     /c1" && Bounded(OVERLAPPED, "a-b/c1", 2)
  {
    hide Tiles, MaskedAll, Bounded;
    assert |"s/a-b"| == 5 && |OVERLAPPED| == 8;
    assert PassDone(OVERLAPPED, RETRIEVED, passes, 0);
    FirstOverlapped(passes[0].tiles);
    assert PassDone(OVERLAPPED, RETRIEVED, passes, 1) && passes[1].text == "     /c1";
    NoneOverlapped("a-b/c1", passes[1].tiles);
    assert PassDone(OVERLAPPED, RETRIEVED, passes, 2) && passes[2].text == "     /c1";
    NoneOverlapped("z/c1", passes[2].tiles);
    MentionOverlapped();
  }

  lemma MentionOverlapped()
    ensures Bounded(OVERLAPPED, "a-b/c1", 2)
  {
    assert OVERLAPPED[2..8] == "a-b/c1";
  }

  lemma FirstOverlapped(tiles: seq<nat>)
    requires Tiles(OVERLAPPED, "s/a-b", 9, tiles)
    ensures MaskedAll(OVERLAPPED, tiles, 5) == "     /c1"
  {
    assert OVERLAPPED[0..5] == "s/a-b";
    assert Bounded(OVERLAPPED, "s/a-b", 0);
    assert Covered(tiles, 5, 0);
    forall i | 0 <= i < |tiles|
      ensures tiles[i] == 0
    {
      BoundedHere(OVERLAPPED, "s/a-b", tiles[i]);
    }
    SecondIsLater(OVERLAPPED, "s/a-b", tiles);
    assert |tiles| == 1;
    assert forall x: nat :: Covered(tiles, 5, x) <==> x < 5;
  }

  lemma SecondIsLater(hay: string, needle: string, tiles: seq<nat>)
    requires needle != "" && Tiles(hay, needle, |hay| + 1, tiles)
    ensures |tiles| > 1 ==> tiles[0] < tiles[1]
  {
    hide Bounded;
  }

  lemma NoneOverlapped(needle: string, tiles: seq<nat>)
    requires needle == "a-b/c1" || needle == "z/c1"
    requires Tiles("     /c1", needle, 9, tiles)
    ensures tiles == [] && MaskedAll("     /c1", tiles, |needle|) == "     /c1"
  {
    if tiles != [] {
      BoundedHere("     /c1", needle, tiles[0]);
    }
  }

  lemma BareOf()
    ensures Bare("z/c1") == "c1" && Bare("s/a-b") == "a-b" && Bare("a-b/c1") == "c1"
    ensures Scope("z/c1") == "z" && Scope("s/a-b") == "s" && Scope("a-b/c1") == "a-b"
  {
    assert "z/c1"[1..] == "/c1" && "/c1"[1..] == "c1";
    assert "s/a-b"[1..] == "/a-b" && "/a-b"[1..] == "a-b";
    assert "a-b/c1"[1..] == "-b/c1" && "-b/c1"[1..] == "b/c1" && "b/c1"[1..] == "/c1";
    assert Scope("/c1") == "" && Scope("b/c1") == "b" && Scope("-b/c1") == "-b";
  }

  lemma Identifiers()
    ensures IsTableId("s/a-b") && IsTableId("a-b/c1") && IsTableId("z/c1")
  {
    BareOf();
    hide Bare, Scope;
    assert "s/a-b"[1] == '/' && "a-b/c1"[3] == '/' && "z/c1"[1] == '/';
    assert Part("s") && Part("a-b") && Part("c1") && Part("z");
  }

  lemma AsWritten()
    ensures TrimSpace("s/a-b") == "s/a-b" && TrimSpace("a-b/c1") == "a-b/c1" && TrimSpace("z/c1") == "z/c1"
    ensures Lower("s/a-b") == "s/a-b" && Lower("a-b/c1") == "a-b/c1" && Lower("z/c1") == "z/c1" && Lower("c1") == "c1"
  {
    hide TrimSpace;
    TrimmedIsFixed("s/a-b");
    TrimmedIsFixed("a-b/c1");
    TrimmedIsFixed("z/c1");
  }

  lemma ThreeApart()
    ensures "s/a-b" != "a-b/c1" && "s/a-b" != "z/c1" && "a-b/c1" != "z/c1"
  {
    assert "s/a-b"[0] == 's' && "a-b/c1"[0] == 'a' && "z/c1"[0] == 'z';
  }

  /** The three are identifiers, each collected as it stands. */
  lemma RetrievedCollected()
    ensures Collected(RETRIEVED) == RETRIEVED && Needles(RETRIEVED) == RETRIEVED
  {
    Identifiers();
    AsWritten();
    ThreeApart();
    hide TrimSpace, IsTableId, Lower, Collected;
    NoneCollected();
    CollectedOne([], "s/a-b");
    assert [] + ["s/a-b"] == ["s/a-b"];
    CollectedOne(["s/a-b"], "a-b/c1");
    assert ["s/a-b"] + ["a-b/c1"] == ["s/a-b", "a-b/c1"];
    CollectedOne(["s/a-b", "a-b/c1"], "z/c1");
    assert ["s/a-b", "a-b/c1"] + ["z/c1"] == RETRIEVED;
  }

  lemma NoneCollected()
    ensures Collected([]) == []
  {
  }

  lemma CollectedOne(found: seq<string>, v: string)
    requires TrimSpace(v) == v && IsTableId(v)
    ensures Collected(found + [v])
         == if SpelledIn(Collected(found), Lower(v)) then Collected(found) else Collected(found) + [v]
  {
    assert (found + [v])[..|found|] == found;
  }

  /** So the answer "s/a-b/c1", which names "s/a-b" and "a-b/c1" in full, cites their namesake "z/c1". */
  lemma NamesakeCited(passes: seq<Pass>, unpinned: string, picks: seq<Mention>, cited: seq<string>)
    requires Passes(OVERLAPPED, Needles(Collected(RETRIEVED)), passes, unpinned)
    requires Cites(Collected(RETRIEVED), OVERLAPPED, unpinned, picks, cited)
    ensures "z/c1" in cited
  {
    RetrievedCollected();
    OverlappedPasses(passes, unpinned);
    hide Passes, Collected, FirstPlace;
    NamesakeFirst();
    var m := Mention(6, 2, "z/c1");
    assert RETRIEVED[2] == "z/c1" && IsMention(RETRIEVED, OVERLAPPED, unpinned, m);
    var i :| 0 <= i < |picks| && picks[i] == m;
    assert cited[i] == "z/c1";
  }

  lemma NamesakeFirst()
    ensures FirstPlace("z/c1", OVERLAPPED, "     /c1", 6)
  {
    BareOf();
    AsWritten();
    NameFound();
    hide Bare, Lower, Bounded;
    NotPlain();
    hide PlainWord;
    forall p: nat | p < 6
      ensures !MentionedAt("z/c1", OVERLAPPED, "     /c1", p)
    {
      NotBoundedHere(OVERLAPPED, "z/c1", p);
      NotBoundedHere("     /c1", "c1", p);
    }
  }

  lemma NotPlain()
    ensures !PlainWord("c1")
  {
    assert "c1"[1] == '1' && "c1"[1] in "c1";
  }

  lemma NameFound()
    ensures Bounded("     /c1", "c1", 6)
  {
    assert "     /c1"[6..8] == "c1";
  }

  lemma NotBoundedHere(hay: string, needle: string, p: nat)
    requires needle != "" && p < |hay| && hay[p] != needle[0]
    ensures !Bounded(hay, needle, p)
  {
    BoundedHere(hay, needle, p);
  }
}
