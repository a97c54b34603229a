/** Which retrieved tables an answer mentions, in the order it mentions them. Texts are byte strings. */
module Citations {
  import opened Text
  import opened Sorting

  const MAX_CITATIONS: nat := 20

  // ---- identifiers ----

  predicate PartStart(c: char) {
    'a' <= c <= 'z' || 'A' <= c <= 'Z' || '0' <= c <= '9' || c == '_'
  }

  predicate Part(p: string) {
    p != "" && PartStart(p[0]) && forall c | c in p :: PartStart(c) || c == '.' || c == '-'
  }

  /** What follows the first slash; "" without one. */
  function Bare(id: string): string {
    if id == "" then "" else if id[0] == '/' then id[1..] else Bare(id[1..])
  }

  function Scope(id: string): string {
    if id == "" || id[0] == '/' then "" else [id[0]] + Scope(id[1..])
  }

  /** A domain and a name, both plain, with one slash between. */
  predicate IsTableId(v: string) {
    '/' in v && Part(Scope(v)) && Part(Bare(v))
  }

  lemma {:induction false} ScopeAndBare(id: string)
    requires '/' in id
    ensures id == Scope(id) + "/" + Bare(id)
  {
    if id[0] != '/' {
      ScopeAndBare(id[1..]);
      assert id == [id[0]] + id[1..];
    }
  }

  /** The retrieved identifiers: trimmed, one for each spelling whatever its case, in the order found. */
  function Collected(found: seq<string>): seq<string> {
    if found == [] then [] else
      var n := |found| - 1;
      var ids, v := Collected(found[..n]), TrimSpace(found[n]);
      if IsTableId(v) && !SpelledIn(ids, Lower(v)) then ids + [v] else ids
  }

  predicate SpelledIn(ids: seq<string>, lowered: string) {
    exists i :: 0 <= i < |ids| && Lower(ids[i]) == lowered
  }

  method Collect(found: seq<string>) returns (ids: seq<string>)
    ensures ids == Collected(found)
  {
    ids := [];
    var seen: set<string> := {};
    for n := 0 to |found|
      invariant ids == Collected(found[..n])
      invariant forall l :: l in seen <==> SpelledIn(ids, l)
    {
      assert found[..n + 1][..n] == found[..n];
      var v := TrimSpace(found[n]);
      if IsTableId(v) && Lower(v) !in seen {
        SpelledMore(ids, v);
        seen, ids := seen + {Lower(v)}, ids + [v];
      }
    }
    assert found[..|found|] == found;
  }

  lemma SpelledMore(ids: seq<string>, v: string)
    ensures forall l :: SpelledIn(ids + [v], l) <==> SpelledIn(ids, l) || l == Lower(v)
  {
    hide Lower;
    forall l | SpelledIn(ids, l)
      ensures SpelledIn(ids + [v], l)
    {
      var i :| 0 <= i < |ids| && Lower(ids[i]) == l;
      assert Lower((ids + [v])[i]) == l;
    }
    assert Lower((ids + [v])[|ids|]) == Lower(v);
  }

  /** No spelling twice. */
  ghost predicate SpelledOnce(ids: seq<string>) {
    forall i, j | 0 <= i < j < |ids| :: Lower(ids[i]) != Lower(ids[j])
  }

  predicate FoundAs(v: string, raw: string) { v == TrimSpace(raw) && IsTableId(v) }

  /** Exactly the identifiers found, each spelling once. */
  lemma {:induction false} CollectedAre(found: seq<string>)
    ensures SpelledOnce(Collected(found))
    ensures forall id | id in Collected(found) :: exists raw :: raw in found && FoundAs(id, raw)
    ensures forall raw | raw in found && IsTableId(TrimSpace(raw)) :: SpelledIn(Collected(found), Lower(TrimSpace(raw)))
  {
    hide Lower, IsTableId, TrimSpace;
    if found != [] {
      var n := |found| - 1;
      CollectedAre(found[..n]);
      var ids, v := Collected(found[..n]), TrimSpace(found[n]);
      SpelledMore(ids, v);
      assert found == found[..n] + [found[n]];
      forall id | id in Collected(found)
        ensures exists raw :: raw in found && FoundAs(id, raw)
      {
        if id in ids {
          var raw :| raw in found[..n] && FoundAs(id, raw);
          assert raw in found;
        } else {
          assert FoundAs(id, found[n]);
        }
      }
    }
  }

  // ---- bounded matches ----

  predicate WordByte(c: char) {
    c == '_' || '0' <= c <= '9' || 'a' <= c <= 'z'
  }

  predicate OpenBefore(hay: string, at: nat) {
    at == 0 || at > |hay| || !WordByte(hay[at - 1])
  }

  predicate OpenAfter(hay: string, end: nat) {
    end >= |hay| || !WordByte(hay[end])
  }

  /** The needle stands here with no word character against it. */
  predicate Bounded(hay: string, needle: string, at: nat) {
    StartsAt(hay, needle, at) && OpenBefore(hay, at) && OpenAfter(hay, at + |needle|)
  }

  /** strings.Index over what is left of the text. */
  function IndexFrom(hay: string, needle: string, from: nat): (at: int)
    requires from <= |hay|
    ensures at == -1 || (from <= at && StartsAt(hay, needle, at))
    ensures forall p: nat | from <= p && (at == -1 || p < at) :: !StartsAt(hay, needle, p)
    decreases |hay| - from
  {
    if StartsAt(hay, needle, from) then from else if from == |hay| then -1 else IndexFrom(hay, needle, from + 1)
  }

  /** The least bounded match from some point on, or -1. */
  ghost predicate FirstBounded(hay: string, needle: string, from: nat, at: int) {
    if at < 0 then at == -1 && forall p: nat | from <= p :: !Bounded(hay, needle, p)
    else from <= at && Bounded(hay, needle, at) && forall p: nat | from <= p < at :: !Bounded(hay, needle, p)
  }

  /** The first bounded match at or after from, or -1. */
  method BoundedFrom(hay: string, needle: string, from: nat) returns (at: int)
    ensures FirstBounded(hay, needle, from, at)
  {
    hide WordByte;
    var next := from;
    while next <= |hay|
      invariant from <= next && forall p: nat | from <= p < next :: !Bounded(hay, needle, p)
      decreases |hay| + 1 - next
    {
      at := IndexFrom(hay, needle, next);
      if at < 0 {
        return -1;
      }
      var end := at + |needle|;
      if (at == 0 || !WordByte(hay[at - 1])) && (end == |hay| || !WordByte(hay[end])) {
        return at;
      }
      next := at + 1;
    }
    at := -1;
  }

  /** Bounded matches in order, none overlapping the next, and none left out but those that overlap one listed. */
  ghost predicate Tiles(hay: string, needle: string, upTo: nat, out: seq<nat>) {
    && (forall i | 0 <= i < |out| :: Bounded(hay, needle, out[i]))
    && (forall i, j | 0 <= i < j < |out| :: out[i] + |needle| <= out[j])
    && (forall i | 0 <= i < |out| :: out[i] + |needle| <= upTo)
    && forall p: nat | p < upTo && Bounded(hay, needle, p) :: Covered(out, |needle|, p)
  }

  predicate Covered(out: seq<nat>, size: nat, p: nat) {
    exists i :: 0 <= i < |out| && out[i] <= p < out[i] + size
  }

  /** Every bounded match, left to right, going on after each one found. */
  method AllBounded(hay: string, needle: string) returns (out: seq<nat>)
    requires needle != ""
    ensures Tiles(hay, needle, |hay| + 1, out)
  {
    hide Bounded;
    out := [];
    ghost var next: nat := 0;
    var at := BoundedFrom(hay, needle, 0);
    while at >= 0
      invariant FirstBounded(hay, needle, next, at) && Tiles(hay, needle, next, out)
      decreases |hay| + 1 - next
    {
      BoundedInside(hay, needle, at);
      TilesMore(hay, needle, next, out, at);
      out, next := out + [at], at + |needle|;
      at := BoundedFrom(hay, needle, at + |needle|);
    }
    TilesAll(hay, needle, next, out);
  }

  lemma BoundedInside(hay: string, needle: string, at: nat)
    ensures Bounded(hay, needle, at) ==> at + |needle| <= |hay|
  {
  }

  lemma TilesMore(hay: string, needle: string, next: nat, out: seq<nat>, at: nat)
    requires Tiles(hay, needle, next, out) && FirstBounded(hay, needle, next, at)
    ensures Tiles(hay, needle, at + |needle|, out + [at])
  {
    hide Bounded;
    var more := out + [at];
    assert more[|out|] == at;
    forall p: nat | p < at + |needle| && Bounded(hay, needle, p)
      ensures Covered(more, |needle|, p)
    {
      if p < next {
        var i :| 0 <= i < |out| && out[i] <= p < out[i] + |needle|;
        assert more[i] <= p < more[i] + |needle|;
      } else {
        assert more[|out|] <= p < more[|out|] + |needle|;
      }
    }
  }

  lemma TilesAll(hay: string, needle: string, next: nat, out: seq<nat>)
    requires Tiles(hay, needle, next, out) && FirstBounded(hay, needle, next, -1)
    ensures Tiles(hay, needle, |hay| + 1, out)
  {
    hide Bounded;
    forall i | 0 <= i < |out|
      ensures out[i] + |needle| <= |hay|
    {
      BoundedInside(hay, needle, out[i]);
    }
  }

  // ---- masking ----

  function Blanks(n: nat): string {
    seq(n, _ => ' ')
  }

  function Masked(hay: string, at: nat, size: nat): string
    requires at + size <= |hay|
  {
    hay[..at] + Blanks(size) + hay[at + size..]
  }

  /** One span blanked, as a stretch of the original text. */
  datatype Span = Span(at: nat, size: nat)

  predicate Within(s: Span, p: nat) {
    s.at <= p < s.at + s.size
  }

  predicate InSpan(spans: seq<Span>, p: nat) {
    exists i :: 0 <= i < |spans| && Within(spans[i], p)
  }

  /** The text with these spans blanked and nothing else touched, every span written as one of the identifiers. */
  ghost predicate Unpinned(lowered: string, needles: seq<string>, spans: seq<Span>, out: string) {
    && |out| == |lowered|
    && (forall p | 0 <= p < |out| :: out[p] == if InSpan(spans, p) then ' ' else lowered[p])
    && forall i | 0 <= i < |spans| :: Pins(lowered, needles, spans[i])
  }

  predicate Pins(lowered: string, needles: seq<string>, s: Span) {
    s.at + s.size <= |lowered| && lowered[s.at..s.at + s.size] in needles
  }

  predicate NoBlank(s: string) { ' ' !in s }

  lemma MaskMore(lowered: string, needles: seq<string>, spans: seq<Span>, out: string, at: nat, needle: string)
    requires Unpinned(lowered, needles, spans, out) && StartsAt(out, needle, at) && NoBlank(needle) && needle in needles
    ensures Unpinned(lowered, needles, spans + [Span(at, |needle|)], Masked(out, at, |needle|))
  {
    var s, more := Span(at, |needle|), spans + [Span(at, |needle|)];
    InMore(spans, s);
    forall p | at <= p < at + |needle|
      ensures lowered[p] == out[p]
    {
      assert out[p] == needle[p - at];
    }
    assert lowered[at..at + |needle|] == needle;
    forall i | 0 <= i < |more|
      ensures Pins(lowered, needles, more[i])
    {
      assert i < |spans| ==> Pins(lowered, needles, spans[i]);
    }
  }

  lemma InMore(spans: seq<Span>, s: Span)
    ensures forall p :: InSpan(spans + [s], p) <==> InSpan(spans, p) || Within(s, p)
  {
    hide Within;
    var more := spans + [s];
    assert more[|spans|] == s;
    forall p | InSpan(spans, p)
      ensures InSpan(more, p)
    {
      var i :| 0 <= i < |spans| && Within(spans[i], p);
      assert Within(more[i], p);
    }
  }

  /** Whatever stands in the masked text without a blank in it touches no span. */
  lemma MentionsMissSpans(lowered: string, needles: seq<string>, spans: seq<Span>, out: string, word: string, at: nat,
                          p: nat)
    requires Unpinned(lowered, needles, spans, out) && StartsAt(out, word, at) && NoBlank(word) && at <= p < at + |word|
    ensures !InSpan(spans, p) && out[p] == lowered[p]
  {
    assert out[p] == word[p - at];
  }

  /** Some part of this stretch is blanked. */
  ghost predicate Touched(spans: seq<Span>, at: nat, size: nat) {
    exists p: nat :: at <= p < at + size && InSpan(spans, p)
  }

  /** Every mention of the identifier in the original text is blanked, at least in part. */
  ghost predicate Blanked(lowered: string, needle: string, spans: seq<Span>) {
    forall p: nat | Bounded(lowered, needle, p) :: Touched(spans, p, |needle|)
  }

  ghost predicate Extends(spans: seq<Span>, more: seq<Span>) {
    forall p | InSpan(spans, p) :: InSpan(more, p)
  }

  lemma BlankedMore(lowered: string, needle: string, spans: seq<Span>, more: seq<Span>)
    requires Blanked(lowered, needle, spans) && Extends(spans, more)
    ensures Blanked(lowered, needle, more)
  {
    hide Bounded, InSpan;
    forall p: nat | Bounded(lowered, needle, p)
      ensures Touched(more, p, |needle|)
    {
      var q: nat :| p <= q < p + |needle| && InSpan(spans, q);
      assert InSpan(more, q);
    }
  }

  /** Blanks only ever open a match's ends, so a mention no blank touches is still bounded. */
  lemma StillBounded(lowered: string, needles: seq<string>, spans: seq<Span>, out: string, needle: string, p: nat)
    requires Unpinned(lowered, needles, spans, out) && Bounded(lowered, needle, p) && !Touched(spans, p, |needle|)
    ensures Bounded(out, needle, p)
  {
    hide InSpan, Pins;
    forall q | p <= q < p + |needle|
      ensures out[q] == lowered[q]
    {
      assert !InSpan(spans, q);
    }
    assert out[p..p + |needle|] == lowered[p..p + |needle|];
  }

  lemma TilesBlank(lowered: string, needles: seq<string>, spans: seq<Span>, out: string, needle: string,
                   tiles: seq<nat>, more: seq<Span>)
    requires Unpinned(lowered, needles, spans, out) && Tiles(out, needle, |out| + 1, tiles) && needle != ""
    requires Extends(spans, more) && forall j | 0 <= j < |tiles| :: Span(tiles[j], |needle|) in more
    ensures Blanked(lowered, needle, more)
  {
    hide Bounded, Unpinned;
    forall p: nat | Bounded(lowered, needle, p)
      ensures Touched(more, p, |needle|)
    {
      if Touched(spans, p, |needle|) {
        var q: nat :| p <= q < p + |needle| && InSpan(spans, q);
        assert InSpan(more, q);
      } else {
        StillBounded(lowered, needles, spans, out, needle, p);
        BoundedInside(out, needle, p);
        var i :| 0 <= i < |tiles| && tiles[i] <= p < tiles[i] + |needle|;
        var x :| 0 <= x < |more| && more[x] == Span(tiles[i], |needle|);
        assert Within(more[x], p);
        assert InSpan(more, p);
      }
    }
  }

  /** Blanks each of these matches of one identifier. */
  method MaskTiles(ghost lowered: string, ghost needles: seq<string>, spans0: seq<Span>, text: string, needle: string,
                   tiles: seq<nat>)
    returns (out: string, spans: seq<Span>)
    requires Unpinned(lowered, needles, spans0, text) && Tiles(text, needle, |text| + 1, tiles) && NoBlank(needle)
    requires needle in needles
    requires needle != ""
    ensures Unpinned(lowered, needles, spans, out) && Extends(spans0, spans) && Blanked(lowered, needle, spans)
    ensures spans == spans0 + TileSpans(tiles, |needle|) && out == MaskedAll(text, tiles, |needle|)
  {
    hide *;
    out, spans := text, spans0;
    TilesStand(text, needle, tiles);
    NoneMasked(lowered, needles, spans0, text, needle, tiles);
    for j := 0 to |tiles|
      invariant MaskedTo(lowered, needles, spans0, needle, tiles, j, spans, out)
    {
      MaskOne(lowered, needles, spans0, needle, tiles, j, spans, out);
      out, spans := Masked(out, tiles[j], |needle|), spans + [Span(tiles[j], |needle|)];
    }
    AllMasked(lowered, needles, spans0, text, needle, tiles, spans, out);
  }

  /** The first matches are blanked and the others still stand. */
  ghost predicate MaskedTo(lowered: string, needles: seq<string>, spans0: seq<Span>, needle: string, tiles: seq<nat>,
                           j: nat, spans: seq<Span>, out: string) {
    && j <= |tiles| && Unpinned(lowered, needles, spans, out) && Extends(spans0, spans)
    && spans == spans0 + TileSpans(tiles, |needle|)[..j]
    && Apart(tiles, |needle|) && forall i | j <= i < |tiles| :: StartsAt(out, needle, tiles[i])
  }

  ghost predicate Apart(tiles: seq<nat>, size: nat) {
    forall i, j | 0 <= i < j < |tiles| :: tiles[i] + size <= tiles[j]
  }

  lemma NoneMasked(lowered: string, needles: seq<string>, spans: seq<Span>, text: string, needle: string,
                   tiles: seq<nat>)
    requires Unpinned(lowered, needles, spans, text) && Apart(tiles, |needle|)
    requires forall i | 0 <= i < |tiles| :: StartsAt(text, needle, tiles[i])
    ensures MaskedTo(lowered, needles, spans, needle, tiles, 0, spans, text)
  {
    hide Unpinned, StartsAt;
    assert spans + TileSpans(tiles, |needle|)[..0] == spans;
  }

  lemma MaskOne(lowered: string, needles: seq<string>, spans0: seq<Span>, needle: string, tiles: seq<nat>, j: nat,
                spans: seq<Span>, out: string)
    requires MaskedTo(lowered, needles, spans0, needle, tiles, j, spans, out) && j < |tiles|
    requires NoBlank(needle) && needle in needles
    ensures tiles[j] + |needle| <= |out|
    ensures MaskedTo(lowered, needles, spans0, needle, tiles, j + 1, spans + [Span(tiles[j], |needle|)],
                     Masked(out, tiles[j], |needle|))
  {
    hide Unpinned, Masked, InSpan, NoBlank;
    MaskMore(lowered, needles, spans, out, tiles[j], needle);
    InMore(spans, Span(tiles[j], |needle|));
    forall i | j < i < |tiles|
      ensures StartsAt(Masked(out, tiles[j], |needle|), needle, tiles[i])
    {
      MaskKeeps(out, tiles[j], |needle|, needle, tiles[i]);
    }
  }

  lemma AllMasked(lowered: string, needles: seq<string>, spans0: seq<Span>, text: string, needle: string,
                  tiles: seq<nat>,
                  spans: seq<Span>, out: string)
    requires Unpinned(lowered, needles, spans0, text) && Tiles(text, needle, |text| + 1, tiles) && needle != ""
    requires MaskedTo(lowered, needles, spans0, needle, tiles, |tiles|, spans, out)
    ensures Unpinned(lowered, needles, spans, out) && Extends(spans0, spans) && Blanked(lowered, needle, spans)
    ensures spans == spans0 + TileSpans(tiles, |needle|) && out == MaskedAll(text, tiles, |needle|)
  {
    hide Unpinned, InSpan, Bounded, Blanked, MaskedAll, Tiles, Extends;
    var own := TileSpans(tiles, |needle|);
    assert own[..|tiles|] == own;
    forall j | 0 <= j < |tiles|
      ensures Span(tiles[j], |needle|) in spans
    {
      assert spans[|spans0| + j] == own[j];
    }
    TilesBlank(lowered, needles, spans0, text, needle, tiles, spans);
    MaskedTogether(lowered, needles, spans0, text, tiles, |needle|, out);
  }

  function TileSpans(tiles: seq<nat>, size: nat): seq<Span> {
    seq(|tiles|, j requires 0 <= j < |tiles| => Span(tiles[j], size))
  }

  /** The text with all these matches blanked at once. */
  function MaskedAll(text: string, tiles: seq<nat>, size: nat): string {
    seq(|text|, x requires 0 <= x < |text| => if Covered(tiles, size, x) then ' ' else text[x])
  }

  lemma InSpansOf(spans: seq<Span>, tiles: seq<nat>, size: nat, x: nat)
    ensures InSpan(spans + TileSpans(tiles, size), x) <==> InSpan(spans, x) || Covered(tiles, size, x)
  {
    var all, own := spans + TileSpans(tiles, size), TileSpans(tiles, size);
    if i :| 0 <= i < |all| && Within(all[i], x) {
      assert i >= |spans| ==> all[i] == own[i - |spans|];
    }
    if i :| 0 <= i < |spans| && Within(spans[i], x) {
      assert Within(all[i], x);
    }
    if i :| 0 <= i < |tiles| && tiles[i] <= x < tiles[i] + size {
      assert all[|spans| + i] == own[i] && Within(all[|spans| + i], x);
    }
  }

  lemma MaskedTogether(lowered: string, needles: seq<string>, spans: seq<Span>, text: string, tiles: seq<nat>,
                       size: nat,
                       out: string)
    requires Unpinned(lowered, needles, spans, text) && Unpinned(lowered, needles, spans + TileSpans(tiles, size), out)
    ensures out == MaskedAll(text, tiles, size)
  {
    hide InSpan, Covered, Pins;
    forall x: nat | x < |lowered|
      ensures out[x] == MaskedAll(text, tiles, size)[x]
    {
      InSpansOf(spans, tiles, size, x);
    }
  }

  /** One needle's turn: the text it is looked for in, and its matches there. */
  datatype Pass = Pass(text: string, tiles: seq<nat>)

  /** The text after the first passes. */
  function TextAfter(lowered: string, needles: seq<string>, passes: seq<Pass>, i: nat): string
    requires i <= |passes| <= |needles|
  {
    if i == 0 then lowered else MaskedAll(passes[i - 1].text, passes[i - 1].tiles, |needles[i - 1]|)
  }

  ghost predicate PassDone(lowered: string, needles: seq<string>, passes: seq<Pass>, i: nat)
    requires i < |passes| <= |needles|
  {
    && passes[i].text == TextAfter(lowered, needles, passes, i)
    && Tiles(passes[i].text, needles[i], |passes[i].text| + 1, passes[i].tiles)
  }

  /** Each needle in turn, looked for in what the ones before it left and blanked there. */
  ghost predicate Passes(lowered: string, needles: seq<string>, passes: seq<Pass>, out: string) {
    && |passes| == |needles| && (forall i | 0 <= i < |passes| :: PassDone(lowered, needles, passes, i))
    && out == TextAfter(lowered, needles, passes, |passes|)
  }

  /** All that the passes blank. */
  function PassSpans(needles: seq<string>, passes: seq<Pass>): seq<Span>
    requires |passes| <= |needles|
  {
    if passes == [] then [] else
      var n := |passes| - 1;
      PassSpans(needles, passes[..n]) + TileSpans(passes[n].tiles, |needles[n]|)
  }

  /** The first needles' passes. */
  ghost predicate PassesTo(lowered: string, needles: seq<string>, passes: seq<Pass>, out: string) {
    && |passes| <= |needles| && (forall i | 0 <= i < |passes| :: PassDone(lowered, needles, passes, i))
    && out == TextAfter(lowered, needles, passes, |passes|)
  }

  lemma PassesMore(lowered: string, needles: seq<string>, passes: seq<Pass>, out: string, tiles: seq<nat>)
    requires PassesTo(lowered, needles, passes, out) && |passes| < |needles|
    requires Tiles(out, needles[|passes|], |out| + 1, tiles)
    ensures PassesTo(lowered, needles, passes + [Pass(out, tiles)], MaskedAll(out, tiles, |needles[|passes|]|))
    ensures PassSpans(needles, passes + [Pass(out, tiles)])
         == PassSpans(needles, passes) + TileSpans(tiles, |needles[|passes|]|)
  {
    hide Tiles, MaskedAll;
    var more := passes + [Pass(out, tiles)];
    assert more[..|passes|] == passes;
    forall i | 0 <= i < |more|
      ensures PassDone(lowered, needles, more, i)
    {
      assert i < |passes| ==> PassDone(lowered, needles, passes, i);
    }
  }

  lemma TilesStand(text: string, needle: string, tiles: seq<nat>)
    requires Tiles(text, needle, |text| + 1, tiles)
    ensures forall i | 0 <= i < |tiles| :: StartsAt(text, needle, tiles[i])
    ensures Apart(tiles, |needle|)
  {
  }

  lemma MaskKeeps(text: string, at: nat, size: nat, needle: string, p: nat)
    requires at + size <= p && StartsAt(text, needle, p)
    ensures StartsAt(Masked(text, at, size), needle, p)
  {
    assert Masked(text, at, size)[p..p + |needle|] == text[p..p + |needle|];
  }

  function Needles(candidates: seq<string>): seq<string> {
    seq(|candidates|, i requires 0 <= i < |candidates| => Lower(candidates[i]))
  }

  lemma LowerNoBlank(s: string)
    requires NoBlank(s)
    ensures NoBlank(Lower(s)) && |Lower(s)| == |s|
  {
    forall i | 0 <= i < |s|
      ensures Lower(s)[i] != ' '
    {
      assert s[i] in s;
    }
  }

  lemma IdHasNoBlank(id: string)
    requires IsTableId(id)
    ensures NoBlank(Lower(id)) && Lower(id) != "" && Bare(id) != "" && NoBlank(Bare(id)) && NoBlank(Lower(Bare(id)))
  {
    ScopeAndBare(id);
    assert forall c | c in id :: c in Scope(id) || c == '/' || c in Bare(id);
    LowerNoBlank(id);
    LowerNoBlank(Bare(id));
  }

  /** Blanks every full mention of every candidate, in turn. */
  method Unpin(candidates: seq<string>, lowered: string) returns (out: string, spans: seq<Span>, passes: seq<Pass>)
    requires forall c | c in candidates :: IsTableId(c)
    ensures Passes(lowered, Needles(candidates), passes, out) && spans == PassSpans(Needles(candidates), passes)
    ensures Unpinned(lowered, Needles(candidates), spans, out)
    ensures forall c | c in candidates :: Blanked(lowered, Lower(c), spans)
  {
    hide Unpinned, Tiles, Extends, IsTableId, Lower, NoBlank, Blanked, PassDone, TextAfter, PassSpans, PassesTo;
    out, spans, passes := lowered, [], [];
    NoPasses(lowered, Needles(candidates));
    NothingPinned(lowered, Needles(candidates));
    for n := 0 to |candidates|
      invariant Unpinned(lowered, Needles(candidates), spans, out)
      invariant |passes| == n && PassesTo(lowered, Needles(candidates), passes, out)
      invariant spans == PassSpans(Needles(candidates), passes)
      invariant forall i | 0 <= i < n :: Blanked(lowered, Lower(candidates[i]), spans)
    {
      var c := candidates[n];
      IdHasNoBlank(c);
      var needle := Lower(c);
      assert Needles(candidates)[n] == needle;
      var tiles := AllBounded(out, needle);
      ghost var before := spans;
      PassesMore(lowered, Needles(candidates), passes, out, tiles);
      passes := passes + [Pass(out, tiles)];
      out, spans := MaskTiles(lowered, Needles(candidates), spans, out, needle, tiles);
      forall i | 0 <= i < n
        ensures Blanked(lowered, Lower(candidates[i]), spans)
      {
        BlankedMore(lowered, Lower(candidates[i]), before, spans);
      }
    }
    AllPasses(lowered, Needles(candidates), passes, out);
  }

  lemma NoPasses(lowered: string, needles: seq<string>)
    ensures PassesTo(lowered, needles, [], lowered) && PassSpans(needles, []) == []
  {
  }

  lemma AllPasses(lowered: string, needles: seq<string>, passes: seq<Pass>, out: string)
    requires PassesTo(lowered, needles, passes, out) && |passes| == |needles|
    ensures Passes(lowered, needles, passes, out)
  {
  }

  lemma NothingPinned(lowered: string, needles: seq<string>)
    ensures Unpinned(lowered, needles, [], lowered)
  {
  }

  // ---- mentions ----

  predicate PlainWord(s: string) {
    s != "" && forall c | c in s :: 'a' <= c <= 'z'
  }

  /** A code span opens here with this name, and ends or goes on with a dot after it. */
  predicate CodeAt(hay: string, name: string, at: nat) {
    StartsAt(hay, "`" + name, at) && at + 1 + |name| < |hay| && hay[at + 1 + |name|] in {'`', '.'}
  }

  method IndexCodeSpan(hay: string, name: string) returns (at: int)
    ensures if at < 0 then at == -1 && forall p: nat :: !CodeAt(hay, name, p)
            else CodeAt(hay, name, at) && forall p: nat | p < at :: !CodeAt(hay, name, p)
  {
    var needle, next := "`" + name, 0;
    while next < |hay|
      invariant 0 <= next && forall p: nat | p < next :: !CodeAt(hay, name, p)
    {
      at := IndexFrom(hay, needle, next);
      if at < 0 {
        return -1;
      }
      var end := at + |needle|;
      if end < |hay| && (hay[end] == '`' || hay[end] == '.') {
        return at;
      }
      next := at + 1;
    }
    at := -1;
  }

  /** The bare name is mentioned here: a plain word only in code, any other name as a word of its own. */
  predicate BareAt(candidate: string, unpinned: string, p: nat) {
    if PlainWord(Bare(candidate)) then CodeAt(unpinned, Bare(candidate), p)
    else Bounded(unpinned, Lower(Bare(candidate)), p)
  }

  predicate MentionedAt(candidate: string, lowered: string, unpinned: string, p: nat) {
    Bounded(lowered, Lower(candidate), p) || BareAt(candidate, unpinned, p)
  }

  /** The first mention, or -1 without one. */
  ghost predicate FirstPlace(candidate: string, lowered: string, unpinned: string, pos: int) {
    if pos < 0 then pos == -1 && forall p: nat :: !MentionedAt(candidate, lowered, unpinned, p)
    else
      && MentionedAt(candidate, lowered, unpinned, pos)
      && forall p: nat | p < pos :: !MentionedAt(candidate, lowered, unpinned, p)
  }

  method FirstMention(candidate: string, lowered: string, unpinned: string) returns (pos: int)
    ensures FirstPlace(candidate, lowered, unpinned, pos)
  {
    hide Bounded, CodeAt, PlainWord, Bare, Lower;
    pos := BoundedFrom(lowered, Lower(candidate), 0);
    var bare := Bare(candidate);
    var b;
    if PlainWord(bare) {
      b := IndexCodeSpan(unpinned, bare);
    } else {
      b := BoundedFrom(unpinned, Lower(bare), 0);
    }
    if pos < 0 || (b >= 0 && b < pos) {
      pos := b;
    }
  }

  /** A mention of a bare name touches no full identifier blanked before it was looked for. */
  lemma BareMentionsMissSpans(candidate: string, lowered: string, needles: seq<string>, spans: seq<Span>,
                              unpinned: string, p: nat, q: nat)
    requires IsTableId(candidate) && Unpinned(lowered, needles, spans, unpinned) && BareAt(candidate, unpinned, p)
    requires p <= q < p + |Bare(candidate)| + if PlainWord(Bare(candidate)) then 1 else 0
    ensures !InSpan(spans, q)
  {
    hide Unpinned, InSpan, IsTableId;
    IdHasNoBlank(candidate);
    if PlainWord(Bare(candidate)) {
      MentionsMissSpans(lowered, needles, spans, unpinned, "`" + Bare(candidate), p, q);
    } else {
      MentionsMissSpans(lowered, needles, spans, unpinned, Lower(Bare(candidate)), p, q);
    }
  }

  // ---- citations ----

  datatype Mention = Mention(pos: nat, order: nat, id: string)

  predicate Earlier(a: Mention, b: Mention) {
    a.pos < b.pos || (a.pos == b.pos && a.order < b.order)
  }

  /** Every mentioned candidate among the first n, once each, in the order of the candidates. */
  ghost predicate MentionsOf(candidates: seq<string>, lowered: string, unpinned: string, n: nat, ms: seq<Mention>) {
    && n <= |candidates| && |ms| <= n
    && (forall i | 0 <= i < |ms| :: IsMention(candidates, lowered, unpinned, ms[i]) && ms[i].order < n)
    && (forall i, j | 0 <= i < j < |ms| :: ms[i].order < ms[j].order)
    && forall m | IsMention(candidates, lowered, unpinned, m) && m.order < n :: m in ms
  }

  ghost predicate IsMention(candidates: seq<string>, lowered: string, unpinned: string, m: Mention) {
    m.order < |candidates| && m.id == candidates[m.order] && FirstPlace(m.id, lowered, unpinned, m.pos)
  }

  /** The citations: mentioned candidates by first mention and then discovery, cut after the first twenty. */
  ghost predicate Cites(candidates: seq<string>, lowered: string, unpinned: string, picks: seq<Mention>,
                        cited: seq<string>) {
    && |cited| == |picks| <= MAX_CITATIONS && |picks| <= |candidates|
    && (forall i | 0 <= i < |picks| :: IsMention(candidates, lowered, unpinned, picks[i]) && cited[i] == picks[i].id)
    && (forall i, j | 0 <= i < j < |picks| :: Earlier(picks[i], picks[j]))
    && forall m | IsMention(candidates, lowered, unpinned, m) ::
         m in picks || (|picks| == MAX_CITATIONS && forall i | 0 <= i < |picks| :: Earlier(picks[i], m))
  }

  lemma EarlierRanks()
    ensures Ranks(Earlier)
  {
  }

  lemma MentionsMore(candidates: seq<string>, lowered: string, unpinned: string, n: nat, ms: seq<Mention>, pos: int)
    requires MentionsOf(candidates, lowered, unpinned, n, ms) && n < |candidates|
    requires FirstPlace(candidates[n], lowered, unpinned, pos)
    ensures MentionsOf(candidates, lowered, unpinned, n + 1,
                       if pos >= 0 then ms + [Mention(pos, n, candidates[n])] else ms)
  {
    hide MentionsOf, FirstPlace;
    forall m | IsMention(candidates, lowered, unpinned, m) && m.order == n
      ensures pos >= 0 && m == Mention(pos, n, candidates[n])
    {
      OneFirst(candidates[n], lowered, unpinned, pos, m.pos);
    }
    if pos >= 0 {
      assert IsMention(candidates, lowered, unpinned, Mention(pos, n, candidates[n]));
    }
    hide IsMention;
    if pos >= 0 {
      MentionsWith(candidates, lowered, unpinned, n, ms, Mention(pos, n, candidates[n]));
    } else {
      MentionsWithout(candidates, lowered, unpinned, n, ms);
    }
  }

  lemma MentionsWith(candidates: seq<string>, lowered: string, unpinned: string, n: nat, ms: seq<Mention>, x: Mention)
    requires MentionsOf(candidates, lowered, unpinned, n, ms) && n < |candidates| && x.order == n
    requires IsMention(candidates, lowered, unpinned, x)
    requires forall m | IsMention(candidates, lowered, unpinned, m) && m.order == n :: m == x
    ensures MentionsOf(candidates, lowered, unpinned, n + 1, ms + [x])
  {
    hide IsMention;
    var more := ms + [x];
    assert more[|ms|] in more;
    forall m | IsMention(candidates, lowered, unpinned, m) && m.order < n + 1
      ensures m in more
    {
      assert m.order < n ==> m in ms;
    }
  }

  lemma MentionsWithout(candidates: seq<string>, lowered: string, unpinned: string, n: nat, ms: seq<Mention>)
    requires MentionsOf(candidates, lowered, unpinned, n, ms) && n < |candidates|
    requires forall m | IsMention(candidates, lowered, unpinned, m) :: m.order != n
    ensures MentionsOf(candidates, lowered, unpinned, n + 1, ms)
  {
    hide IsMention;
  }

  lemma OneFirst(candidate: string, lowered: string, unpinned: string, pos: int, pos': int)
    requires FirstPlace(candidate, lowered, unpinned, pos) && FirstPlace(candidate, lowered, unpinned, pos')
    ensures pos == pos'
  {
    hide MentionedAt;
  }

  lemma CutCites(candidates: seq<string>, lowered: string, unpinned: string, ms: seq<Mention>, sorted: seq<Mention>,
                 n: nat, cited: seq<string>)
    requires MentionsOf(candidates, lowered, unpinned, |candidates|, ms)
    requires Sorted(sorted, Earlier) && multiset(sorted) == multiset(ms)
    requires n <= |sorted| && n <= MAX_CITATIONS && (n == |sorted| || n == MAX_CITATIONS) && |cited| == n
    requires forall i | 0 <= i < n :: cited[i] == sorted[i].id
    ensures Cites(candidates, lowered, unpinned, sorted[..n], cited)
  {
    hide FirstPlace;
    assert |sorted| == |multiset(sorted)| == |multiset(ms)| == |ms|;
    forall m
      ensures m in sorted <==> m in ms
    {
      assert m in sorted <==> m in multiset(sorted);
    }
    forall i | 0 <= i < |sorted|
      ensures IsMention(candidates, lowered, unpinned, sorted[i])
    {
      assert sorted[i] in ms;
    }
    forall i, j | 0 <= i < j < |sorted|
      ensures Earlier(sorted[i], sorted[j])
    {
      OrdersApart(ms, sorted, i, j);
    }
    forall m | IsMention(candidates, lowered, unpinned, m) && m !in sorted[..n]
      ensures n == MAX_CITATIONS && forall i | 0 <= i < n :: Earlier(sorted[i], m)
    {
      var x :| 0 <= x < |sorted| && sorted[x] == m;
      assert forall i | 0 <= i < n :: sorted[i] in sorted[..n];
    }
  }

  lemma OrdersApart(ms: seq<Mention>, sorted: seq<Mention>, i: nat, j: nat)
    requires (forall i, j | 0 <= i < j < |ms| :: ms[i].order < ms[j].order)
    requires multiset(sorted) == multiset(ms) && i < j < |sorted|
    ensures sorted[i].order != sorted[j].order
  {
    var a, b := sorted[i], sorted[j];
    TwiceIn(sorted, i, j);
    OnceEach(ms, a);
    assert a in multiset(ms) && b in multiset(ms);
    var x :| 0 <= x < |ms| && ms[x] == a;
    var y :| 0 <= y < |ms| && ms[y] == b;
  }

  lemma TwiceIn(s: seq<Mention>, i: nat, j: nat)
    requires i < j < |s|
    ensures s[i] == s[j] ==> multiset(s)[s[i]] >= 2
  {
    assert s == s[..i] + [s[i]] + s[i + 1..j] + [s[j]] + s[j + 1..];
  }

  lemma {:induction false} OnceEach(ms: seq<Mention>, m: Mention)
    requires forall i, j | 0 <= i < j < |ms| :: ms[i].order < ms[j].order
    ensures multiset(ms)[m] <= 1
  {
    if ms != [] {
      var n := |ms| - 1;
      OnceEach(ms[..n], m);
      assert ms == ms[..n] + [ms[n]];
      assert forall i | 0 <= i < n :: ms[..n][i] != ms[n];
    }
  }

  /** The tables among those retrieved that the answer mentions. */
  method ExtractCitations(found: seq<string>, answer: string)
    returns (cited: seq<string>, unpinned: string, spans: seq<Span>, passes: seq<Pass>, picks: seq<Mention>)
    ensures answer == "" ==> cited == []
    ensures answer != "" ==> Unpinned(Lower(answer), Needles(Collected(found)), spans, unpinned)
    ensures answer != "" ==> Passes(Lower(answer), Needles(Collected(found)), passes, unpinned)
    ensures answer != "" ==> spans == PassSpans(Needles(Collected(found)), passes)
    ensures answer != "" ==> Cites(Collected(found), Lower(answer), unpinned, picks, cited)
    ensures answer != "" ==> forall c | c in Collected(found) :: Blanked(Lower(answer), Lower(c), spans)
  {
    hide *;
    cited, unpinned, spans, passes, picks := [], "", [], [], [];
    if answer == "" {
      return;
    }
    var lowered := Lower(answer);
    var candidates := Collect(found);
    CollectedAreIds(found);
    var text;
    text, spans, passes := Unpin(candidates, lowered);
    unpinned := text;
    var mentions: seq<Mention> := [];
    NothingMentioned(candidates, lowered, text);
    for n := 0 to |candidates|
      invariant MentionsOf(candidates, lowered, text, n, mentions)
    {
      var pos := FirstMention(candidates[n], lowered, text);
      MentionsMore(candidates, lowered, text, n, mentions, pos);
      if pos >= 0 {
        mentions := mentions + [Mention(pos, n, candidates[n])];
      }
    }
    EarlierRanks();
    var sorted := SortBy(mentions, Earlier);
    var size := if |sorted| < MAX_CITATIONS then |sorted| else MAX_CITATIONS;
    for i := 0 to size
      invariant |cited| == i && forall k | 0 <= k < i :: cited[k] == sorted[k].id
    {
      cited := cited + [sorted[i].id];
    }
    picks := sorted[..size];
    CutCites(candidates, lowered, text, mentions, sorted, size, cited);
  }

  lemma NothingMentioned(candidates: seq<string>, lowered: string, unpinned: string)
    ensures MentionsOf(candidates, lowered, unpinned, 0, [])
  {
  }

  lemma CollectedAreIds(found: seq<string>)
    ensures forall c | c in Collected(found) :: IsTableId(c)
  {
    hide IsTableId, Collected, TrimSpace;
    CollectedAre(found);
    forall c | c in Collected(found)
      ensures IsTableId(c)
    {
      var raw :| raw in found && FoundAs(c, raw);
    }
  }

  /** No table is cited twice, under any spelling, and every one cited is mentioned and was retrieved. */
  lemma CitedOnce(found: seq<string>, lowered: string, unpinned: string, picks: seq<Mention>, cited: seq<string>)
    requires Cites(Collected(found), lowered, unpinned, picks, cited)
    ensures SpelledOnce(cited) && forall id | id in cited :: id in Collected(found) && IsTableId(id)
  {
    hide IsTableId, Collected, Lower, MentionedAt;
    CollectedAre(found);
    CollectedAreIds(found);
    var candidates := Collected(found);
    forall i, j | 0 <= i < j < |cited|
      ensures Lower(cited[i]) != Lower(cited[j])
    {
      var a, b := picks[i], picks[j];
      assert IsMention(candidates, lowered, unpinned, a) && IsMention(candidates, lowered, unpinned, b)
        && Earlier(a, b);
      assert a.order == b.order ==> a.pos == b.pos;
      assert a.order != b.order;
    }
  }

  /** What is cited is settled by which candidates there are and where each is first mentioned. */
  lemma CitesUnique(candidates: seq<string>, lowered: string, unpinned: string,
                    picks: seq<Mention>, cited: seq<string>, picks': seq<Mention>, cited': seq<string>)
    requires Cites(candidates, lowered, unpinned, picks, cited) && Cites(candidates, lowered, unpinned, picks', cited')
    ensures picks == picks' && cited == cited'
  {
    hide FirstPlace;
    PicksAgree(candidates, lowered, unpinned, picks, cited, picks', cited', 0);
  }

  lemma {:induction false} PicksAgree(candidates: seq<string>, lowered: string, unpinned: string,
                                      picks: seq<Mention>, cited: seq<string>, picks': seq<Mention>,
                                      cited': seq<string>, n: nat)
    requires Cites(candidates, lowered, unpinned, picks, cited) && Cites(candidates, lowered, unpinned, picks', cited')
    requires n <= |picks| && n <= |picks'| && picks[..n] == picks'[..n]
    ensures picks == picks'
    decreases |picks| - n
  {
    hide IsMention;
    if n == |picks| && n < |picks'| {
      NextPick(candidates, lowered, unpinned, picks, cited, picks', cited', n);
    } else if n == |picks'| && n < |picks| {
      NextPick(candidates, lowered, unpinned, picks', cited', picks, cited, n);
    } else if n < |picks| {
      NextPick(candidates, lowered, unpinned, picks, cited, picks', cited', n);
      NextPick(candidates, lowered, unpinned, picks', cited', picks, cited, n);
      assert picks[..n + 1] == picks'[..n + 1];
      PicksAgree(candidates, lowered, unpinned, picks, cited, picks', cited', n + 1);
    } else {
      assert picks == picks[..n] && picks' == picks'[..n];
    }
  }

  /** The next pick of the one is no later than the next of the other. */
  lemma NextPick(candidates: seq<string>, lowered: string, unpinned: string,
                 picks: seq<Mention>, cited: seq<string>, picks': seq<Mention>, cited': seq<string>, n: nat)
    requires Cites(candidates, lowered, unpinned, picks, cited) && Cites(candidates, lowered, unpinned, picks', cited')
    requires n <= |picks| && n < |picks'| && picks[..n] == picks'[..n]
    ensures n < |picks| && (picks[n] == picks'[n] || Earlier(picks[n], picks'[n]))
  {
    hide IsMention;
    var m := picks'[n];
    forall i | 0 <= i < n
      ensures picks[i] == picks'[i] && picks[i] != m
    {
      assert picks[..n][i] == picks'[..n][i];
      assert Earlier(picks'[i], m);
    }
    if m in picks {
      var x :| 0 <= x < |picks| && picks[x] == m;
      assert x >= n;
    }
  }

  /** Twenty citations at most, by first mention and, where two start together, in the order retrieved; whatever is
      mentioned and not cited was first mentioned no earlier than all twenty. */
  lemma CitedInOrder(candidates: seq<string>, lowered: string, unpinned: string, picks: seq<Mention>,
                     cited: seq<string>)
    requires Cites(candidates, lowered, unpinned, picks, cited)
    ensures |cited| == |picks| <= 20
    ensures forall i, j | 0 <= i < j < |picks| ::
      picks[i].pos <= picks[j].pos && (picks[i].pos == picks[j].pos ==> picks[i].order < picks[j].order)
    ensures forall m | IsMention(candidates, lowered, unpinned, m) && m !in picks ::
      |cited| == 20 && forall i | 0 <= i < |picks| :: picks[i].pos <= m.pos
  {
    hide FirstPlace;
  }

  /** A name stands as a word exactly when neither neighbour is a letter, a digit or an underscore. */
  lemma BoundedInText(before: string, name: string, after: string)
    ensures Bounded(before + name + after, name, |before|) <==>
      && (before != "" ==> var c := before[|before| - 1]; !(c == '_' || '0' <= c <= '9' || 'a' <= c <= 'z'))
      && (after != "" ==> var c := after[0]; !(c == '_' || '0' <= c <= '9' || 'a' <= c <= 'z'))
  {
    var s := before + name + after;
    assert s[|before|..|before| + |name|] == name;
    assert before != "" ==> s[|before| - 1] == before[|before| - 1];
    assert after != "" ==> s[|before| + |name|] == after[0];
  }

  /** A name that is a plain word is mentioned where it opens a code span and ends it or a dot follows; in prose,
      with no code span about, it is not mentioned at all. */
  lemma PlainWordInCode(candidate: string, before: string, close: char, after: string, prose: string, p: nat)
    requires PlainWord(Bare(candidate)) && '`' !in prose
    ensures BareAt(candidate, before + "`" + Bare(candidate) + [close] + after, |before|) <==> close in {'`', '.'}
    ensures !BareAt(candidate, prose, p)
  {
    hide PlainWord, Bare;
    var name := Bare(candidate);
    var s := before + "`" + name + [close] + after;
    assert s[|before|..|before| + 1 + |name|] == "`" + name;
    assert s[|before| + 1 + |name|] == close;
    OpensWithTick(prose, name, p);
  }

  lemma OpensWithTick(text: string, name: string, p: nat)
    ensures StartsAt(text, "`" + name, p) ==> '`' in text
  {
    if StartsAt(text, "`" + name, p) {
      var word := "`" + name;
      assert text[p..p + |word|][0] == word[0];
      assert text[p] == '`';
    }
  }

  /** A plain word is made of small letters and nothing else. */
  lemma PlainWords(s: string)
    ensures PlainWord(s) <==> s != "" && forall c | c in s :: SmallLetter(c)
  {
    assert forall c :: SmallLetter(c) <==> 'a' <= c <= 'z';
  }

  predicate Letter(c: char) {
    'a' <= c <= 'z' || 'A' <= c <= 'Z' || '0' <= c <= '9' || c == '_'
  }

  /** A domain and a name with a slash between are an identifier exactly when both start with a letter, a digit or an
      underscore and go on with those, dots and dashes; so there is one slash, and none without a slash is one. */
  lemma TableIds(domain: string, name: string)
    requires '/' !in domain
    ensures IsTableId(domain + "/" + name) <==>
      && domain != "" && Letter(domain[0]) && (forall c | c in domain :: Letter(c) || c in {'.', '-'})
      && name != "" && Letter(name[0]) && (forall c | c in name :: Letter(c) || c in {'.', '-'})
    ensures !IsTableId(domain)
  {
    ScopeOf(domain, name);
    hide Scope, Bare;
  }

  lemma {:induction false} ScopeOf(domain: string, name: string)
    requires '/' !in domain
    ensures '/' in domain + "/" + name && Scope(domain + "/" + name) == domain && Bare(domain + "/" + name) == name
  {
    var id := domain + "/" + name;
    assert id[|domain|] == '/';
    if domain != "" {
      ScopeOf(domain[1..], name);
      assert id[1..] == domain[1..] + "/" + name;
      assert domain == [domain[0]] + domain[1..];
    } else {
      assert id[1..] == name;
    }
  }
}
