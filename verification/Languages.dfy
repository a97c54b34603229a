/** Prose holding several languages, each translation opened by a bracketed tag. */
module Languages {
  import opened Options
  import opened Text

  function UpperChar(c: char): char {
    if 'a' <= c <= 'z' then c - 'a' + 'A' else c
  }

  function Upper(s: string): string {
    seq(|s|, i requires 0 <= i < |s| => UpperChar(s[i]))
  }

  function NormaliseTag(v: string): string {
    Upper(TrimSpace(v))
  }

  /** The characters of a language tag; a manifest admits no others. */
  predicate TagChar(c: char) {
    'a' <= c <= 'z' || 'A' <= c <= 'Z' || '0' <= c <= '9' || c == '-'
  }

  predicate Gap(c: char) { c == ' ' || c == '\t' }

  datatype Splitter = Splitter(primary: string, supported: seq<string>)

  function NewSplitter(primary: string, supported: seq<string>): Splitter {
    Splitter(NormaliseTag(primary), NormalisedTags(supported))
  }

  /** A project's splitter, its languages normalised and the blank ones passed over. */
  method New(primary: string, supported: seq<string>) returns (sp: Splitter)
    ensures sp == NewSplitter(primary, supported)
  {
    hide NormaliseTag;
    var tags := [];
    for i := 0 to |supported|
      invariant tags == NormalisedTags(supported[..i])
    {
      assert supported[..i + 1][..i] == supported[..i];
      var tag := NormaliseTag(supported[i]);
      if tag != "" {
        tags := tags + [tag];
      }
    }
    assert supported[..|supported|] == supported;
    sp := Splitter(NormaliseTag(primary), tags);
  }

  function NormalisedTags(raw: seq<string>): seq<string> {
    if raw == [] then [] else
      var n := |raw| - 1;
      var tag := NormaliseTag(raw[n]);
      if tag == "" then NormalisedTags(raw[..n]) else NormalisedTags(raw[..n]) + [tag]
  }

  // ---- markers ----

  function SkipGap(s: string, i: nat): (j: nat)
    requires i <= |s|
    ensures i <= j <= |s| && (j < |s| ==> !Gap(s[j])) && forall k | i <= k < j :: Gap(s[k])
    decreases |s| - i
  {
    if i < |s| && Gap(s[i]) then SkipGap(s, i + 1) else i
  }

  function SkipTag(s: string, i: nat): (j: nat)
    requires i <= |s|
    ensures i <= j <= |s| && (j < |s| ==> !TagChar(s[j])) && forall k | i <= k < j :: TagChar(s[k])
    decreases |s| - i
  {
    if i < |s| && TagChar(s[i]) then SkipTag(s, i + 1) else i
  }

  datatype Marker = Marker(from: nat, to: nat, tag: string)

  /** A bracketed tag of the project's languages, with room for blanks inside the brackets. */
  function MarkerAt(sp: Splitter, s: string, p: nat): Option<Marker> {
    if p >= |s| || s[p] != '[' then None else
      var a := SkipGap(s, p + 1);
      var b := SkipTag(s, a);
      var c := SkipGap(s, b);
      if c < |s| && s[c] == ']' && Upper(s[a..b]) in sp.supported then Some(Marker(p, c + 1, Upper(s[a..b]))) else None
  }

  lemma MarkerShape(sp: Splitter, s: string, p: nat)
    requires MarkerAt(sp, s, p).Some?
    ensures var m := MarkerAt(sp, s, p).value;
      m.from == p && p + 2 <= m.to <= |s| && (m.tag != "" ==> p + 3 <= m.to) && forall q | p < q < m.to :: s[q] != '['
  {
  }

  /** A marker of a part is a marker of the whole. */
  lemma MarkerInSlice(sp: Splitter, s: string, lo: nat, hi: nat, p: nat)
    requires lo <= hi <= |s| && MarkerAt(sp, s[lo..hi], p).Some?
    ensures lo + p < hi && MarkerAt(sp, s, lo + p).Some?
  {
    hide SkipGap, SkipTag, Upper;
    var t := s[lo..hi];
    var a := SkipGap(t, p + 1);
    var b := SkipTag(t, a);
    var c := SkipGap(t, b);
    GapInSlice(s, lo, hi, p + 1);
    TagInSlice(s, lo, hi, a);
    GapInSlice(s, lo, hi, b);
    SliceOfSlice(s, lo, hi, a, b);
  }

  lemma SliceOfSlice(s: string, lo: nat, hi: nat, a: nat, b: nat)
    requires lo <= hi <= |s| && a <= b <= hi - lo
    ensures s[lo..hi][a..b] == s[lo + a..lo + b]
  {
    forall k | 0 <= k < b - a
      ensures s[lo..hi][a..b][k] == s[lo + a..lo + b][k]
    {
    }
  }

  lemma {:induction false} GapInSlice(s: string, lo: nat, hi: nat, i: nat)
    requires lo <= hi <= |s| && i <= hi - lo
    ensures SkipGap(s[lo..hi], i) < hi - lo ==> SkipGap(s, lo + i) == lo + SkipGap(s[lo..hi], i)
    decreases hi - lo - i
  {
    if i < hi - lo && Gap(s[lo..hi][i]) {
      GapInSlice(s, lo, hi, i + 1);
    }
  }

  lemma {:induction false} TagInSlice(s: string, lo: nat, hi: nat, i: nat)
    requires lo <= hi <= |s| && i <= hi - lo
    ensures SkipTag(s[lo..hi], i) < hi - lo ==> SkipTag(s, lo + i) == lo + SkipTag(s[lo..hi], i)
    decreases hi - lo - i
  {
    if i < hi - lo && TagChar(s[lo..hi][i]) {
      TagInSlice(s, lo, hi, i + 1);
    }
  }

  ghost predicate MarkerFree(sp: Splitter, s: string) {
    forall p: nat :: MarkerAt(sp, s, p).None?
  }

  /** Every marker before a point, in order. */
  ghost predicate Markers(sp: Splitter, s: string, upTo: nat, ms: seq<Marker>) {
    && (forall i | 0 <= i < |ms| :: MarkerAt(sp, s, ms[i].from) == Some(ms[i]) && ms[i].from < upTo)
    && (forall i, j | 0 <= i < j < |ms| :: ms[i].to <= ms[j].from)
    && forall p: nat | p < upTo && MarkerAt(sp, s, p).Some? :: MarkerAt(sp, s, p).value in ms
  }

  method FindMarkers(sp: Splitter, s: string) returns (ms: seq<Marker>)
    ensures Markers(sp, s, |s|, ms)
  {
    hide MarkerAt;
    ms := [];
    var p := 0;
    while p < |s|
      invariant p <= |s| && Markers(sp, s, p, ms) && forall i | 0 <= i < |ms| :: ms[i].to <= p
    {
      var m := MarkerAt(sp, s, p);
      if m.Some? {
        MarkersMore(sp, s, p, ms);
        MarkerShape(sp, s, p);
        ms, p := ms + [m.value], m.value.to;
      } else {
        p := p + 1;
      }
    }
  }

  lemma MarkersMore(sp: Splitter, s: string, p: nat, ms: seq<Marker>)
    requires Markers(sp, s, p, ms) && MarkerAt(sp, s, p).Some? && forall i | 0 <= i < |ms| :: ms[i].to <= p
    ensures Markers(sp, s, MarkerAt(sp, s, p).value.to, ms + [MarkerAt(sp, s, p).value])
  {
    hide MarkerAt;
    MarkerShape(sp, s, p);
    OpensWithBracket(sp, s);
    var m := MarkerAt(sp, s, p).value;
    assert m.from == p;
    assert m in ms + [m];
    forall i | 0 <= i < |ms|
      ensures ms[i] in ms + [m]
    {
      assert (ms + [m])[i] == ms[i];
    }
    forall q: nat | q < m.to && MarkerAt(sp, s, q).Some?
      ensures MarkerAt(sp, s, q).value in ms + [m]
    {
      assert q <= p;
    }
  }

  lemma OpensWithBracket(sp: Splitter, s: string)
    ensures forall q: nat | MarkerAt(sp, s, q).Some? :: q < |s| && s[q] == '['
  {
  }

  // ---- fields ----

  datatype Seg = Seg(lang: string, body: string)

  /** Where the text after a marker, or before the first, ends. */
  function Stop(s: string, ms: seq<Marker>, i: nat): nat {
    if i < |ms| then ms[i].from else |s|
  }

  ghost predicate InPlace(s: string, ms: seq<Marker>) {
    && (forall i | 0 <= i < |ms| :: ms[i].from + 2 <= ms[i].to <= |s|)
    && forall i, j | 0 <= i < j < |ms| :: ms[i].to <= ms[j].from
  }

  /** Segment i runs from marker i - 1, whose language it is in, or from the start, in the primary one, up to marker
      i. */
  function SegAt(sp: Splitter, s: string, ms: seq<Marker>, i: nat): Seg
    requires InPlace(s, ms) && i <= |ms|
  {
    if i == 0 then Seg(sp.primary, s[..Stop(s, ms, 0)]) else Seg(ms[i - 1].tag, s[ms[i - 1].to..Stop(s, ms, i)])
  }

  function Segs(sp: Splitter, s: string, ms: seq<Marker>): seq<Seg>
    requires InPlace(s, ms)
  {
    seq(|ms| + 1, i requires 0 <= i <= |ms| => SegAt(sp, s, ms, i))
  }

  datatype Field = Field(primary: string, langs: seq<string>, byLang: map<string, string>, duplicated: seq<string>)

  function AppendOnce(xs: seq<string>, v: string): seq<string> {
    if v in xs then xs else xs + [v]
  }

  function Add(f: Field, lang: string, raw: string): Field {
    var body := TrimSpace(raw);
    if body == "" then f
    else if lang in f.byLang then
      f.(byLang := f.byLang[lang := f.byLang[lang] + " " + body], duplicated := AppendOnce(f.duplicated, lang))
    else f.(byLang := f.byLang[lang := body], langs := f.langs + [lang])
  }

  function Folded(primary: string, segs: seq<Seg>): Field {
    if segs == [] then Field(primary, [], map[], []) else
      var n := |segs| - 1;
      Add(Folded(primary, segs[..n]), segs[n].lang, segs[n].body)
  }

  /** The field this text reads as: its segments, in order, folded together. */
  ghost predicate Reads(sp: Splitter, s: string, f: Field) {
    exists ms :: ReadsBy(sp, s, ms, f)
  }

  ghost predicate ReadsBy(sp: Splitter, s: string, ms: seq<Marker>, f: Field) {
    Markers(sp, s, |s|, ms) && InPlace(s, ms) && f == Folded(sp.primary, Segs(sp, s, ms))
  }

  /** Reads one field. */
  method Split(sp: Splitter, s: string) returns (f: Field)
    ensures Reads(sp, s, f)
  {
    hide MarkerAt, Add, SegAt;
    f := Field(sp.primary, [], map[], []);
    var at := FindMarkers(sp, s);
    ghost var ms := at;
    MarkersInPlace(sp, s, ms);
    ghost var segs := Segs(sp, s, ms);
    FirstSeg(sp, s, ms);
    if at == [] {
      f := Add(f, sp.primary, s);
      assert |segs| == 1 && segs[..1] == segs && segs[..0] == [];
      assert f == Folded(sp.primary, segs);
      assert ReadsBy(sp, s, ms, f);
      return;
    }
    f := Add(f, sp.primary, s[..at[0].from]);
    assert segs[..1][..0] == [];
    for i := 0 to |at|
      invariant f == Folded(sp.primary, segs[..i + 1])
    {
      var end := if i + 1 < |at| then at[i + 1].from else |s|;
      LaterSeg(sp, s, ms, i);
      assert segs[..i + 2][..i + 1] == segs[..i + 1];
      f := Add(f, at[i].tag, s[at[i].to..end]);
    }
    assert segs[..|at| + 1] == segs;
    assert ReadsBy(sp, s, ms, f);
  }

  lemma FirstSeg(sp: Splitter, s: string, ms: seq<Marker>)
    requires InPlace(s, ms)
    ensures Segs(sp, s, ms)[0] == Seg(sp.primary, if ms == [] then s else s[..ms[0].from])
  {
    assert s[..|s|] == s;
  }

  lemma LaterSeg(sp: Splitter, s: string, ms: seq<Marker>, i: nat)
    requires InPlace(s, ms) && i < |ms|
    ensures ms[i].to <= Stop(s, ms, i + 1) <= |s|
    ensures Segs(sp, s, ms)[i + 1] == Seg(ms[i].tag, s[ms[i].to..Stop(s, ms, i + 1)])
  {
  }

  lemma MarkersInPlace(sp: Splitter, s: string, ms: seq<Marker>)
    requires Markers(sp, s, |s|, ms)
    ensures InPlace(s, ms)
  {
    hide MarkerAt;
    forall i | 0 <= i < |ms|
      ensures ms[i].from + 2 <= ms[i].to <= |s|
    {
      MarkerShape(sp, s, ms[i].from);
    }
  }

  function In(f: Field, lang: string): string {
    var l := NormaliseTag(lang);
    if l in f.byLang && f.byLang[l] != "" then f.byLang[l]
    else if f.primary in f.byLang && f.byLang[f.primary] != "" then f.byLang[f.primary]
    else FirstOf(f.byLang, f.langs)
  }

  function FirstOf(byLang: map<string, string>, langs: seq<string>): string {
    if langs == [] then "" else
      if langs[0] in byLang && byLang[langs[0]] != "" then byLang[langs[0]] else FirstOf(byLang, langs[1..])
  }

  predicate Translated(f: Field) {
    exists l :: l in f.langs && l != f.primary
  }

  // ---- what a field holds ----

  /** The segments of one language that hold text, trimmed. */
  function Pieces(segs: seq<Seg>, lang: string): seq<string> {
    if segs == [] then [] else
      var n := |segs| - 1;
      WithPiece(Pieces(segs[..n], lang), segs[n], lang)
  }

  function Joined(pieces: seq<string>): string {
    if pieces == [] then ""
    else if |pieces| == 1 then pieces[0]
    else Joined(pieces[..|pieces| - 1]) + " " + pieces[|pieces| - 1]
  }

  ghost predicate NoRepeats(xs: seq<string>) {
    forall i, j | 0 <= i < j < |xs| :: xs[i] != xs[j]
  }

  /** A field holds each language with text once, its pieces joined; those with several are the duplicated ones. */
  ghost predicate Holds(f: Field, segs: seq<Seg>) {
    && NoRepeats(f.langs) && (forall l :: l in f.langs <==> l in f.byLang)
    && (forall l :: l in f.byLang <==> Pieces(segs, l) != [])
    && (forall l | l in f.byLang :: f.byLang[l] == Joined(Pieces(segs, l)) && f.byLang[l] != "" && Trimmed(f.byLang[l]))
    && NoRepeats(f.duplicated) && (forall l :: l in f.duplicated <==> |Pieces(segs, l)| > 1)
  }

  lemma {:induction false} FoldedHolds(primary: string, segs: seq<Seg>)
    ensures Holds(Folded(primary, segs), segs) && Folded(primary, segs).primary == primary
  {
    hide TrimSpace, Holds, Add;
    if segs == [] {
      HoldsNothing(primary);
    } else {
      var n := |segs| - 1;
      FoldedHolds(primary, segs[..n]);
      AddHolds(Folded(primary, segs[..n]), segs[..n], segs[n]);
      assert segs == segs[..n] + [segs[n]];
    }
  }

  lemma HoldsNothing(primary: string)
    ensures Holds(Field(primary, [], map[], []), [])
  {
  }

  lemma AddHolds(f: Field, segs: seq<Seg>, seg: Seg)
    requires Holds(f, segs)
    ensures Holds(Add(f, seg.lang, seg.body), segs + [seg]) && Add(f, seg.lang, seg.body).primary == f.primary
  {
    hide TrimSpace, Pieces, Joined, Trimmed, NoRepeats;
    var body, l := TrimSpace(seg.body), seg.lang;
    TrimmedBody(seg.body);
    PiecesMore(segs, seg);
    JoinedMore(Pieces(segs, l), body);
    Appended(f.langs, l);
    Appended(f.duplicated, l);
    if l in f.byLang && body != "" {
      JoinTrimmed(f.byLang[l], body);
    }
  }

  lemma TrimmedBody(raw: string)
    ensures Trimmed(TrimSpace(raw))
  {
    var lo, hi := TrimSpaceSlice(raw);
  }

  function WithPiece(pieces: seq<string>, seg: Seg, l: string): seq<string> {
    if seg.lang == l && TrimSpace(seg.body) != "" then pieces + [TrimSpace(seg.body)] else pieces
  }

  lemma PiecesMore(segs: seq<Seg>, seg: Seg)
    ensures forall l :: Pieces(segs + [seg], l) == WithPiece(Pieces(segs, l), seg, l)
  {
    assert (segs + [seg])[..|segs|] == segs;
  }

  lemma JoinedMore(pieces: seq<string>, x: string)
    ensures Joined(pieces + [x]) == if pieces == [] then x else Joined(pieces) + " " + x
  {
    assert (pieces + [x])[..|pieces|] == pieces;
  }

  lemma JoinTrimmed(a: string, b: string)
    requires a != "" && b != "" && Trimmed(a) && Trimmed(b)
    ensures Trimmed(a + " " + b)
  {
    var s := a + " " + b;
    assert s[0] == a[0] && s[|s| - 1] == b[|b| - 1];
  }

  lemma Appended(xs: seq<string>, v: string)
    ensures NoRepeats(xs) && v !in xs ==> NoRepeats(xs + [v])
    ensures forall x :: x in xs + [v] <==> x in xs || x == v
  {
  }

  /** Any text in the field is enough for every reader to be shown some: what there is in the language asked for,
      else in the primary one, else in the one that came first. */
  lemma InShowsText(f: Field, segs: seq<Seg>, lang: string)
    requires Holds(f, segs)
    ensures In(f, lang) == "" <==> forall i | 0 <= i < |segs| :: TrimSpace(segs[i].body) == ""
    ensures In(f, lang) != "" ==> exists l :: l in f.byLang && In(f, lang) == f.byLang[l]
    ensures NormaliseTag(lang) in f.byLang ==> In(f, lang) == f.byLang[NormaliseTag(lang)]
    ensures NormaliseTag(lang) !in f.byLang && f.primary in f.byLang ==> In(f, lang) == f.byLang[f.primary]
    ensures NormaliseTag(lang) !in f.byLang && f.primary !in f.byLang && f.langs != [] ==>
      f.langs[0] in f.byLang && In(f, lang) == f.byLang[f.langs[0]]
  {
    hide TrimSpace, Joined, Trimmed, NoRepeats, NormaliseTag, Pieces;
    FirstOfIs(f.byLang, f.langs);
    assert f.langs != [] ==> f.langs[0] in f.langs;
    if forall i | 0 <= i < |segs| :: TrimSpace(segs[i].body) == "" {
      forall l
        ensures l !in f.byLang
      {
        NoPieces(segs, l);
      }
    }
    forall i | 0 <= i < |segs| && TrimSpace(segs[i].body) != ""
      ensures f.langs != []
    {
      SomePiece(segs, i);
      assert segs[i].lang in f.langs;
    }
  }

  lemma {:induction false} FirstOfIs(byLang: map<string, string>, langs: seq<string>)
    requires forall l | l in langs :: l in byLang && byLang[l] != ""
    ensures FirstOf(byLang, langs) == if langs == [] then "" else byLang[langs[0]]
  {
  }

  lemma {:induction false} NoPieces(segs: seq<Seg>, l: string)
    requires forall i | 0 <= i < |segs| :: TrimSpace(segs[i].body) == ""
    ensures Pieces(segs, l) == []
  {
    hide TrimSpace;
    if segs != [] {
      NoPieces(segs[..|segs| - 1], l);
    }
  }

  lemma {:induction false} SomePiece(segs: seq<Seg>, i: nat)
    requires i < |segs| && TrimSpace(segs[i].body) != ""
    ensures Pieces(segs, segs[i].lang) != []
  {
    hide TrimSpace;
    if i < |segs| - 1 {
      SomePiece(segs[..|segs| - 1], i);
    }
  }

  /** A field is translated exactly when some part with text is in another language than its primary one. */
  lemma TranslatedWhen(f: Field, segs: seq<Seg>)
    requires Holds(f, segs)
    ensures Translated(f) <==> exists i :: 0 <= i < |segs| && ForeignText(segs[i], f.primary)
  {
    hide TrimSpace, Joined, Trimmed, NoRepeats, Pieces;
    if Translated(f) {
      var l :| l in f.langs && l != f.primary;
      assert Pieces(segs, l)[0] in Pieces(segs, l);
      var i := PieceFrom(segs, l, Pieces(segs, l)[0]);
      PieceHasText(segs, l, Pieces(segs, l)[0]);
      assert ForeignText(segs[i], f.primary);
    }
    forall i | 0 <= i < |segs| && ForeignText(segs[i], f.primary)
      ensures segs[i].lang in f.langs
    {
      SomePiece(segs, i);
    }
  }

  predicate ForeignText(seg: Seg, primary: string) {
    seg.lang != primary && TrimSpace(seg.body) != ""
  }

  lemma {:induction false} PieceHasText(segs: seq<Seg>, l: string, x: string)
    requires x in Pieces(segs, l)
    ensures x != ""
  {
    hide TrimSpace;
    var n := |segs| - 1;
    if x in Pieces(segs[..n], l) {
      PieceHasText(segs[..n], l, x);
    }
  }

  // ---- reading what was read ----

  /** Between markers there is none. */
  lemma SegMarkerFree(sp: Splitter, s: string, ms: seq<Marker>, i: nat)
    requires Markers(sp, s, |s|, ms) && InPlace(s, ms) && i <= |ms|
    ensures MarkerFree(sp, TrimSpace(SegAt(sp, s, ms, i).body))
  {
    hide MarkerAt, TrimSpace;
    var body := SegAt(sp, s, ms, i).body;
    var from, to := if i == 0 then 0 else ms[i - 1].to, Stop(s, ms, i);
    assert body == s[from..to];
    var lo, hi := TrimSpaceSlice(body);
    var t := TrimSpace(body);
    SliceOfSlice(s, from, to, lo, hi);
    assert t == s[from + lo..from + hi];
    SliceMarkerFree(sp, s, from, to, from + lo, from + hi, ms, i);
  }

  /** No part of what is between two markers holds one. */
  lemma SliceMarkerFree(sp: Splitter, s: string, from: nat, to: nat, lo: nat, hi: nat, ms: seq<Marker>, i: nat)
    requires Markers(sp, s, |s|, ms) && InPlace(s, ms) && i <= |ms|
    requires from == (if i == 0 then 0 else ms[i - 1].to) && to == Stop(s, ms, i) && from <= lo <= hi <= to <= |s|
    ensures MarkerFree(sp, s[lo..hi])
  {
    hide MarkerAt, Markers, InPlace;
    forall p: nat
      ensures MarkerAt(sp, s[lo..hi], p).None?
    {
      if MarkerAt(sp, s[lo..hi], p).Some? {
        MarkerInSlice(sp, s, lo, hi, p);
        MarkerBetween(sp, s, ms, i, lo + p);
      }
    }
  }

  lemma MarkerBetween(sp: Splitter, s: string, ms: seq<Marker>, i: nat, p: nat)
    requires Markers(sp, s, |s|, ms) && InPlace(s, ms) && i <= |ms|
    requires (if i == 0 then 0 else ms[i - 1].to) <= p < Stop(s, ms, i)
    ensures MarkerAt(sp, s, p).None?
  {
    MarkerFrom(sp, s, p);
    hide MarkerAt;
    forall j | 0 <= j < |ms|
      ensures ms[j].from != p
    {
      assert j < i ==> ms[j].to <= ms[i - 1].to;
    }
  }

  lemma MarkerFrom(sp: Splitter, s: string, p: nat)
    ensures MarkerAt(sp, s, p).Some? ==> MarkerAt(sp, s, p).value.from == p
  {
  }

  lemma {:induction false} PieceFrom(segs: seq<Seg>, l: string, x: string) returns (i: nat)
    requires x in Pieces(segs, l)
    ensures i < |segs| && segs[i].lang == l && x == TrimSpace(segs[i].body)
  {
    var n := |segs| - 1;
    if segs[n].lang == l && x == TrimSpace(segs[n].body) {
      i := n;
    } else {
      i := PieceFrom(segs[..n], l, x);
    }
  }

  /** When no language is tagged twice, what any reader is shown holds no tag. */
  lemma UntaggedTwiceIsMarkerFree(sp: Splitter, s: string, f: Field, lang: string)
    requires Reads(sp, s, f) && f.duplicated == []
    ensures MarkerFree(sp, In(f, lang))
  {
    hide MarkerAt, TrimSpace, SegAt, In, Folded, MarkerFree, Trimmed, NoRepeats;
    var ms :| ReadsBy(sp, s, ms, f);
    var segs := Segs(sp, s, ms);
    FoldedHolds(sp.primary, segs);
    InShowsText(f, segs, lang);
    if In(f, lang) == "" {
      NothingMarked(sp);
    } else {
      var l :| l in f.byLang && In(f, lang) == f.byLang[l];
      assert l !in f.duplicated;
      var x := Pieces(segs, l)[0];
      assert x in Pieces(segs, l) && Joined(Pieces(segs, l)) == x;
      var i := PieceFrom(segs, l, x);
      SegMarkerFree(sp, s, ms, i);
    }
  }

  lemma NothingMarked(sp: Splitter)
    ensures MarkerFree(sp, "")
  {
  }

  lemma MarkersMark(sp: Splitter, s: string, ms: seq<Marker>)
    requires Markers(sp, s, |s|, ms)
    ensures ms != [] ==> !MarkerFree(sp, s)
  {
    hide MarkerAt;
    if ms != [] {
      assert MarkerAt(sp, s, ms[0].from).Some?;
    }
  }

  /** Text without markers reads as itself in every language. */
  lemma MarkerFreeReadsAsIs(sp: Splitter, s: string, f: Field, lang: string)
    requires MarkerFree(sp, s) && Trimmed(s) && Reads(sp, s, f)
    ensures In(f, lang) == s
  {
    hide MarkerAt, NormaliseTag, Trimmed;
    var ms :| ReadsBy(sp, s, ms, f);
    MarkersMark(sp, s, ms);
    assert ms == [];
    TrimmedIsFixed(s);
    FirstSeg(sp, s, ms);
    var segs := Segs(sp, s, ms);
    assert segs == [Seg(sp.primary, s)] && segs[..0] == [];
    assert f == Add(Folded(sp.primary, segs[..0]), sp.primary, s);
  }

  /** What is shown is trimmed. */
  lemma ShownTrimmed(sp: Splitter, s: string, f: Field, lang: string)
    requires Reads(sp, s, f)
    ensures Trimmed(In(f, lang))
  {
    hide Markers, InPlace, Folded, Segs, In, Trimmed, TrimSpace;
    var ms :| ReadsBy(sp, s, ms, f);
    FoldedHolds(sp.primary, Segs(sp, s, ms));
    InShowsText(f, Segs(sp, s, ms), lang);
    NothingTrimmed();
  }

  /** Prose resolved to one language; blank prose is left alone. */
  method Resolve(sp: Splitter, s: string, lang: string) returns (r: string)
    ensures if TrimSpace(s) == "" then r == s else exists f :: Reads(sp, s, f) && r == In(f, lang)
  {
    hide TrimSpace, In, Reads;
    if TrimSpace(s) == "" {
      return s;
    }
    var f := Split(sp, s);
    r := In(f, lang);
  }

  /** Resolving prose a second time, to any language, changes nothing unless some language was tagged twice. */
  lemma ResolvingTwice(sp: Splitter, s: string, f: Field, lang: string, f': Field, lang': string)
    requires Reads(sp, s, f) && f.duplicated == [] && Reads(sp, In(f, lang), f')
    ensures In(f', lang') == In(f, lang)
  {
    hide *;
    UntaggedTwiceIsMarkerFree(sp, s, f, lang);
    ShownTrimmed(sp, s, f, lang);
    MarkerFreeReadsAsIs(sp, In(f, lang), f', lang');
  }

  lemma NothingTrimmed()
    ensures Trimmed("")
  {
  }

  // ---- when a second reading changes the text ----

  /** The room the segments take, each with a blank after it. */
  function Load(segs: seq<Seg>): nat {
    if segs == [] then 0 else Load(segs[..|segs| - 1]) + |segs[|segs| - 1].body| + 1
  }

  lemma {:induction false} JoinedFits(segs: seq<Seg>, l: string)
    ensures Pieces(segs, l) != [] ==> |Joined(Pieces(segs, l))| + 1 <= Load(segs)
  {
    hide TrimSpace;
    if segs != [] {
      var n := |segs| - 1;
      JoinedFits(segs[..n], l);
      var lo, hi := TrimSpaceSlice(segs[n].body);
      JoinedMore(Pieces(segs[..n], l), TrimSpace(segs[n].body));
    }
  }

  /** Each marker leaves out at least three characters and brings in at most one blank. */
  lemma {:induction false} MarkersCost(sp: Splitter, s: string, ms: seq<Marker>, i: nat)
    requires Markers(sp, s, |s|, ms) && InPlace(s, ms) && "" !in sp.supported && i <= |ms|
    ensures Load(Segs(sp, s, ms)[..i + 1]) + 2 * i <= Stop(s, ms, i) + 1
  {
    hide MarkerAt;
    var segs := Segs(sp, s, ms);
    if i == 0 {
      FirstSeg(sp, s, ms);
      assert segs[..1][..0] == [];
    } else {
      MarkersCost(sp, s, ms, i - 1);
      LaterSeg(sp, s, ms, i - 1);
      assert segs[..i + 1][..i] == segs[..i];
      MarkerSupported(sp, s, ms[i - 1].from);
      MarkerShape(sp, s, ms[i - 1].from);
    }
  }

  lemma MarkerSupported(sp: Splitter, s: string, p: nat)
    ensures MarkerAt(sp, s, p).Some? ==> MarkerAt(sp, s, p).value.tag in sp.supported
  {
  }

  /** Text that holds a marker reads shorter than it is written, in every language. */
  lemma MarkedReadsShorter(sp: Splitter, s: string, f: Field, lang: string)
    requires Reads(sp, s, f) && "" !in sp.supported && !MarkerFree(sp, s)
    ensures |In(f, lang)| < |s|
  {
    hide MarkerAt, Folded, SegAt, NormaliseTag, TrimSpace, Trimmed, Load, In, NoRepeats, Joined, Pieces;
    var ms :| ReadsBy(sp, s, ms, f);
    var segs := Segs(sp, s, ms);
    FoldedHolds(sp.primary, segs);
    InShowsText(f, segs, lang);
    OpensWithBracket(sp, s);
    var p: nat :| MarkerAt(sp, s, p).Some?;
    assert MarkerAt(sp, s, p).value in ms;
    MarkersCost(sp, s, ms, |ms|);
    assert segs[..|ms| + 1] == segs;
    if In(f, lang) != "" {
      var l :| l in f.byLang && In(f, lang) == f.byLang[l];
      JoinedFits(segs, l);
    }
  }

  lemma {:induction false} NoBlankTags(raw: seq<string>)
    ensures "" !in NormalisedTags(raw)
  {
    if raw != [] {
      NoBlankTags(raw[..|raw| - 1]);
    }
  }

  /** For any project's languages, what prose resolves to stays as it is when resolved again exactly when it holds no
      tag. */
  lemma ResolvingTwiceExactly(primary: string, supported: seq<string>, s: string, f: Field, lang: string, f': Field,
                              lang': string)
    requires var sp := NewSplitter(primary, supported); Reads(sp, s, f) && Reads(sp, In(f, lang), f')
    ensures In(f', lang') == In(f, lang) <==> MarkerFree(NewSplitter(primary, supported), In(f, lang))
  {
    NoBlankTags(supported);
    var sp := NewSplitter(primary, supported);
    assert "" !in sp.supported;
    hide *;
    if MarkerFree(sp, In(f, lang)) {
      ShownTrimmed(sp, s, f, lang);
      MarkerFreeReadsAsIs(sp, In(f, lang), f', lang');
    } else {
      MarkedReadsShorter(sp, In(f, lang), f', lang');
    }
  }

  const TWICE := "[JP][[JP]JP]"
  const BOTH := Splitter("EN", ["EN", "JP"])

  /** Joining what was tagged twice can write a tag: this prose reads as "[ JP]", which reads again as nothing. */
  lemma TaggedTwiceWritesATag(f: Field)
    requires f == Field("EN", ["JP"], map["JP" := "[ JP]"], ["JP"])
    ensures Reads(BOTH, TWICE, f) && In(f, "JP") == "[ JP]" && !MarkerFree(BOTH, "[ JP]")
  {
    var ms := [Marker(0, 4, "JP"), Marker(5, 9, "JP")];
    hide *;
    TwiceMarkers(ms);
    TwiceSegs(ms);
    TwiceFolded();
    TwiceShown(f);
    ReadBy(BOTH, TWICE, ms, f);
  }

  lemma ReadBy(sp: Splitter, s: string, ms: seq<Marker>, f: Field)
    requires Markers(sp, s, |s|, ms) && InPlace(s, ms) && f == Folded(sp.primary, Segs(sp, s, ms))
    ensures Reads(sp, s, f)
  {
    assert ReadsBy(sp, s, ms, f);
  }

  lemma TwiceSegs(ms: seq<Marker>)
    requires ms == [Marker(0, 4, "JP"), Marker(5, 9, "JP")]
    ensures InPlace(TWICE, ms) && Segs(BOTH, TWICE, ms) == [Seg("EN", ""), Seg("JP", "["), Seg("JP", "JP]")]
  {
    assert |TWICE| == 12;
    assert TWICE[..0] == "" && TWICE[4..5] == "[" && TWICE[9..12] == "JP]";
    assert InPlace(TWICE, ms);
    hide *;
    SegsAre(ms);
  }

  lemma SegsAre(ms: seq<Marker>)
    requires ms == [Marker(0, 4, "JP"), Marker(5, 9, "JP")] && InPlace(TWICE, ms)
    requires |TWICE| == 12 && TWICE[..0] == "" && TWICE[4..5] == "[" && TWICE[9..12] == "JP]"
    ensures Segs(BOTH, TWICE, ms) == [Seg("EN", ""), Seg("JP", "["), Seg("JP", "JP]")]
  {
    var segs := Segs(BOTH, TWICE, ms);
    assert |segs| == 3 && segs[0] == SegAt(BOTH, TWICE, ms, 0) && segs[1] == SegAt(BOTH, TWICE, ms, 1)
      && segs[2] == SegAt(BOTH, TWICE, ms, 2);
  }

  lemma TwiceFolded()
    ensures Folded("EN", [Seg("EN", ""), Seg("JP", "["), Seg("JP", "JP]")])
         == Field("EN", ["JP"], map["JP" := "[ JP]"], ["JP"])
  {
    hide TrimSpace;
    var segs := [Seg("EN", ""), Seg("JP", "["), Seg("JP", "JP]")];
    TrimmedIsFixed("");
    TrimmedIsFixed("[");
    TrimmedIsFixed("JP]");
    assert segs[..2] == [Seg("EN", ""), Seg("JP", "[")] && segs[..2][..1] == [Seg("EN", "")];
    assert [Seg("EN", "")][..0] == [];
    assert Folded("EN", [Seg("EN", "")]) == Field("EN", [], map[], []);
    assert Folded("EN", segs[..2]) == Field("EN", ["JP"], map["JP" := "["], []);
    assert "[" + " " + "JP]" == "[ JP]" && AppendOnce([], "JP") == ["JP"];
    assert Folded("EN", segs) == Add(Folded("EN", segs[..2]), "JP", "JP]");
  }

  lemma TwiceShown(f: Field)
    requires f == Field("EN", ["JP"], map["JP" := "[ JP]"], ["JP"])
    ensures In(f, "JP") == "[ JP]"
  {
    TrimmedIsFixed("JP");
    assert Upper("JP") == "JP";
  }

  lemma TwiceMarkers(ms: seq<Marker>)
    requires ms == [Marker(0, 4, "JP"), Marker(5, 9, "JP")]
    ensures Markers(BOTH, TWICE, |TWICE|, ms) && !MarkerFree(BOTH, "[ JP]")
  {
    hide MarkerAt;
    JpAt(TWICE, 0, 1);
    JpAt(TWICE, 5, 6);
    JpAt("[ JP]", 0, 2);
    OpensWithBracket(BOTH, TWICE);
    NoMarkerAtFour();
    TwiceBrackets();
    forall p: nat | p < |TWICE| && MarkerAt(BOTH, TWICE, p).Some?
      ensures MarkerAt(BOTH, TWICE, p).value in ms
    {
      assert p == 0 || p == 5;
      assert ms[0] in ms && ms[1] in ms;
    }
  }

  lemma TwiceBrackets()
    ensures forall p | 0 <= p < |TWICE| && TWICE[p] == '[' :: p == 0 || p == 4 || p == 5
  {
  }

  lemma NoMarkerAtFour()
    ensures MarkerAt(BOTH, TWICE, 4).None?
  {
    assert SkipTag(TWICE, 5) == 5 && SkipGap(TWICE, 5) == 5;
  }

  lemma JpAt(s: string, p: nat, a: nat)
    requires p < a <= p + 2 && a + 2 < |s| && s[p] == '[' && (a == p + 2 ==> s[p + 1] == ' ')
    requires s[a] == 'J' && s[a + 1] == 'P' && s[a + 2] == ']'
    ensures MarkerAt(BOTH, s, p) == Some(Marker(p, a + 3, "JP"))
  {
    assert SkipGap(s, a) == a && SkipGap(s, p + 1) == a;
    assert SkipTag(s, a + 2) == a + 2 && SkipTag(s, a + 1) == a + 2 && SkipTag(s, a) == a + 2;
    assert SkipGap(s, a + 2) == a + 2;
    assert Upper(s[a..a + 2]) == "JP";
  }

  // ---- what was written is read ----

  /** Prose x, a tag in brackets and its translation y: the one marker is the tag. */
  lemma OneMarker(sp: Splitter, x: string, tag: string, y: string, ms: seq<Marker>)
    requires '[' !in x && '[' !in y && (forall c | c in tag :: TagChar(c)) && Upper(tag) in sp.supported
    requires Markers(sp, x + "[" + tag + "]" + y, |x + "[" + tag + "]" + y|, ms)
    ensures ms == [Marker(|x|, |x| + |tag| + 2, Upper(tag))]
  {
    var s := x + "[" + tag + "]" + y;
    MarkerHere(sp, x, tag, y);
    OpensWithBracket(sp, s);
    OneBracket(x, tag, y);
    hide MarkerAt, Upper;
    var m := Marker(|x|, |x| + |tag| + 2, Upper(tag));
    assert m in ms;
    forall i | 0 <= i < |ms|
      ensures ms[i] == m
    {
      assert MarkerAt(sp, s, ms[i].from) == Some(ms[i]);
    }
    OnlyOnce(ms, m);
  }

  lemma OnlyOnce(ms: seq<Marker>, m: Marker)
    requires (|ms| >= 2 ==> ms[0].to <= ms[1].from) && m.from < m.to && m in ms
    requires forall i | 0 <= i < |ms| :: ms[i] == m
    ensures ms == [m]
  {
  }

  lemma OneBracket(x: string, tag: string, y: string)
    requires '[' !in x && '[' !in y && forall c | c in tag :: TagChar(c)
    ensures var s := x + "[" + tag + "]" + y; forall q | 0 <= q < |s| && s[q] == '[' :: q == |x|
  {
    var s := x + "[" + tag + "]" + y;
    var b := |x| + 1 + |tag|;
    assert forall q | 0 <= q < |x| :: s[q] == x[q];
    forall q | |x| < q < b
      ensures s[q] != '['
    {
      assert s[q] == tag[q - |x| - 1];
      assert TagChar(tag[q - |x| - 1]);
    }
    assert s[b] == ']';
    assert forall q | b < q < |s| :: s[q] == y[q - b - 1];
  }

  lemma MarkerHere(sp: Splitter, x: string, tag: string, y: string)
    requires (forall c | c in tag :: TagChar(c)) && Upper(tag) in sp.supported
    ensures MarkerAt(sp, x + "[" + tag + "]" + y, |x|) == Some(Marker(|x|, |x| + |tag| + 2, Upper(tag)))
  {
    hide Upper, TagChar, MarkerAt;
    var s := x + "[" + tag + "]" + y;
    var a := |x| + 1;
    var b := a + |tag|;
    assert s == x + ("[" + tag + "]" + y);
    forall k | a <= k < b
      ensures s[k] == tag[k - a] && TagChar(s[k])
    {
      assert tag[k - a] in tag;
    }
    assert s[|x|] == '[' && s[b] == ']';
    assert s[a..b] == tag;
    TagBetween(sp, s, |x|, b);
  }

  /** A tag closed right behind its last character is a marker. */
  lemma TagBetween(sp: Splitter, s: string, p: nat, b: nat)
    requires p < b < |s| && s[p] == '[' && s[b] == ']' && forall k | p < k < b :: TagChar(s[k])
    requires Upper(s[p + 1..b]) in sp.supported
    ensures MarkerAt(sp, s, p) == Some(Marker(p, b + 1, Upper(s[p + 1..b])))
  {
    hide Upper;
    assert !Gap(s[p + 1]) && !TagChar(s[b]) && !Gap(s[b]);
    assert SkipGap(s, p + 1) == p + 1;
    assert SkipTag(s, p + 1) == b;
    assert SkipGap(s, b) == b;
  }

  /** Prose with one translation: whoever asks for the tag, in any case and with blanks around it, is shown the
      translation, and whoever asks for any other language the rest. */
  lemma TranslationIsRead(sp: Splitter, x: string, tag: string, y: string, f: Field, lang: string)
    requires '[' !in x && '[' !in y && (forall c | c in tag :: TagChar(c))
    requires Upper(tag) in sp.supported && Upper(tag) != sp.primary
    requires Reads(sp, x + "[" + tag + "]" + y, f) && TrimSpace(x) != "" && TrimSpace(y) != ""
    ensures In(f, lang) == if NormaliseTag(lang) == Upper(tag) then TrimSpace(y) else TrimSpace(x)
    ensures Translated(f) && f.duplicated == []
  {
    hide MarkerAt, TrimSpace, NormaliseTag, Upper, Markers, TagChar;
    var s := x + "[" + tag + "]" + y;
    var ms :| ReadsBy(sp, s, ms, f);
    OneMarker(sp, x, tag, y, ms);
    var segs := Segs(sp, s, ms);
    assert segs == [Seg(sp.primary, x), Seg(Upper(tag), y)] by {
      assert s[..|x|] == x && s[|x| + |tag| + 2..|s|] == y;
    }
    assert segs[..1] == [Seg(sp.primary, x)] && segs[..1][..0] == [];
    hide Segs, SegAt;
    assert Folded(sp.primary, segs[..1]) == Field(sp.primary, [sp.primary], map[sp.primary := TrimSpace(x)], []);
    assert f == Add(Folded(sp.primary, segs[..1]), Upper(tag), y);
    assert f.langs == [sp.primary, Upper(tag)] && f.primary == sp.primary;
    assert f.langs[1] in f.langs;
  }

  /** The twenty-six small letters become capitals and nothing else changes; tags are made of letters, figures and
      hyphens. */
  lemma TagLetters(c: char)
    ensures Upper("abcdefghijklmnopqrstuvwxyz") == "ABCDEFGHIJKLMNOPQRSTUVWXYZ"
    ensures !SmallLetter(c) ==> UpperChar(c) == c
    ensures TagChar(c) <==>
      SmallLetter(c) || Capital(c) || c in {'0', '1', '2', '3', '4', '5', '6', '7', '8', '9', '-'}
  {
  }

  /** Tags are told apart by their letters only, whatever the case and the blanks around them. */
  lemma TagsAreOne()
    ensures NormaliseTag("jp") == "JP" && NormaliseTag(" Jp ") == "JP"
  {
    assert Upper("jp") == "JP" && Upper("Jp") == "JP";
    TrimmedIsFixed("jp");
    assert " Jp "[1..] == "Jp " && "Jp "[..2] == "Jp";
    TrimmedIsFixed("Jp");
  }

  /** A project's tags are those it lists, normalised, without the blank ones. */
  lemma {:induction false} SupportedAre(raw: seq<string>, tag: string)
    ensures tag in NormalisedTags(raw) <==> tag != "" && exists r :: r in raw && Upper(TrimSpace(r)) == tag
  {
    hide Upper, TrimSpace;
    if raw != [] {
      var n := |raw| - 1;
      SupportedAre(raw[..n], tag);
      assert raw == raw[..n] + [raw[n]];
    }
  }
}
