/** Upstream sources cited by column lineage, folded onto their qualified form. */
module Sources {
  import opened Text
  import opened Sorting
  import opened Totals
  import opened Models

  predicate WordChar(c: char) {
    'A' <= c <= 'Z' || 'a' <= c <= 'z' || '0' <= c <= '9' || c == '_'
  }

  /** Words joined by single dots; started says whether a word has begun. */
  predicate Segments(s: string, started: bool) {
    if s == "" then started
    else if WordChar(s[0]) then Segments(s[1..], true)
    else s[0] == '.' && started && Segments(s[1..], false)
  }

  predicate IsSourceRef(s: string) {
    Segments(s, false)
  }

  /** The position of the last dot, or -1. */
  function LastDot(s: string): (i: int)
    ensures -1 <= i < |s|
    ensures i >= 0 ==> s[i] == '.'
    ensures forall j | i < j < |s| :: s[j] != '.'
  {
    if s == "" then -1 else if s[|s| - 1] == '.' then |s| - 1 else LastDot(s[..|s| - 1])
  }

  /** The dataset, or "" when there is none, and the name. */
  function SplitQualified(id: string): (string, string) {
    var i := LastDot(id);
    if i > 0 then (id[..i], id[i + 1..]) else ("", id)
  }

  predicate Qualified(id: string) {
    SplitQualified(id).0 != ""
  }

  /** A reference is qualified exactly when it holds a dot; its dataset, a dot and its name then make it up, and the
      name holds no dot. A bare one is its name. */
  lemma QualifiedHasDot(id: string)
    requires IsSourceRef(id)
    ensures Qualified(id) <==> '.' in id
    ensures '.' !in SplitQualified(id).1
    ensures Qualified(id) ==> id == SplitQualified(id).0 + "." + SplitQualified(id).1
    ensures !Qualified(id) ==> SplitQualified(id) == ("", id)
  {
    assert id[0] != '.';
  }

  /** Two dots stand side by side here. */
  predicate DotsAt(s: string, i: nat) {
    i + 1 < |s| && s[i] == '.' && s[i + 1] == '.'
  }

  lemma {:induction false} SegmentsAre(s: string, started: bool)
    ensures Segments(s, started) <==>
      if s == "" then started else
        && (forall c | c in s :: WordChar(c) || c == '.') && (s[0] == '.' ==> started) && s[|s| - 1] != '.'
        && forall i: nat :: !DotsAt(s, i)
  {
    hide WordChar;
    if s != "" {
      var rest := s[1..];
      SegmentsAre(rest, s[0] != '.');
      SegmentsAre(rest, WordChar(s[0]));
      assert s == [s[0]] + rest;
      assert forall i: nat :: DotsAt(rest, i) <==> DotsAt(s, i + 1);
      assert !WordChar('.') by { DotIsNoWord(); }
      DotsMoved(s);
    }
  }

  lemma DotIsNoWord()
    ensures !WordChar('.')
  {
  }

  /** Two dots side by side are the first two, or are in what follows the first character. */
  lemma DotsMoved(s: string)
    requires s != ""
    ensures (forall i: nat :: !DotsAt(s, i)) <==> !DotsAt(s, 0) && forall i: nat :: !DotsAt(s[1..], i)
  {
    forall i: nat | DotsAt(s[1..], i)
      ensures DotsAt(s, i + 1)
    {
    }
    forall i: nat | DotsAt(s, i) && i > 0
      ensures DotsAt(s[1..], i - 1)
    {
    }
  }

  /** A source is named by letters, digits and underscores, with dots inside but no two side by side. */
  lemma SourceRefShape(s: string)
    ensures IsSourceRef(s) <==>
      && s != "" && s[0] != '.' && s[|s| - 1] != '.' && (forall i: nat :: !DotsAt(s, i))
      && forall c | c in s :: 'A' <= c <= 'Z' || 'a' <= c <= 'z' || '0' <= c <= '9' || c == '_' || c == '.'
  {
    SegmentsAre(s, false);
  }

  /** The sources cited, in document order. */
  function RowRefs(rows: seq<ColumnLineage>): seq<string> {
    seq(|rows|, j requires 0 <= j < |rows| => rows[j].sourceTable)
  }

  function Refs(tables: seq<Table>): seq<string> {
    if tables == [] then [] else Refs(tables[..|tables| - 1]) + RowRefs(tables[|tables| - 1].columnLineage)
  }

  /** id is cited, and qualifies this name. */
  predicate Cited(refs: seq<string>, id: string, name: string) {
    id in refs && IsSourceRef(id) && Qualified(id) && SplitQualified(id).1 == name
  }

  /** id is the only qualified source cited with this name. */
  ghost predicate Sole(refs: seq<string>, name: string, id: string) {
    Cited(refs, id, name) && forall o | Cited(refs, o, name) :: o == id
  }

  /** A bare name is folded exactly when just one qualified source has it, onto that source. */
  ghost predicate Folds(refs: seq<string>, rewrite: map<string, string>) {
    && (forall name | name in rewrite :: Sole(refs, name, rewrite[name]))
    && forall name, id | Sole(refs, name, id) :: name in rewrite
  }

  /** What is known of the names cited so far. */
  ghost predicate Noted(refs: seq<string>, qualified: map<string, string>, ambiguous: set<string>) {
    && (forall name | name in qualified :: Cited(refs, qualified[name], name))
    && (forall name, id | Cited(refs, id, name) :: name in qualified)
    && (forall name | name in ambiguous ::
          name in qualified && exists o :: Cited(refs, o, name) && o != qualified[name])
    && forall name, o | Cited(refs, o, name) && name in qualified && o != qualified[name] :: name in ambiguous
  }

  method NoteRow(ghost refs: seq<string>, ref: string, qualified0: map<string, string>, ambiguous0: set<string>)
    returns (qualified: map<string, string>, ambiguous: set<string>)
    requires Noted(refs, qualified0, ambiguous0)
    ensures Noted(refs + [ref], qualified, ambiguous)
  {
    hide IsSourceRef, SplitQualified;
    qualified, ambiguous := qualified0, ambiguous0;
    ghost var refs' := refs + [ref];
    assert forall id, name ::
             Cited(refs', id, name) <==> Cited(refs, id, name) || (id == ref && Cited([ref], ref, name));
    if IsSourceRef(ref) {
      var (dataset, name) := SplitQualified(ref);
      if dataset != "" {
        assert Cited(refs', ref, name);
        if name in qualified && qualified[name] != ref {
          ambiguous := ambiguous + {name};
        } else {
          qualified := qualified[name := ref];
        }
      }
    }
  }

  method CanonicaliseSources(tables: seq<Table>) returns (rewrite: map<string, string>)
    ensures Folds(Refs(tables), rewrite)
  {
    hide Noted, Folds;
    var qualified: map<string, string>, ambiguous: set<string> := map[], {};
    NothingNoted();
    for i := 0 to |tables|
      invariant Noted(Refs(tables[..i]), qualified, ambiguous)
    {
      assert tables[..i + 1][..i] == tables[..i];
      var rows := tables[i].columnLineage;
      assert Refs(tables[..i]) + RowRefs(rows)[..0] == Refs(tables[..i]);
      for j := 0 to |rows|
        invariant Noted(Refs(tables[..i]) + RowRefs(rows)[..j], qualified, ambiguous)
      {
        ghost var before := Refs(tables[..i]) + RowRefs(rows)[..j];
        qualified, ambiguous := NoteRow(before, rows[j].sourceTable, qualified, ambiguous);
        assert Refs(tables[..i]) + RowRefs(rows)[..j + 1] == before + [rows[j].sourceTable];
      }
      assert RowRefs(rows)[..|rows|] == RowRefs(rows);
    }
    assert tables[..|tables|] == tables;
    rewrite := map name | name in qualified && name !in ambiguous :: qualified[name];
    NotedFolds(Refs(tables), qualified, ambiguous, rewrite);
  }

  lemma NothingNoted()
    ensures Noted([], map[], {}) && Refs([]) == []
  {
  }

  lemma NotedFolds(refs: seq<string>, qualified: map<string, string>, ambiguous: set<string>,
                   rewrite: map<string, string>)
    requires Noted(refs, qualified, ambiguous)
    requires rewrite == map name | name in qualified && name !in ambiguous :: qualified[name]
    ensures Folds(refs, rewrite)
  {
    hide Cited;
  }

  /** The folding depends only on which sources are cited. */
  lemma FoldsIgnoreOrder(refs: seq<string>, refs': seq<string>, rewrite: map<string, string>,
                         rewrite': map<string, string>)
    requires (forall r :: r in refs <==> r in refs') && Folds(refs, rewrite) && Folds(refs', rewrite')
    ensures rewrite == rewrite'
  {
    hide IsSourceRef, SplitQualified;
    forall name, id
      ensures Cited(refs, id, name) <==> Cited(refs', id, name)
    {
    }
    SameCitations(refs, refs', rewrite, rewrite');
  }

  lemma SameCitations(refs: seq<string>, refs': seq<string>, rewrite: map<string, string>,
                      rewrite': map<string, string>)
    requires Folds(refs, rewrite) && Folds(refs', rewrite')
    requires forall name, id :: Cited(refs, id, name) <==> Cited(refs', id, name)
    ensures rewrite == rewrite'
  {
    hide Cited;
    forall name, id
      ensures Sole(refs, name, id) <==> Sole(refs', name, id)
    {
    }
  }

  // ---- rewriting ----

  function Canon(rewrite: map<string, string>, ref: string): string {
    if IsSourceRef(ref) && ref in rewrite then rewrite[ref] else ref
  }

  function CanonRows(rewrite: map<string, string>, rows: seq<ColumnLineage>): seq<ColumnLineage> {
    seq(|rows|, j requires 0 <= j < |rows| => rows[j].(sourceTable := Canon(rewrite, rows[j].sourceTable)))
  }

  function CanonTable(rewrite: map<string, string>, t: Table): Table {
    t.(columnLineage := CanonRows(rewrite, t.columnLineage))
  }

  function CanonTables(rewrite: map<string, string>, tables: seq<Table>): seq<Table> {
    seq(|tables|, i requires 0 <= i < |tables| => CanonTable(rewrite, tables[i]))
  }

  /** A reference is rewritten exactly when it is bare and just one qualified source has its name; it becomes that
      one. */
  lemma RewrittenWhenSole(refs: seq<string>, rewrite: map<string, string>, ref: string)
    requires Folds(refs, rewrite) && IsSourceRef(ref)
    ensures Canon(rewrite, ref) != ref <==> !Qualified(ref) && exists id :: Sole(refs, ref, id)
    ensures forall id | Sole(refs, ref, id) :: Canon(rewrite, ref) == id
    ensures IsSourceRef(Canon(rewrite, ref))
  {
    hide IsSourceRef, SplitQualified;
    QualifiedHasDot(ref);
    forall id | Cited(refs, id, ref)
      ensures '.' !in ref && '.' in id && id != ref
    {
      QualifiedHasDot(id);
    }
    if ref in rewrite {
      assert Sole(refs, ref, rewrite[ref]);
    }
  }

  lemma {:induction false} CanonRefs(rewrite: map<string, string>, tables: seq<Table>, ref: string)
    ensures ref in Refs(CanonTables(rewrite, tables)) <==> exists l :: l in Refs(tables) && Canon(rewrite, l) == ref
  {
    hide Canon;
    if tables != [] {
      var n := |tables| - 1;
      CanonRefs(rewrite, tables[..n], ref);
      assert CanonTables(rewrite, tables)[..n] == CanonTables(rewrite, tables[..n]);
      var rows := tables[n].columnLineage;
      assert CanonTables(rewrite, tables)[n].columnLineage == CanonRows(rewrite, rows);
      RowCanonRefs(rewrite, rows, ref);
      assert forall l :: l in Refs(tables) <==> l in Refs(tables[..n]) || l in RowRefs(rows);
    }
  }

  lemma RowCanonRefs(rewrite: map<string, string>, rows: seq<ColumnLineage>, ref: string)
    ensures ref in RowRefs(CanonRows(rewrite, rows)) <==> exists l :: l in RowRefs(rows) && Canon(rewrite, l) == ref
  {
    hide Canon;
    var after := RowRefs(CanonRows(rewrite, rows));
    if ref in after {
      var j :| 0 <= j < |after| && after[j] == ref;
      assert RowRefs(rows)[j] in RowRefs(rows) && Canon(rewrite, RowRefs(rows)[j]) == ref;
    }
    if l :| l in RowRefs(rows) && Canon(rewrite, l) == ref {
      var j :| 0 <= j < |rows| && RowRefs(rows)[j] == l;
      assert after[j] == ref;
    }
  }

  lemma CanonFixed(refs: seq<string>, rewrite: map<string, string>, ref: string)
    requires Folds(refs, rewrite)
    ensures Canon(rewrite, Canon(rewrite, ref)) == Canon(rewrite, ref)
  {
    hide SplitQualified, IsSourceRef;
    var c := Canon(rewrite, ref);
    if c != ref {
      assert Sole(refs, ref, c);
      RewrittenWhenSole(refs, rewrite, c);
    }
  }

  /** Rewriting leaves the qualified sources as they were. */
  lemma SameQualified(tables: seq<Table>, rewrite: map<string, string>, id: string, name: string)
    requires Folds(Refs(tables), rewrite)
    ensures Cited(Refs(tables), id, name) <==> Cited(Refs(CanonTables(rewrite, tables)), id, name)
  {
    hide SplitQualified, IsSourceRef, Refs, CanonTables;
    CanonRefs(rewrite, tables, id);
    if Cited(Refs(tables), id, name) {
      RewrittenWhenSole(Refs(tables), rewrite, id);
      assert Canon(rewrite, id) == id;
    }
    if id in Refs(CanonTables(rewrite, tables)) {
      var l :| l in Refs(tables) && Canon(rewrite, l) == id;
      assert l != id ==> Sole(Refs(tables), l, id);
    }
  }

  /** Folding a second time changes nothing. */
  lemma FoldingTwice(tables: seq<Table>, rewrite: map<string, string>, again: map<string, string>)
    requires Folds(Refs(tables), rewrite) && Folds(Refs(CanonTables(rewrite, tables)), again)
    ensures again == rewrite && CanonTables(again, CanonTables(rewrite, tables)) == CanonTables(rewrite, tables)
  {
    hide Folds, Cited, Refs, Canon;
    var once := CanonTables(rewrite, tables);
    forall name, id
      ensures Cited(Refs(tables), id, name) <==> Cited(Refs(once), id, name)
    {
      SameQualified(tables, rewrite, id, name);
    }
    SameCitations(Refs(tables), Refs(once), rewrite, again);
    forall i, j | 0 <= i < |tables| && 0 <= j < |tables[i].columnLineage|
      ensures Canon(rewrite, once[i].columnLineage[j].sourceTable) == once[i].columnLineage[j].sourceTable
    {
      CanonFixed(Refs(tables), rewrite, tables[i].columnLineage[j].sourceTable);
    }
    forall i | 0 <= i < |tables|
      ensures CanonTable(rewrite, once[i]) == once[i]
    {
      assert CanonRows(rewrite, once[i].columnLineage) == once[i].columnLineage;
    }
  }

  // ---- counting references ----

  datatype SourceTable = SourceTable(id: string, dataset: string, name: string, refs: nat)

  function Listing(id: string, refs: nat): SourceTable {
    var (dataset, name) := SplitQualified(id);
    SourceTable(id, dataset, name, refs)
  }

  /** The references that name a source, canonical, in document order. */
  function Counted(rewrite: map<string, string>, refs: seq<string>): seq<string> {
    if refs == [] then [] else
      var ref := refs[|refs| - 1];
      var before := Counted(rewrite, refs[..|refs| - 1]);
      if IsSourceRef(ref) then before + [Canon(rewrite, ref)] else before
  }

  function Times(refs: seq<string>, id: string): nat {
    if refs == [] then 0 else Times(refs[..|refs| - 1], id) + if refs[|refs| - 1] == id then 1 else 0
  }

  /** Each reference counted once, under its source. */
  ghost predicate Tallied(refs: seq<string>, tally: map<string, nat>) {
    && (forall id :: (if id in tally then tally[id] else 0) == Times(refs, id))
    && (forall id | id in tally :: tally[id] > 0)
    && Total(tally.Keys, tally) == |refs|
  }

  function Tally(tally: map<string, nat>, id: string): map<string, nat> {
    tally[id := (if id in tally then tally[id] else 0) + 1]
  }

  lemma TallyMore(refs: seq<string>, tally: map<string, nat>, id: string)
    requires Tallied(refs, tally)
    ensures Tallied(refs + [id], Tally(tally, id))
  {
    hide Total;
    TotalBump(tally, id);
    assert (refs + [id])[..|refs|] == refs;
  }

  lemma CountedMore(rewrite: map<string, string>, refs: seq<string>, ref: string)
    ensures Counted(rewrite, refs + [ref])
         == if IsSourceRef(ref) then Counted(rewrite, refs) + [Canon(rewrite, ref)] else Counted(rewrite, refs)
  {
    assert (refs + [ref])[..|refs|] == refs;
  }

  function RefsTotal(sources: seq<SourceTable>): nat {
    if sources == [] then 0 else RefsTotal(sources[..|sources| - 1]) + sources[|sources| - 1].refs
  }

  predicate BySourceId(a: SourceTable, b: SourceTable) {
    Less(a.id, b.id)
  }

  lemma SourceRanks()
    ensures Ranks(BySourceId)
  {
    LessRanks();
    hide Less;
    forall a, b, c | !BySourceId(a, b) && !BySourceId(b, c)
      ensures !BySourceId(a, c)
    {
      assert !Less(a.id, b.id) && !Less(b.id, c.id);
    }
    assert forall a, b: SourceTable | BySourceId(a, b) :: !Less(b.id, a.id);
  }

  lemma {:induction false} RefsTotalIsBag(x: seq<SourceTable>, y: seq<SourceTable>)
    requires multiset(x) == multiset(y)
    ensures RefsTotal(x) == RefsTotal(y)
    decreases |x|
  {
    if x != [] {
      var n := |x| - 1;
      assert x[n] in multiset(y);
      var j :| 0 <= j < |y| && y[j] == x[n];
      WithoutOne(x, n);
      WithoutOne(y, j);
      assert x[..n] + x[n + 1..] == x[..n];
      RefsTotalIsBag(x[..n], y[..j] + y[j + 1..]);
      RefsTotalWithout(y, j);
    } else {
      assert |multiset(y)| == 0;
    }
  }

  lemma WithoutOne<T>(y: seq<T>, j: nat)
    requires j < |y|
    ensures multiset(y[..j] + y[j + 1..]) == multiset(y) - multiset{y[j]}
  {
    assert y == y[..j] + [y[j]] + y[j + 1..];
  }

  lemma {:induction false} RefsTotalWithout(y: seq<SourceTable>, j: nat)
    requires j < |y|
    ensures RefsTotal(y) == RefsTotal(y[..j] + y[j + 1..]) + y[j].refs
  {
    var n := |y| - 1;
    if j == n {
      assert y[..j] + y[j + 1..] == y[..n];
    } else {
      RefsTotalWithout(y[..n], j);
      var rest := y[..j] + y[j + 1..];
      assert rest[..|rest| - 1] == y[..n][..j] + y[..n][j + 1..] && rest[|rest| - 1] == y[n];
    }
  }

  ghost predicate HasSource(sources: seq<SourceTable>, id: string) {
    exists s :: s in sources && s.id == id
  }

  /** One source table for each source counted, with how often it is cited. */
  ghost predicate SourcesOf(refs: seq<string>, sources: seq<SourceTable>) {
    && (forall s | s in sources :: s == Listing(s.id, Times(refs, s.id)) && multiset(sources)[s] == 1)
    && (forall id :: HasSource(sources, id) <==> id in refs)
    && RefsTotal(sources) == |refs|
  }

  /** Lists the sources tallied. */
  method ListSources(tally: map<string, nat>, ghost refs: seq<string>) returns (sources: seq<SourceTable>)
    requires Tallied(refs, tally)
    ensures SourcesOf(refs, sources) && Ascending(SourceIds(sources))
  {
    hide *;
    sources := [];
    NothingListed(refs, tally);
    var left := tally.Keys;
    ghost var done: set<string> := {};
    while left != {}
      invariant left <= tally.Keys && RefsTotal(sources) + Total(left, tally) == |refs|
      invariant done == tally.Keys - left && ListedTo(tally, done, sources)
      decreases left
    {
      var id :| id in left;
      var s := Listing(id, tally[id]);
      TotalWithout(left, tally, id);
      ListMore(tally, done, sources, id);
      sources, left, done := sources + [s], left - {id}, done + {id};
    }
    assert done == tally.Keys;
    TotalNothing(tally);
    SourceRanks();
    ghost var unsorted := sources;
    sources := SortBy(sources, BySourceId);
    ListedSorted(refs, tally, unsorted, sources);
    SourcesAscend(refs, sources);
  }

  lemma TotalNothing(tally: map<string, nat>)
    ensures Total({}, tally) == 0
  {
  }

  /** The sources of some of the identifiers tallied. */
  ghost predicate ListedTo(tally: map<string, nat>, done: set<string>, sources: seq<SourceTable>) {
    && (forall s | s in sources :: s.id in tally && s == Listing(s.id, tally[s.id]) && multiset(sources)[s] == 1)
    && forall id :: HasSource(sources, id) <==> id in done
  }

  lemma NothingListed(refs: seq<string>, tally: map<string, nat>)
    requires Tallied(refs, tally)
    ensures ListedTo(tally, {}, []) && RefsTotal([]) == 0 && Total(tally.Keys, tally) == |refs|
  {
  }

  lemma ListMore(tally: map<string, nat>, done: set<string>, sources: seq<SourceTable>, id: string)
    requires ListedTo(tally, done, sources) && id in tally && id !in done
    ensures var s := Listing(id, tally[id]);
      ListedTo(tally, done + {id}, sources + [s]) && RefsTotal(sources + [s]) == RefsTotal(sources) + tally[id]
  {
    hide SplitQualified;
    var s := Listing(id, tally[id]);
    assert (sources + [s])[..|sources|] == sources;
    assert !HasSource(sources, id);
    assert s !in sources && s in sources + [s];
    assert forall x | x in sources :: x in sources + [s];
  }

  lemma ListedSorted(refs: seq<string>, tally: map<string, nat>, unsorted: seq<SourceTable>, sources: seq<SourceTable>)
    requires Tallied(refs, tally) && multiset(sources) == multiset(unsorted) && RefsTotal(unsorted) == |refs|
    requires ListedTo(tally, tally.Keys, unsorted)
    ensures SourcesOf(refs, sources)
  {
    hide Listing, Total;
    RefsTotalIsBag(unsorted, sources);
    forall s
      ensures s in sources <==> s in unsorted
    {
      assert s in sources <==> s in multiset(sources);
    }
    forall id
      ensures HasSource(sources, id) <==> id in refs
    {
      TimesIn(refs, id);
      assert HasSource(sources, id) <==> HasSource(unsorted, id);
    }
    assert forall id :: (if id in tally then tally[id] else 0) == Times(refs, id);
  }

  /** Sources are listed without repeats, and the references they list add up to the references counted. */
  lemma SourcesDistinct(refs: seq<string>, sources: seq<SourceTable>, i: nat, j: nat)
    requires SourcesOf(refs, sources) && i < j < |sources|
    ensures sources[i].id != sources[j].id
  {
    hide Listing;
    var x, y := sources[i], sources[j];
    assert sources == sources[..i] + [x] + sources[i + 1..j] + [y] + sources[j + 1..];
    assert x == Listing(x.id, Times(refs, x.id)) && y == Listing(y.id, Times(refs, y.id));
    assert x == y ==> multiset(sources)[x] >= 2;
  }

  function SourceIds(sources: seq<SourceTable>): seq<string> {
    seq(|sources|, i requires 0 <= i < |sources| => sources[i].id)
  }

  /** In order of their IDs, sources are strictly ascending. */
  lemma SourcesAscend(refs: seq<string>, sources: seq<SourceTable>)
    requires SourcesOf(refs, sources) && Sorted(sources, BySourceId)
    ensures Ascending(SourceIds(sources))
  {
    hide Less, SourcesOf;
    var ids := SourceIds(sources);
    forall i, j | 0 <= i < j < |ids|
      ensures ids[i] != ids[j] && !Less(ids[j], ids[i])
    {
      SourcesDistinct(refs, sources, i, j);
      assert !BySourceId(sources[j], sources[i]);
    }
    SortedIsAscending(ids);
  }

  /** The same sources in another order are sources of the same references. */
  lemma SourcesOfBag(refs: seq<string>, x: seq<SourceTable>, y: seq<SourceTable>)
    requires SourcesOf(refs, x) && multiset(x) == multiset(y)
    ensures SourcesOf(refs, y)
  {
    hide Listing;
    RefsTotalIsBag(x, y);
    forall s
      ensures s in y <==> s in x
    {
      assert s in y <==> s in multiset(y);
    }
    assert forall id :: HasSource(y, id) <==> HasSource(x, id);
  }

  /** One list of references has one list of sources. */
  lemma SourcesUnique(refs: seq<string>, refs': seq<string>, x: seq<SourceTable>, y: seq<SourceTable>)
    requires SourcesOf(refs, x) && SourcesOf(refs', y) && Ascending(SourceIds(x)) && Ascending(SourceIds(y))
    requires multiset(refs) == multiset(refs')
    ensures x == y
  {
    hide Listing, Ascending;
    var a, b := SourceIds(x), SourceIds(y);
    forall id
      ensures id in a <==> id in b
    {
      SourceIdIn(x, id);
      SourceIdIn(y, id);
      assert id in refs <==> id in multiset(refs');
    }
    OneOrder(a, b);
    forall i | 0 <= i < |x|
      ensures x[i] == y[i]
    {
      assert a[i] == x[i].id && b[i] == y[i].id && x[i] in x && y[i] in y;
      TimesBag(refs, x[i].id);
      TimesBag(refs', x[i].id);
    }
  }

  lemma SourceIdIn(sources: seq<SourceTable>, id: string)
    ensures id in SourceIds(sources) <==> HasSource(sources, id)
  {
    var ids := SourceIds(sources);
    if s :| s in sources && s.id == id {
      var i :| 0 <= i < |sources| && sources[i] == s;
      assert ids[i] == id;
    }
  }

  lemma {:induction false} TimesBag(refs: seq<string>, id: string)
    ensures Times(refs, id) == multiset(refs)[id]
  {
    if refs != [] {
      TimesBag(refs[..|refs| - 1], id);
      assert refs == refs[..|refs| - 1] + [refs[|refs| - 1]];
    }
  }

  lemma {:induction false} TimesIn(refs: seq<string>, id: string)
    ensures Times(refs, id) > 0 <==> id in refs
  {
    if refs != [] {
      TimesIn(refs[..|refs| - 1], id);
      assert refs == refs[..|refs| - 1] + [refs[|refs| - 1]];
    }
  }

  /** The references are the sources of the lineage rows of the tables. */
  lemma {:induction false} RefsAre(tables: seq<Table>, ref: string)
    ensures ref in Refs(tables) <==> exists t, l :: t in tables && l in t.columnLineage && l.sourceTable == ref
  {
    if tables != [] {
      var n := |tables| - 1;
      RefsAre(tables[..n], ref);
      assert tables == tables[..n] + [tables[n]];
      var rows := tables[n].columnLineage;
      if ref in RowRefs(rows) {
        var j: nat :| j < |rows| && RowRefs(rows)[j] == ref;
        assert rows[j] in rows;
      }
      if l :| l in rows && l.sourceTable == ref {
        var j: nat :| j < |rows| && rows[j] == l;
        assert RowRefs(rows)[j] == ref;
      }
    }
  }

  /** A source is counted as often as references that name a source come to it. */
  lemma {:induction false} CountedAre(rewrite: map<string, string>, refs: seq<string>, id: string)
    ensures id in Counted(rewrite, refs) <==> exists ref :: ref in refs && IsSourceRef(ref) && Canon(rewrite, ref) == id
    ensures (forall ref | ref in refs :: IsSourceRef(ref)) ==> |Counted(rewrite, refs)| == |refs|
  {
    hide IsSourceRef, Canon;
    if refs != [] {
      var n := |refs| - 1;
      CountedAre(rewrite, refs[..n], id);
      assert refs == refs[..n] + [refs[n]];
    }
  }
}
