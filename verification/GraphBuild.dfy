/** Building a model: the tables are marked, resolved and rewritten in place, stage after stage. */
module GraphBuild {
  import opened Text
  import opened Sorting
  import opened Totals
  import opened Models
  import opened Registries
  import opened Resolving
  import opened GraphEdges
  import opened EdgeLaws
  import opened Sources

  // ---- the stages on one table ----

  method OtherInstances(ids: seq<string>, id: string) returns (out: seq<string>)
    ensures out == Others(ids, id)
  {
    out := [];
    for n := 0 to |ids|
      invariant out == Others(ids[..n], id)
    {
      assert ids[..n + 1][..n] == ids[..n];
      if ids[n] != id {
        out := out + [ids[n]];
      }
    }
    assert ids[..|ids|] == ids;
  }

  method ResolveTable(t: Table, reg: Registry) returns (t': Table, diags: seq<Diagnostic>)
    requires Sound(reg)
    ensures TableResolved(t, reg, t')
    ensures (forall r | r in t.relationships :: Fresh(t, r)) ==> diags == TableDiagnostics(t, reg, t'.relationships)
  {
    hide RowResolved, RowDiagnostics, Sound;
    var rows := t.relationships;
    diags := [];
    ghost var done: seq<Relationship> := [];
    for j := 0 to |rows|
      invariant |rows| == |t.relationships| && done == rows[..j]
      invariant forall x | j <= x < |rows| :: rows[x] == t.relationships[x]
      invariant forall i | 0 <= i < j :: RowResolved(t, t.relationships[i], reg, rows[i])
      invariant (forall r | r in t.relationships :: Fresh(t, r)) ==> diags == TableDiagnostics(t, reg, done)
    {
      assert t.relationships[j] in t.relationships;
      var r, more := ResolveRow(t, rows[j], reg);
      assert (done + [r])[..|done|] == done;
      rows, diags, done := rows[j := r], diags + more, done + [r];
    }
    t' := t.(relationships := rows);
    assert done == rows;
  }

  predicate ProseRow(l: ColumnLineage) {
    l.sourceTable != "" && !IsSourceRef(l.sourceTable)
  }

  function ProseRows(rows: seq<ColumnLineage>): nat {
    if rows == [] then 0 else ProseRows(rows[..|rows| - 1]) + if ProseRow(rows[|rows| - 1]) then 1 else 0
  }

  /** Rows citing prose are counted one by one: those whose source is neither blank nor a source's name. */
  lemma {:induction false} ProseCounted(rows: seq<ColumnLineage>, p: ColumnLineage -> bool)
    requires forall l :: p(l) <==> l.sourceTable != "" && !IsSourceRef(l.sourceTable)
    ensures ProseRows(rows) == |Places(rows, p)|
  {
    hide IsSourceRef, Places;
    NoPlaces(p);
    if rows != [] {
      ProseCounted(rows[..|rows| - 1], p);
      PlacesSnoc(rows, p);
    }
  }

  /** Rewrites and counts the rows of one table. */
  method CollectRows(t: Table, rewrite: map<string, string>, ghost refs: seq<string>, tally0: map<string, nat>,
                     edges0: nat)
    returns (t': Table, tally: map<string, nat>, edges: nat, prose: nat)
    requires Tallied(Counted(rewrite, refs), tally0) && edges0 == |Counted(rewrite, refs)|
    ensures t' == CanonTable(rewrite, t) && prose == ProseRows(t.columnLineage)
    ensures var all := Counted(rewrite, refs + RowRefs(t.columnLineage)); Tallied(all, tally) && edges == |all|
  {
    hide Tallied, Counted, IsSourceRef, Tally;
    ghost var rows0 := t.columnLineage;
    var rows := t.columnLineage;
    tally, edges, prose := tally0, edges0, 0;
    assert refs + RowRefs(rows0)[..0] == refs;
    assert ProseRows(rows0[..0]) == 0;
    for j := 0 to |rows|
      invariant |rows| == |rows0| && forall x | j <= x < |rows| :: rows[x] == rows0[x]
      invariant forall x | 0 <= x < j :: rows[x] == CanonRows(rewrite, rows0)[x]
      invariant prose == ProseRows(rows0[..j])
      invariant var all := Counted(rewrite, refs + RowRefs(rows0)[..j]); Tallied(all, tally) && edges == |all|
    {
      var l := rows[j];
      ghost var before := Counted(rewrite, refs + RowRefs(rows0)[..j]);
      CountedMore(rewrite, refs + RowRefs(rows0)[..j], l.sourceTable);
      assert refs + RowRefs(rows0)[..j + 1] == refs + RowRefs(rows0)[..j] + [l.sourceTable];
      assert rows0[..j + 1][..j] == rows0[..j];
      NotBlankSource();
      if l.sourceTable != "" {
        if !IsSourceRef(l.sourceTable) {
          prose := prose + 1;
        } else {
          if l.sourceTable in rewrite {
            rows := rows[j := l.(sourceTable := rewrite[l.sourceTable])];
          }
          TallyMore(before, tally, Canon(rewrite, l.sourceTable));
          tally, edges := Tally(tally, Canon(rewrite, l.sourceTable)), edges + 1;
        }
      }
    }
    assert rows0[..|rows0|] == rows0 && RowRefs(rows0)[..|rows0|] == RowRefs(rows0);
    assert rows == CanonRows(rewrite, rows0);
    t' := t.(columnLineage := rows);
  }

  lemma NotBlankSource()
    ensures !IsSourceRef("")
  {
  }

  // ---- the model under construction ----

  /** The identifiers with rows citing prose as their source. */
  ghost predicate CitesProse(tables: seq<Table>, id: string) {
    exists t :: t in tables && HasId(t, id) && ProseRows(t.columnLineage) > 0
  }

  /** One note for each registered table that cites prose. */
  ghost predicate ProseNotes(tables: seq<Table>, reg: Registry, notes: seq<Diagnostic>) {
    && (forall i, j | 0 <= i < j < |notes| :: notes[i] != notes[j])
    && forall d :: (d in notes <==>
         d.code == UndocumentedLineage && d.tableId in reg.byId && CitesProse(tables, d.tableId))
  }

  /** A registry files its tables as they stand, so marking a table marks the one filed too. */
  function Remarked(tables: seq<Table>, reg: Registry): Registry {
    reg.(byId := map id | id in reg.byId :: Marked(tables, reg, reg.byId[id]))
  }

  function Rows(tables: seq<Table>): nat {
    if tables == [] then 0 else Rows(tables[..|tables| - 1]) + |tables[|tables| - 1].relationships|
  }

  function Width(tables: seq<Table>): nat {
    if tables == [] then 0 else Width(tables[..|tables| - 1]) + |tables[|tables| - 1].columns|
  }

  /** The relationships and the columns of tables add up, table by table. */
  lemma {:induction false} SizesAdd(a: seq<Table>, b: seq<Table>, t: Table)
    ensures Rows([t]) == |t.relationships| && Width([t]) == |t.columns|
    ensures Rows(a + b) == Rows(a) + Rows(b) && Width(a + b) == Width(a) + Width(b)
  {
    assert [t][..0] == [];
    if b == [] {
      assert a + b == a;
    } else {
      var n := |b| - 1;
      SizesAdd(a, b[..n], t);
      assert (a + b)[..|a + b| - 1] == a + b[..n] && (a + b)[|a + b| - 1] == b[n];
    }
  }

  /** A note for each of these identifiers the registry knows. */
  method NoteProse(undocumented: set<string>, reg: Registry) returns (notes: seq<Diagnostic>)
    ensures forall i, j | 0 <= i < j < |notes| :: notes[i] != notes[j]
    ensures forall d :: (d in notes <==>
              d.code == UndocumentedLineage && d.tableId in reg.byId && d.tableId in undocumented)
  {
    notes := [];
    var left := undocumented;
    while left != {}
      invariant left <= undocumented
      invariant forall d :: (d in notes <==>
                  d.code == UndocumentedLineage && d.tableId in reg.byId && d.tableId in undocumented - left)
      invariant forall i, j | 0 <= i < j < |notes| :: notes[i] != notes[j]
      decreases left
    {
      var id :| id in left;
      if id in reg.byId {
        notes := notes + [Diagnostic(UndocumentedLineage, id)];
      }
      left := left - {id};
    }
  }

  class Build {
    var tables: seq<Table>
    var diagnostics: seq<Diagnostic>
    var sourceTables: seq<SourceTable>

    constructor (parsed: seq<Table>)
      ensures tables == parsed && diagnostics == [] && sourceTables == []
    {
      tables, diagnostics, sourceTables := parsed, [], [];
    }

    /** Marks the tables documented twice or declaring it, in place, each with the IDs that share its name. */
    method MarkConformed(reg: Registry) returns (count: nat, reg': Registry)
      requires RegistryOf(tables, reg)
      modifies `tables
      ensures tables == MarkedTables(old(tables), reg) && count == |ConformedPlaces(old(tables), |old(tables)|)|
      ensures reg' == Remarked(old(tables), reg) && RegistryOf(tables, reg')
    {
      hide RegistryOf, DeclaresConformed, IdsNamed, Remarked;
      var tables0 := tables;
      count := 0;
      NonePlaced(tables0);
      for i := 0 to |tables|
        invariant |tables| == |tables0| && forall x | i <= x < |tables| :: tables[x] == tables0[x]
        invariant forall x | 0 <= x < i :: tables[x] == MarkedTables(tables0, reg)[x]
        invariant count == |ConformedPlaces(tables0, i)|
      {
        var t := tables[i];
        assert t in tables0;
        NamedTwice(tables0, reg, t);
        PlacedMore(tables0, i);
        var ids := if t.name in reg.byName then reg.byName[t.name] else [];
        if |ids| >= 2 || DeclaresConformed(t) {
          var others := OtherInstances(ids, t.id);
          tables := tables[i := t.(conformed := true, conformedIn := t.conformedIn + others)];
          count := count + 1;
        }
      }
      assert tables == MarkedTables(tables0, reg);
      reg' := Remarked(tables0, reg);
      RemarkedFiles(tables0, reg);
    }

    /** Resolves each row of each table in place and notes what it finds; counts the rows. */
    method ResolveRelationships(reg: Registry) returns (count: nat)
      requires Sound(reg)
      modifies `tables, `diagnostics
      ensures TablesResolved(old(tables), reg, tables) && count == Rows(old(tables))
      ensures AllFresh(old(tables)) ==> diagnostics == old(diagnostics) + AllDiagnostics(old(tables), reg, tables)
    {
      hide *;
      ghost var tables0, noted0 := tables, diagnostics;
      count := 0;
      NoneResolved(tables0, reg);
      assert tables[..0] == [] && diagnostics == noted0 + [];
      for i := 0 to |tables|
        invariant |tables| == |tables0| && forall x | i <= x < |tables| :: tables[x] == tables0[x]
        invariant ResolvedTo(tables0, reg, tables[..i]) && count == Rows(tables0[..i])
        invariant AllFresh(tables0) ==> diagnostics == noted0 + NotesTo(tables0, reg, tables[..i])
      {
        ghost var done := tables[..i];
        var t, more := ResolveTable(tables[i], reg);
        ResolvedMore(tables0, reg, done, t);
        count := count + |tables[i].relationships|;
        tables, diagnostics := tables[i := t], diagnostics + more;
        assert tables[..i + 1] == done + [t];
      }
      assert tables[..|tables|] == tables && tables0[..|tables0|] == tables0;
      ResolvedAll(tables0, reg, tables);
    }

    /** Folds lineage onto canonical sources and lists them; returns the lineage edges and the columns counted. */
    method CollectSources(reg: Registry) returns (lineageEdges: nat, columns: nat, ghost rewrite: map<string, string>,
                                                  ghost listed: seq<SourceTable>, ghost notes: seq<Diagnostic>)
      modifies `tables, `diagnostics, `sourceTables
      ensures Folds(Refs(old(tables)), rewrite) && tables == CanonTables(rewrite, old(tables))
      ensures var counted := Counted(rewrite, Refs(old(tables)));
        SourcesOf(counted, listed) && lineageEdges == |counted|
      ensures Sorted(sourceTables, BySourceId) && multiset(sourceTables) == multiset(old(sourceTables) + listed)
      ensures ProseNotes(old(tables), reg, notes) && diagnostics == old(diagnostics) + notes
      ensures columns == Width(old(tables))
    {
      hide *;
      ghost var tables0, noted0, listed0 := tables, diagnostics, sourceTables;
      var fold := CanonicaliseSources(tables);
      rewrite := fold;
      var tally: map<string, nat>, undocumented: set<string> := map[], {};
      lineageEdges, columns := 0, 0;
      NothingCounted(tables0, rewrite);
      for i := 0 to |tables|
        invariant |tables| == |tables0| && forall x | i <= x < |tables| :: tables[x] == tables0[x]
        invariant forall x | 0 <= x < i :: tables[x] == CanonTable(rewrite, tables0[x])
        invariant diagnostics == noted0 && sourceTables == listed0
        invariant CollectedTo(tables0, i, rewrite, tally, lineageEdges, undocumented, columns)
      {
        assert CollectedTo(tables0, i, rewrite, tally, lineageEdges, undocumented, columns);
        CollectedParts(tables0, i, rewrite, tally, lineageEdges, undocumented, columns);
        var t, prose, tally', edges';
        t, tally', edges', prose := CollectRows(tables[i], fold, Refs(tables0[..i]), tally, lineageEdges);
        CollectedMore(tables0, i, rewrite, tally, lineageEdges, undocumented, columns, tally', edges', prose);
        if prose > 0 {
          undocumented := undocumented + {tables[i].id};
        }
        columns := columns + |tables[i].columns|;
        tally, lineageEdges := tally', edges';
        tables := tables[i := t];
      }
      CollectedParts(tables0, |tables0|, rewrite, tally, lineageEdges, undocumented, columns);
      assert tables0[..|tables0|] == tables0;
      CanonAll(tables0, rewrite, tables);
      var found := NoteProse(undocumented, reg);
      NotesProse(tables0, reg, undocumented, found);
      notes := found;
      diagnostics := diagnostics + found;
      var listing := ListSources(tally, Counted(rewrite, Refs(tables0)));
      listed := listing;
      SourceRanks();
      sourceTables := SortBy(sourceTables + listing, BySourceId);
    }
  }

  ghost predicate AllFresh(tables: seq<Table>) {
    forall t, r | t in tables && r in t.relationships :: Fresh(t, r)
  }

  /** The first tables are resolved. */
  ghost predicate ResolvedTo(tables: seq<Table>, reg: Registry, done: seq<Table>) {
    |done| <= |tables| && forall n | 0 <= n < |done| :: TableResolved(tables[n], reg, done[n])
  }

  function NotesTo(tables: seq<Table>, reg: Registry, done: seq<Table>): seq<Diagnostic>
    requires ResolvedTo(tables, reg, done)
  {
    AllDiagnostics(tables, reg, done)
  }

  lemma NoneResolved(tables: seq<Table>, reg: Registry)
    ensures ResolvedTo(tables, reg, []) && NotesTo(tables, reg, []) == [] && Rows(tables[..0]) == 0
  {
  }

  lemma ResolvedMore(tables: seq<Table>, reg: Registry, done: seq<Table>, t: Table)
    requires ResolvedTo(tables, reg, done) && |done| < |tables| && TableResolved(tables[|done|], reg, t)
    ensures ResolvedTo(tables, reg, done + [t])
    ensures |t.relationships| <= |tables[|done|].relationships|
    ensures NotesTo(tables, reg, done + [t])
      == NotesTo(tables, reg, done) + TableDiagnostics(tables[|done|], reg, t.relationships)
    ensures Rows(tables[..|done| + 1]) == Rows(tables[..|done|]) + |tables[|done|].relationships|
    ensures AllFresh(tables) ==> forall r | r in tables[|done|].relationships :: Fresh(tables[|done|], r)
  {
    hide RowResolved, TableDiagnostics;
    assert (done + [t])[..|done|] == done && tables[..|done| + 1][..|done|] == tables[..|done|];
    assert tables[|done|] in tables;
  }

  lemma ResolvedAll(tables: seq<Table>, reg: Registry, done: seq<Table>)
    requires ResolvedTo(tables, reg, done) && |done| == |tables|
    ensures TablesResolved(tables, reg, done)
    ensures NotesTo(tables, reg, done) == AllDiagnostics(tables, reg, done)
  {
    hide TableResolved;
  }

  lemma NonePlaced(tables: seq<Table>)
    ensures ConformedPlaces(tables, 0) == {}
  {
  }

  lemma PlacedMore(tables: seq<Table>, i: nat)
    requires i < |tables|
    ensures |ConformedPlaces(tables, i + 1)|
         == |ConformedPlaces(tables, i)| + if IsConformed(tables, tables[i]) then 1 else 0
  {
    hide IsConformed;
    assert ConformedPlaces(tables, i + 1)
        == ConformedPlaces(tables, i) + if IsConformed(tables, tables[i]) then {i} else {};
  }

  lemma {:induction false} SameIds(tables: seq<Table>, tables': seq<Table>, name: string)
    requires |tables'| == |tables|
    requires forall i | 0 <= i < |tables| :: tables'[i].id == tables[i].id && tables'[i].name == tables[i].name
    ensures IdsNamed(tables', name) == IdsNamed(tables, name)
  {
    if tables != [] {
      SameIds(tables[..|tables| - 1], tables'[..|tables| - 1], name);
    }
  }

  lemma RemarkedFiles(tables: seq<Table>, reg: Registry)
    requires RegistryOf(tables, reg)
    ensures RegistryOf(MarkedTables(tables, reg), Remarked(tables, reg))
  {
    hide IdsNamed, Less, Marked, ById, Sorted;
    var marked, reg' := MarkedTables(tables, reg), Remarked(tables, reg);
    MarkedKeeps(tables, reg);
    forall name
      ensures Filed(marked, reg'.byName, name)
    {
      assert Filed(tables, reg.byName, name);
      SameIds(tables, marked, name);
    }
    RemarkedById(tables, reg);
  }

  lemma MarkedKeeps(tables: seq<Table>, reg: Registry)
    ensures forall t :: Marked(tables, reg, t).id == t.id && Marked(tables, reg, t).name == t.name
  {
    hide IsConformed;
  }

  lemma RemarkedById(tables: seq<Table>, reg: Registry)
    requires ById(tables, reg.byId)
    ensures ById(MarkedTables(tables, reg), Remarked(tables, reg).byId)
  {
    hide Marked, LastWith;
    var marked, reg' := MarkedTables(tables, reg), Remarked(tables, reg);
    MarkedKeeps(tables, reg);
    forall id
      ensures id in reg'.byId <==> exists t :: t in marked && HasId(t, id)
      ensures id in reg'.byId ==>
        HasId(reg'.byId[id], id) && reg'.byId[id] in marked && LastWith(marked, id, reg'.byId[id])
    {
      if id in reg.byId {
        LastMarked(tables, reg, id, reg.byId[id]);
      }
      if t :| t in marked && HasId(t, id) {
        var i :| 0 <= i < |marked| && marked[i] == t;
        assert tables[i] in tables && HasId(tables[i], id);
      }
    }
  }

  lemma LastMarked(tables: seq<Table>, reg: Registry, id: string, t: Table)
    requires LastWith(tables, id, t)
    ensures var m := Marked(tables, reg, t);
      HasId(m, id) && m in MarkedTables(tables, reg) && LastWith(MarkedTables(tables, reg), id, m)
  {
    hide Marked;
    var marked := MarkedTables(tables, reg);
    MarkedKeeps(tables, reg);
    var i :| LastAt(tables, id, t, i);
    assert marked[i] == Marked(tables, reg, t);
    forall j | i < j < |marked|
      ensures !HasId(marked[j], id)
    {
      assert !HasId(tables[j], id);
    }
    assert LastAt(marked, id, marked[i], i);
  }

  /** What is collected from the first tables. */
  ghost predicate CollectedTo(tables: seq<Table>, i: nat, rewrite: map<string, string>, tally: map<string, nat>,
                              edges: nat,
                              undocumented: set<string>, columns: nat) {
    && i <= |tables| && Tallied(Counted(rewrite, Refs(tables[..i])), tally)
    && edges == |Counted(rewrite, Refs(tables[..i]))|
    && (forall id :: id in undocumented <==> CitesProse(tables[..i], id)) && columns == Width(tables[..i])
  }

  lemma CollectedParts(tables: seq<Table>, i: nat, rewrite: map<string, string>, tally: map<string, nat>, edges: nat,
                       undocumented: set<string>, columns: nat)
    requires CollectedTo(tables, i, rewrite, tally, edges, undocumented, columns)
    ensures i <= |tables| && Tallied(Counted(rewrite, Refs(tables[..i])), tally)
    ensures edges == |Counted(rewrite, Refs(tables[..i]))|
    ensures (forall id :: id in undocumented <==> CitesProse(tables[..i], id)) && columns == Width(tables[..i])
  {
  }

  lemma CollectedMore(tables: seq<Table>, i: nat, rewrite: map<string, string>, tally: map<string, nat>, edges: nat,
                      undocumented: set<string>, columns: nat, tally': map<string, nat>, edges': nat, prose: nat)
    requires CollectedTo(tables, i, rewrite, tally, edges, undocumented, columns) && i < |tables|
    requires var all := Counted(rewrite, Refs(tables[..i]) + RowRefs(tables[i].columnLineage));
      Tallied(all, tally') && edges' == |all|
    requires prose == ProseRows(tables[i].columnLineage)
    ensures CollectedTo(tables, i + 1, rewrite, tally', edges',
                        if prose > 0 then undocumented + {tables[i].id} else undocumented,
                        columns + |tables[i].columns|)
  {
    hide Tallied, Counted, ProseRows, CitesProse;
    assert tables[..i + 1][..i] == tables[..i];
    ProseMore(tables, i);
  }

  lemma NothingCounted(tables: seq<Table>, rewrite: map<string, string>)
    ensures CollectedTo(tables, 0, rewrite, map[], 0, {}, 0)
  {
    assert Total<string>({}, map[]) == 0;
    assert forall id :: !CitesProse([], id);
  }

  lemma CanonAll(tables: seq<Table>, rewrite: map<string, string>, tables': seq<Table>)
    requires |tables'| == |tables| && forall x | 0 <= x < |tables| :: tables'[x] == CanonTable(rewrite, tables[x])
    ensures tables' == CanonTables(rewrite, tables)
  {
  }

  lemma NotesProse(tables: seq<Table>, reg: Registry, undocumented: set<string>, notes: seq<Diagnostic>)
    requires forall id :: id in undocumented <==> CitesProse(tables, id)
    requires forall i, j | 0 <= i < j < |notes| :: notes[i] != notes[j]
    requires forall d :: (d in notes <==>
               d.code == UndocumentedLineage && d.tableId in reg.byId && d.tableId in undocumented)
    ensures ProseNotes(tables, reg, notes)
  {
    hide CitesProse;
  }

  lemma ProseMore(tables: seq<Table>, i: nat)
    requires i < |tables|
    ensures forall id :: CitesProse(tables[..i + 1], id)
                    <==> CitesProse(tables[..i], id) || (id == tables[i].id && ProseRows(tables[i].columnLineage) > 0)
  {
    hide ProseRows;
    assert tables[..i + 1] == tables[..i] + [tables[i]];
    assert HasId(tables[i], tables[i].id);
  }

  // ---- the stages together ----

  /** The stages a built model went through. */
  datatype Stages = Stages(parsed: seq<Table>, filed: Registry, resolved: seq<Table>, rewrite: map<string, string>)

  ghost predicate Built(s: Stages, tables: seq<Table>) {
    && RegistryOf(s.parsed, s.filed)
    && TablesResolved(MarkedTables(s.parsed, s.filed), Remarked(s.parsed, s.filed), s.resolved)
    && Folds(Refs(s.resolved), s.rewrite) && tables == CanonTables(s.rewrite, s.resolved)
  }

  lemma MarkedParsed(tables: seq<Table>, reg: Registry)
    requires Parsed(tables)
    ensures Parsed(MarkedTables(tables, reg)) && AllFresh(MarkedTables(tables, reg))
  {
    hide IsConformed;
    var marked := MarkedTables(tables, reg);
    forall t | t in marked
      ensures WellNamed(t) && forall r | r in t.relationships :: Fresh(t, r)
    {
      var i :| 0 <= i < |marked| && marked[i] == t;
      assert tables[i] in tables;
      forall r | r in t.relationships
        ensures Fresh(t, r)
      {
        assert Fresh(tables[i], r);
      }
    }
  }

  lemma {:induction false} CanonKeepsDecls(rewrite: map<string, string>, tables: seq<Table>)
    ensures Decls(CanonTables(rewrite, tables)) == Decls(tables)
    ensures DomainOf(CanonTables(rewrite, tables)) == DomainOf(tables)
  {
    if tables != [] {
      var n := |tables| - 1;
      CanonPrefix(rewrite, tables);
      hide CanonTables, RowDecls;
      CanonKeepsDecls(rewrite, tables[..n]);
      SameRowDecls(tables[n], CanonTable(rewrite, tables[n]), tables[n].relationships);
    }
  }

  lemma CanonPrefix(rewrite: map<string, string>, tables: seq<Table>)
    requires tables != []
    ensures var n, after := |tables| - 1, CanonTables(rewrite, tables);
      |after| == |tables| && after[..n] == CanonTables(rewrite, tables[..n])
        && after[n] == CanonTable(rewrite, tables[n])
  {
    hide CanonTable;
  }

  lemma {:induction false} CanonKeepsOutcomes(rewrite: map<string, string>, tables: seq<Table>, o: Resolution)
    ensures CountOutcome(CanonTables(rewrite, tables), o) == CountOutcome(tables, o)
  {
    if tables != [] {
      CanonPrefix(rewrite, tables);
      hide CanonTables, CountRows;
      CanonKeepsOutcomes(rewrite, tables[..|tables| - 1], o);
    }
  }

  lemma {:induction false} SameRowDecls(t: Table, t': Table, rows: seq<Relationship>)
    requires t'.id == t.id
    ensures RowDecls(t', rows) == RowDecls(t, rows)
  {
    if rows != [] {
      SameRowDecls(t, t', rows[..|rows| - 1]);
    }
  }

  lemma {:induction false} NotesUncounted(notes: seq<Diagnostic>, outcome: Resolution)
    requires outcome in {Narrative, Unresolved, Conformed} && forall d | d in notes :: d.code == UndocumentedLineage
    ensures CountCode(notes, CodeOf(outcome)) == 0
  {
    if notes != [] {
      NotesUncounted(notes[..|notes| - 1], outcome);
      assert notes[|notes| - 1] in notes;
    }
  }

  /** The diagnostics of a built model tell exactly how its rows resolved. */
  lemma BuiltDiagnostics(s: Stages, tables: seq<Table>, notes: seq<Diagnostic>, diagnostics: seq<Diagnostic>,
                         outcome: Resolution)
    requires Built(s, tables) && (forall d | d in notes :: d.code == UndocumentedLineage)
    requires outcome in {Narrative, Unresolved, Conformed}
    requires diagnostics
          == AllDiagnostics(MarkedTables(s.parsed, s.filed), Remarked(s.parsed, s.filed), s.resolved) + notes
    ensures CountCode(diagnostics, CodeOf(outcome)) == CountOutcome(tables, outcome)
  {
    hide CountCode, CodeOf, AllDiagnostics, CountOutcome, MarkedTables, Remarked, RegistryOf, Folds, Refs, CanonTables,
      RowResolved;
    DiagnosticsCount(MarkedTables(s.parsed, s.filed), Remarked(s.parsed, s.filed), s.resolved, outcome);
    NotesUncounted(notes, outcome);
    CountCodeSplits(AllDiagnostics(MarkedTables(s.parsed, s.filed), Remarked(s.parsed, s.filed), s.resolved), notes,
      CodeOf(outcome));
    CanonKeepsOutcomes(s.rewrite, s.resolved, outcome);
  }

  /** Files, marks, resolves and rewrites the parsed tables. */
  method BuildModel(parsed: seq<Table>) returns (b: Build, lineageEdges: nat, ghost s: Stages)
    requires Parsed(parsed)
    ensures fresh(b) && s.parsed == parsed && Built(s, b.tables)
    ensures DiagnosticsBuilt(s, b.diagnostics)
    ensures forall o | o in {Narrative, Unresolved, Conformed} ::
      CountCode(b.diagnostics, CodeOf(o)) == CountOutcome(b.tables, o)
    ensures SourcesBuilt(s, b.sourceTables) && RefsTotal(b.sourceTables) == lineageEdges
  {
    hide *;
    var reg0 := NewRegistry(parsed);
    b := new Build(parsed);
    var conformed, reg := b.MarkConformed(reg0);
    MarkedParsed(parsed, reg0);
    ghost var marked := b.tables;
    ParsedIsSound(marked, reg);
    var relationships := b.ResolveRelationships(reg);
    ghost var resolved, noted := b.tables, b.diagnostics;
    var columns;
    ghost var rewrite, listed, notes;
    lineageEdges, columns, rewrite, listed, notes := b.CollectSources(reg);
    s := Stages(parsed, reg0, resolved, rewrite);
    assert [] + listed == listed;
    NotedFirst(marked, reg, resolved);
    StagesBuilt(s, b.tables);
    NotesAreProse(resolved, reg, notes);
    DiagnosticsAre(s, notes, b.diagnostics);
    forall o | o in {Narrative, Unresolved, Conformed}
      ensures CountCode(b.diagnostics, CodeOf(o)) == CountOutcome(b.tables, o)
    {
      BuiltDiagnostics(s, b.tables, notes, b.diagnostics, o);
    }
    ListedSources(s, listed, b.sourceTables);
  }

  /** The diagnostics of every row, then a note for each registered table that cites prose. */
  ghost predicate DiagnosticsBuilt(s: Stages, diagnostics: seq<Diagnostic>) {
    exists notes :: DiagnosticsWith(s, notes, diagnostics)
  }

  ghost predicate DiagnosticsWith(s: Stages, notes: seq<Diagnostic>, diagnostics: seq<Diagnostic>) {
    var marked, reg := MarkedTables(s.parsed, s.filed), Remarked(s.parsed, s.filed);
    && ProseNotes(s.resolved, reg, notes) && TablesResolved(marked, reg, s.resolved)
    && diagnostics == AllDiagnostics(marked, reg, s.resolved) + notes
  }

  lemma DiagnosticsAre(s: Stages, notes: seq<Diagnostic>, diagnostics: seq<Diagnostic>)
    requires TablesResolved(MarkedTables(s.parsed, s.filed), Remarked(s.parsed, s.filed), s.resolved)
    requires ProseNotes(s.resolved, Remarked(s.parsed, s.filed), notes)
    requires diagnostics
          == AllDiagnostics(MarkedTables(s.parsed, s.filed), Remarked(s.parsed, s.filed), s.resolved) + notes
    ensures DiagnosticsBuilt(s, diagnostics)
  {
    assert DiagnosticsWith(s, notes, diagnostics);
  }

  /** One source table, in ID order, for each source the model cites, with every reference counted under one. */
  ghost predicate SourcesBuilt(s: Stages, sources: seq<SourceTable>) {
    SourcesOf(Counted(s.rewrite, Refs(s.resolved)), sources) && Ascending(SourceIds(sources))
  }

  lemma ListedSources(s: Stages, listed: seq<SourceTable>, sources: seq<SourceTable>)
    requires SourcesOf(Counted(s.rewrite, Refs(s.resolved)), listed)
    requires multiset(sources) == multiset(listed) && Sorted(sources, BySourceId)
    ensures SourcesBuilt(s, sources) && RefsTotal(sources) == |Counted(s.rewrite, Refs(s.resolved))|
  {
    hide Sorted, Counted, Ascending, Less;
    SourcesOfBag(Counted(s.rewrite, Refs(s.resolved)), listed, sources);
    SourcesAscend(Counted(s.rewrite, Refs(s.resolved)), sources);
  }

  lemma NotedFirst(tables: seq<Table>, reg: Registry, resolved: seq<Table>)
    requires TablesResolved(tables, reg, resolved)
    ensures [] + AllDiagnostics(tables, reg, resolved) == AllDiagnostics(tables, reg, resolved)
  {
  }

  lemma ParsedIsSound(tables: seq<Table>, reg: Registry)
    requires Parsed(tables) && RegistryOf(tables, reg)
    ensures Sound(reg)
  {
    hide RegistryOf;
    NamedHaveIds(tables);
    RegistryIsSound(tables, reg);
  }

  lemma StagesBuilt(s: Stages, tables: seq<Table>)
    requires RegistryOf(s.parsed, s.filed)
    requires TablesResolved(MarkedTables(s.parsed, s.filed), Remarked(s.parsed, s.filed), s.resolved)
    requires Folds(Refs(s.resolved), s.rewrite) && tables == CanonTables(s.rewrite, s.resolved)
    ensures Built(s, tables)
  {
  }

  lemma NotesAreProse(tables: seq<Table>, reg: Registry, notes: seq<Diagnostic>)
    requires ProseNotes(tables, reg, notes)
    ensures forall d | d in notes :: d.code == UndocumentedLineage
  {
  }

  /** In a built model an edge crosses domains exactly when it is conformed. */
  lemma BuiltEdges(s: Stages, tables: seq<Table>, out: seq<Edge>, e: Edge)
    requires Parsed(s.parsed) && Built(s, tables) && AllNulFree(Decls(tables))
    requires EdgesOf(Decls(tables), DomainOf(tables), out) && e in out
    ensures e.crossDomain <==> e.resolution == Conformed
    ensures e.resolution in {Local, Conformed}
  {
    hide Parsed, RegistryOf, TablesResolved, MarkedTables, Remarked, AllNulFree, EdgesOf, Decls, DomainOf, CanonTables;
    MarkedParsed(s.parsed, s.filed);
    RemarkedFiles(s.parsed, s.filed);
    CanonKeepsDecls(s.rewrite, s.resolved);
    CrossDomainIsConformed(MarkedTables(s.parsed, s.filed), Remarked(s.parsed, s.filed), s.resolved, out, e);
  }
}
