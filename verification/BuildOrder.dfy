/** A build does not depend on the order its documents, or their rows, come in. */
module BuildOrder {
  import opened Text
  import opened Sorting
  import opened Models
  import opened Registries
  import opened Orientation
  import opened Resolving
  import opened GraphEdges
  import opened EdgeLaws
  import opened Sources
  import opened GraphBuild

  /** The same document, its joins and lineage rows in any order. */
  ghost predicate SameDoc(t: Table, t': Table) {
    && t' == t.(relationships := t'.relationships, columnLineage := t'.columnLineage)
    && multiset(t'.relationships) == multiset(t.relationships)
      && multiset(t'.columnLineage) == multiset(t.columnLineage)
  }

  ghost predicate RowsReordered(tables: seq<Table>, tables': seq<Table>) {
    |tables'| == |tables| && forall i | 0 <= i < |tables| :: SameDoc(tables[i], tables'[i])
  }

  /** The same documents in any order. */
  ghost predicate Reordered(tables: seq<Table>, tables': seq<Table>) {
    exists mid :: RowsReordered(tables, mid) && multiset(mid) == multiset(tables')
  }

  ghost predicate DistinctTables(tables: seq<Table>) {
    forall i, j | 0 <= i < j < |tables| :: tables[i].id != tables[j].id
  }

  // ---- what is gathered from items in any order ----

  function Gathered<T, V>(items: seq<T>, f: T -> multiset<V>): multiset<V> {
    if items == [] then multiset{} else Gathered(items[..|items| - 1], f) + f(items[|items| - 1])
  }

  lemma {:induction false} GatheredWithout<T, V>(items: seq<T>, f: T -> multiset<V>, j: nat)
    requires j < |items|
    ensures Gathered(items, f) == Gathered(items[..j] + items[j + 1..], f) + f(items[j])
  {
    var n := |items| - 1;
    if j == n {
      assert items[..j] + items[j + 1..] == items[..n];
    } else {
      GatheredWithout(items[..n], f, j);
      var rest := items[..j] + items[j + 1..];
      assert rest[..|rest| - 1] == items[..n][..j] + items[..n][j + 1..] && rest[|rest| - 1] == items[n];
    }
  }

  lemma {:induction false} GatheredBag<T, V>(x: seq<T>, y: seq<T>, f: T -> multiset<V>)
    requires multiset(x) == multiset(y)
    ensures Gathered(x, f) == Gathered(y, f)
    decreases |x|
  {
    if x == [] {
      assert |multiset(y)| == 0;
    } else {
      hide Gathered;
      var n := |x| - 1;
      assert x[n] in multiset(y);
      var j :| 0 <= j < |y| && y[j] == x[n];
      WithoutOne(x, n);
      WithoutOne(y, j);
      GatheredBag(x[..n] + x[n + 1..], y[..j] + y[j + 1..], f);
      GatheredWithout(x, f, n);
      GatheredWithout(y, f, j);
    }
  }

  lemma {:induction false} GatheredAlike<T, V>(x: seq<T>, y: seq<T>, f: T -> multiset<V>, g: T -> multiset<V>)
    requires |x| == |y| && forall i | 0 <= i < |x| :: f(x[i]) == g(y[i])
    ensures Gathered(x, f) == Gathered(y, g)
  {
    if x != [] {
      GatheredAlike(x[..|x| - 1], y[..|y| - 1], f, g);
    }
  }

  function NamedBag(name: string): Table -> multiset<string> {
    (t: Table) => if t.name == name then multiset{t.id} else multiset{}
  }

  function CitedBag(): Table -> multiset<string> {
    (t: Table) => multiset(RowRefs(t.columnLineage))
  }

  function CountedBag(rewrite: map<string, string>): string -> multiset<string> {
    (ref: string) => if IsSourceRef(ref) then multiset{Canon(rewrite, ref)} else multiset{}
  }

  lemma {:induction false} IdsNamedBag(tables: seq<Table>, name: string)
    ensures multiset(IdsNamed(tables, name)) == Gathered(tables, NamedBag(name))
  {
    if tables != [] {
      IdsNamedBag(tables[..|tables| - 1], name);
    }
  }

  lemma {:induction false} RefsBag(tables: seq<Table>)
    ensures multiset(Refs(tables)) == Gathered(tables, CitedBag())
  {
    if tables != [] {
      RefsBag(tables[..|tables| - 1]);
    }
  }

  lemma {:induction false} CountedIsBag(rewrite: map<string, string>, refs: seq<string>)
    ensures multiset(Counted(rewrite, refs)) == Gathered(refs, CountedBag(rewrite))
  {
    hide Canon, IsSourceRef;
    if refs != [] {
      CountedIsBag(rewrite, refs[..|refs| - 1]);
    }
  }

  lemma RowRefsBag(x: seq<ColumnLineage>, y: seq<ColumnLineage>)
    requires multiset(x) == multiset(y)
    ensures multiset(RowRefs(x)) == multiset(RowRefs(y))
  {
    RowRefsGathered(x);
    RowRefsGathered(y);
    GatheredBag(x, y, SourceBag());
  }

  function SourceBag(): ColumnLineage -> multiset<string> {
    (l: ColumnLineage) => multiset{l.sourceTable}
  }

  lemma {:induction false} RowRefsGathered(rows: seq<ColumnLineage>)
    ensures multiset(RowRefs(rows)) == Gathered(rows, SourceBag())
  {
    if rows != [] {
      var n := |rows| - 1;
      RowRefsGathered(rows[..n]);
      assert RowRefs(rows) == RowRefs(rows[..n]) + [rows[n].sourceTable];
    }
  }

  // ---- the registry ----

  lemma SameNames(tables: seq<Table>, tables': seq<Table>, name: string)
    requires Reordered(tables, tables')
    ensures multiset(IdsNamed(tables, name)) == multiset(IdsNamed(tables', name))
    ensures |IdsNamed(tables, name)| == |IdsNamed(tables', name)|
  {
    var mid: seq<Table> :| RowsReordered(tables, mid) && multiset(mid) == multiset(tables');
    IdsNamedBag(tables, name);
    IdsNamedBag(tables', name);
    GatheredAlike(tables, mid, NamedBag(name), NamedBag(name));
    GatheredBag(mid, tables', NamedBag(name));
    assert |multiset(IdsNamed(tables, name))| == |multiset(IdsNamed(tables', name))|;
  }

  lemma SameRefs(tables: seq<Table>, tables': seq<Table>)
    requires Reordered(tables, tables')
    ensures multiset(Refs(tables)) == multiset(Refs(tables'))
  {
    var mid: seq<Table> :| RowsReordered(tables, mid) && multiset(mid) == multiset(tables');
    RefsBag(tables);
    RefsBag(tables');
    forall i | 0 <= i < |tables|
      ensures CitedBag()(tables[i]) == CitedBag()(mid[i])
    {
      RowRefsBag(tables[i].columnLineage, mid[i].columnLineage);
    }
    GatheredAlike(tables, mid, CitedBag(), CitedBag());
    GatheredBag(mid, tables', CitedBag());
  }

  lemma Twin(tables: seq<Table>, tables': seq<Table>, t: Table) returns (t': Table)
    requires Reordered(tables, tables') && t in tables
    ensures t' in tables' && SameDoc(t, t')
  {
    var mid: seq<Table> :| RowsReordered(tables, mid) && multiset(mid) == multiset(tables');
    var i :| 0 <= i < |tables| && tables[i] == t;
    t' := mid[i];
    assert t' in multiset(tables');
  }

  lemma TwinBack(tables: seq<Table>, tables': seq<Table>, t': Table) returns (t: Table)
    requires Reordered(tables, tables') && t' in tables'
    ensures t in tables && SameDoc(t, t')
  {
    var mid: seq<Table> :| RowsReordered(tables, mid) && multiset(mid) == multiset(tables');
    assert t' in multiset(mid);
    var i :| 0 <= i < |mid| && mid[i] == t';
    t := tables[i];
  }

  /** Both file the same names, and under each ID the same document. */
  ghost predicate FiledAlike(reg: Registry, reg': Registry) {
    && reg'.byName == reg.byName && reg'.byId.Keys == reg.byId.Keys
    && forall id | id in reg.byId :: SameDoc(reg.byId[id], reg'.byId[id])
  }

  lemma SameFiling(tables: seq<Table>, tables': seq<Table>, reg: Registry, reg': Registry, name: string)
    requires RegistryOf(tables, reg) && RegistryOf(tables', reg') && Reordered(tables, tables')
    ensures name in reg.byName <==> name in reg'.byName
    ensures name in reg.byName ==> reg.byName[name] == reg'.byName[name]
  {
    hide Reordered, IdsNamed, Sorted;
    SameNames(tables, tables', name);
    assert Filed(tables, reg.byName, name) && Filed(tables', reg'.byName, name);
    if name in reg.byName && name in reg'.byName {
      OneSorting(reg.byName[name], reg'.byName[name]);
    }
  }

  lemma SameUnderId(tables: seq<Table>, tables': seq<Table>, reg: Registry, reg': Registry, id: string)
    requires RegistryOf(tables, reg) && RegistryOf(tables', reg') && Reordered(tables, tables')
    requires DistinctTables(tables)
    ensures id in reg.byId <==> id in reg'.byId
    ensures id in reg.byId ==> SameDoc(reg.byId[id], reg'.byId[id])
  {
    hide Reordered;
    if id in reg.byId {
      RegisteredIsTable(tables, reg, id);
      var t' := Twin(tables, tables', reg.byId[id]);
      assert HasId(t', id);
    }
    if id in reg'.byId {
      RegisteredIsTable(tables', reg', id);
      var t := TwinBack(tables, tables', reg'.byId[id]);
      assert HasId(t, id);
      RegisteredIsTable(tables, reg, id);
    }
  }

  lemma RegistriesAgree(tables: seq<Table>, tables': seq<Table>, reg: Registry, reg': Registry)
    requires RegistryOf(tables, reg) && RegistryOf(tables', reg') && Reordered(tables, tables')
    requires DistinctTables(tables)
    ensures FiledAlike(reg, reg')
  {
    hide RegistryOf, Reordered, SameDoc;
    forall name
      ensures name in reg.byName <==> name in reg'.byName
      ensures name in reg.byName ==> reg.byName[name] == reg'.byName[name]
    {
      SameFiling(tables, tables', reg, reg', name);
    }
    forall id
      ensures id in reg.byId <==> id in reg'.byId
      ensures id in reg.byId ==> SameDoc(reg.byId[id], reg'.byId[id])
    {
      SameUnderId(tables, tables', reg, reg', id);
    }
  }

  // ---- marking and resolving ----

  lemma MarkedAlike(tables: seq<Table>, tables': seq<Table>, reg: Registry, reg': Registry, t: Table, t': Table)
    requires Reordered(tables, tables') && reg'.byName == reg.byName && SameDoc(t, t')
    ensures SameDoc(Marked(tables, reg, t), Marked(tables', reg', t'))
  {
    hide DeclaresConformed, Reordered, IdsNamed, Others;
    SameNames(tables, tables', t.name);
    assert DeclaresConformed(t) == DeclaresConformed(t') by {
      SameLabels(t, t');
    }
  }

  lemma SameLabels(t: Table, t': Table)
    requires SameDoc(t, t')
    ensures DeclaresConformed(t) == DeclaresConformed(t') && ColumnNames(t) == ColumnNames(t')
    ensures |t.columns| == |t'.columns|
  {
    hide Contains, Lower;
  }

  lemma RemarkedAlike(tables: seq<Table>, tables': seq<Table>, reg: Registry, reg': Registry)
    requires Reordered(tables, tables') && FiledAlike(reg, reg')
    ensures FiledAlike(Remarked(tables, reg), Remarked(tables', reg'))
  {
    hide Reordered, SameDoc, Marked;
    forall id | id in reg.byId
      ensures SameDoc(Remarked(tables, reg).byId[id], Remarked(tables', reg').byId[id])
    {
      MarkedAlike(tables, tables', reg, reg', reg.byId[id], reg'.byId[id]);
    }
  }

  lemma PickedAlike(candidates: seq<string>, reg: Registry, reg': Registry, a: string, b: string)
    requires FiledAlike(reg, reg') && Picked(candidates, reg.byId, a) && Picked(candidates, reg'.byId, b)
    ensures a == b
  {
    hide DeclaresConformed, ColumnNames, SameDoc, Better;
    forall id | id in reg.byId
      ensures Score(reg.byId[id], id) == Score(reg'.byId[id], id)
    {
      SameLabels(reg.byId[id], reg'.byId[id]);
    }
    assert Picked(candidates, reg.byId, b);
    PickIgnoresOrder(candidates, candidates, reg.byId, a, b);
  }

  lemma OrientedAlike(t: Table, t': Table, r: Relationship, u: Table, u': Table)
    requires SameDoc(t, t') && SameDoc(u, u')
    ensures OrientedRow(t, r, u) == OrientedRow(t', r, u')
  {
    hide OrientJoinKey, DeclaresConformed;
    SameLabels(t, t');
    SameLabels(u, u');
  }

  /** One row comes to the same in both. */
  lemma ResolvedAlike(t: Table, t': Table, r: Relationship, reg: Registry, reg': Registry, x: Relationship,
                      y: Relationship)
    requires SameDoc(t, t') && FiledAlike(reg, reg') && RowResolved(t, r, reg, x) && RowResolved(t', r, reg', y)
    ensures x == y
  {
    hide SameDoc, OrientedRow, Picked, IsIdentifier;
    SameHome(t, t', r);
    assert Outcome(t, r, reg) == Outcome(t', r, reg');
    match Outcome(t, r, reg)
    case Local =>
      OrientedAlike(t, t', r, reg.byId[LocalId(t, r)], reg'.byId[LocalId(t, r)]);
    case Conformed =>
      PickedAlike(reg.byName[r.targetRef], reg, reg', x.toTableId, y.toTableId);
      PickedIsFiled(reg.byName[r.targetRef], reg.byId, x.toTableId);
      OrientedAlike(t, t', r, reg.byId[x.toTableId], reg'.byId[x.toTableId]);
    case _ =>
  }

  lemma SameHome(t: Table, t': Table, r: Relationship)
    requires SameDoc(t, t')
    ensures LocalId(t, r) == LocalId(t', r) && t.id == t'.id && t.domainId == t'.domainId
  {
  }

  lemma PickedIsFiled(candidates: seq<string>, byId: map<string, Table>, id: string)
    requires Picked(candidates, byId, id)
    ensures id in byId
  {
  }

  lemma RowsWithin(t: Table, t': Table, reg: Registry, reg': Registry, u: Table, u': Table, r: Relationship)
    requires SameDoc(t, t') && FiledAlike(reg, reg') && TableResolved(t, reg, u) && TableResolved(t', reg', u')
    requires r in u.relationships
    ensures r in u'.relationships
  {
    hide FiledAlike, RowResolved;
    var j :| 0 <= j < |u.relationships| && u.relationships[j] == r;
    var raw := t.relationships[j];
    assert raw in multiset(t'.relationships);
    var k :| 0 <= k < |t'.relationships| && t'.relationships[k] == raw;
    ResolvedAlike(t, t', raw, reg, reg', r, u'.relationships[k]);
    assert u'.relationships[k] in u'.relationships;
  }

  lemma AlikeBack(t: Table, t': Table, reg: Registry, reg': Registry)
    ensures SameDoc(t, t') ==> SameDoc(t', t)
    ensures FiledAlike(reg, reg') ==> FiledAlike(reg', reg)
  {
    forall a: Table, b: Table | SameDoc(a, b)
      ensures SameDoc(b, a)
    {
    }
  }

  /** The two resolved tables of one document say the same. */
  lemma SameResolved(t: Table, t': Table, reg: Registry, reg': Registry, u: Table, u': Table)
    requires SameDoc(t, t') && FiledAlike(reg, reg') && TableResolved(t, reg, u) && TableResolved(t', reg', u')
    ensures SameDocument(u, u')
  {
    AlikeBack(t, t', reg, reg');
    SameHome(t, t', Relationship("", "", "", "", "", "", "", Undecided, []));
    hide SameDoc, FiledAlike, RowResolved;
    assert u.id == t.id && u.domainId == t.domainId && u'.id == t'.id && u'.domainId == t'.domainId;
    forall r | r in u.relationships
      ensures r in u'.relationships
    {
      RowsWithin(t, t', reg, reg', u, u', r);
    }
    forall r | r in u'.relationships
      ensures r in u.relationships
    {
      RowsWithin(t', t, reg', reg, u', u, r);
    }
  }

  // ---- two builds ----

  /** Where a table of a resolved model comes from. */
  lemma ResolvedFrom(tables: seq<Table>, reg: Registry, resolved: seq<Table>, u: Table) returns (t: Table)
    requires TablesResolved(MarkedTables(tables, reg), Remarked(tables, reg), resolved) && u in resolved
    ensures t in tables && TableResolved(Marked(tables, reg, t), Remarked(tables, reg), u)
  {
    hide TableResolved, Marked, Remarked;
    var i :| 0 <= i < |resolved| && resolved[i] == u;
    t := tables[i];
  }

  lemma ResolvedTo(tables: seq<Table>, reg: Registry, resolved: seq<Table>, t: Table) returns (u: Table)
    requires TablesResolved(MarkedTables(tables, reg), Remarked(tables, reg), resolved) && t in tables
    ensures u in resolved && TableResolved(Marked(tables, reg, t), Remarked(tables, reg), u)
  {
    hide TableResolved, Marked, Remarked;
    var i :| 0 <= i < |tables| && tables[i] == t;
    u := resolved[i];
    assert TableResolved(MarkedTables(tables, reg)[i], Remarked(tables, reg), u);
  }

  lemma ResolvedShuffled(s: Stages, s': Stages, tables: seq<Table>, tables': seq<Table>)
    requires Built(s, tables) && Built(s', tables') && Reordered(s.parsed, s'.parsed) && DistinctTables(s.parsed)
    ensures Shuffled(s.resolved, s'.resolved)
  {
    hide RegistryOf, Reordered, TablesResolved, SameDocument, Folds, FiledAlike, TableResolved, SameDoc, MarkedTables,
      Remarked, Marked;
    RegistriesAgree(s.parsed, s'.parsed, s.filed, s'.filed);
    RemarkedAlike(s.parsed, s'.parsed, s.filed, s'.filed);
    SameByName(s.filed, s'.filed);
    forall u | u in s.resolved
      ensures Includes(s'.resolved, u)
    {
      var t := ResolvedFrom(s.parsed, s.filed, s.resolved, u);
      var t' := Twin(s.parsed, s'.parsed, t);
      var u' := ResolvedTo(s'.parsed, s'.filed, s'.resolved, t');
      MarkedAlike(s.parsed, s'.parsed, s.filed, s'.filed, t, t');
      SameResolved(Marked(s.parsed, s.filed, t), Marked(s'.parsed, s'.filed, t'), Remarked(s.parsed, s.filed),
        Remarked(s'.parsed, s'.filed), u, u');
    }
    forall u' | u' in s'.resolved
      ensures Includes(s.resolved, u')
    {
      var t' := ResolvedFrom(s'.parsed, s'.filed, s'.resolved, u');
      var t := TwinBack(s.parsed, s'.parsed, t');
      var u := ResolvedTo(s.parsed, s.filed, s.resolved, t);
      MarkedAlike(s.parsed, s'.parsed, s.filed, s'.filed, t, t');
      SameResolved(Marked(s.parsed, s.filed, t), Marked(s'.parsed, s'.filed, t'), Remarked(s.parsed, s.filed),
        Remarked(s'.parsed, s'.filed), u, u');
      SaidBack(u, u');
    }
  }

  lemma SaidBack(u: Table, u': Table)
    requires SameDocument(u, u')
    ensures SameDocument(u', u)
  {
  }

  lemma SameByName(reg: Registry, reg': Registry)
    requires FiledAlike(reg, reg')
    ensures reg'.byName == reg.byName
  {
  }

  lemma {:induction false} SameLineageRefs(x: seq<Table>, y: seq<Table>)
    requires |x| == |y| && forall i | 0 <= i < |x| :: x[i].columnLineage == y[i].columnLineage
    ensures Refs(x) == Refs(y)
  {
    if x != [] {
      SameLineageRefs(x[..|x| - 1], y[..|y| - 1]);
    }
  }

  /** Marking and resolving leave the lineage as parsed. */
  lemma ResolvedRefs(s: Stages, tables: seq<Table>)
    requires Built(s, tables)
    ensures Refs(s.resolved) == Refs(s.parsed)
  {
    hide RegistryOf, Folds, RowResolved, IsConformed, Remarked;
    forall i | 0 <= i < |s.parsed|
      ensures s.resolved[i].columnLineage == s.parsed[i].columnLineage
    {
      assert TableResolved(MarkedTables(s.parsed, s.filed)[i], Remarked(s.parsed, s.filed), s.resolved[i]);
    }
    SameLineageRefs(s.resolved, s.parsed);
  }

  /** What a resolved model declares is bound as resolution binds it. */
  lemma ResolvedBound(s: Stages, tables: seq<Table>)
    requires Built(s, tables) && Parsed(s.parsed) && AllNulFree(Decls(s.resolved))
    ensures Bound(Decls(s.resolved)) && Consistent(s.resolved)
  {
    hide RegistryOf, TablesResolved, Parsed, Folds, NulFree, EndsOf, MarkedTables, Remarked, DomainOf, InDomain;
    var marked, reg := MarkedTables(s.parsed, s.filed), Remarked(s.parsed, s.filed);
    MarkedParsed(s.parsed, s.filed);
    RemarkedFiles(s.parsed, s.filed);
    ResolvedKeepNames(marked, reg, s.resolved);
    forall d | d in Decls(s.resolved)
      ensures d.row.resolution in {Local, Conformed}
    {
      DeclCrosses(marked, reg, s.resolved, d);
    }
  }

  /** Documents given in another order, their rows too, build the same edges but for the wording of their
      cardinality. */
  lemma BuildsDrawAlike(s: Stages, s': Stages, tables: seq<Table>, tables': seq<Table>, out: seq<Edge>, out': seq<Edge>)
    requires Built(s, tables) && Built(s', tables') && Parsed(s.parsed)
    requires Reordered(s.parsed, s'.parsed) && DistinctTables(s.parsed) && AllNulFree(Decls(tables))
    requires EdgesOf(Decls(tables), DomainOf(tables), out) && EdgesOf(Decls(tables'), DomainOf(tables'), out')
    ensures Unwordeds(out) == Unwordeds(out') && |out| == |out'|
  {
    hide RegistryOf, TablesResolved, Parsed, Folds, Refs, CanonTables, EdgesOf, Decls, DomainOf, Reordered,
      DistinctTables, AllNulFree;
    CanonKeepsDecls(s.rewrite, s.resolved);
    CanonKeepsDecls(s'.rewrite, s'.resolved);
    ResolvedShuffled(s, s', tables, tables');
    ResolvedBound(s, tables);
    OrderOfDocumentsImmaterial(s.resolved, s'.resolved, out, out');
  }

  /** And they list the same sources, cited as often. */
  lemma BuildsCiteAlike(s: Stages, s': Stages, tables: seq<Table>, tables': seq<Table>, x: seq<SourceTable>,
                        y: seq<SourceTable>)
    requires Built(s, tables) && Built(s', tables') && Reordered(s.parsed, s'.parsed)
    requires SourcesBuilt(s, x) && SourcesBuilt(s', y)
    ensures x == y && s.rewrite == s'.rewrite
  {
    ResolvedRefs(s, tables);
    ResolvedRefs(s', tables');
    var refs, refs' := Refs(s.resolved), Refs(s'.resolved);
    hide RegistryOf, TablesResolved, Folds, Refs, CanonTables, Reordered, Counted, SourcesOf, Ascending, SourceIds;
    SameRefs(s.parsed, s'.parsed);
    forall r
      ensures r in refs <==> r in refs'
    {
      assert r in refs <==> r in multiset(refs');
    }
    FoldsIgnoreOrder(refs, refs', s.rewrite, s'.rewrite);
    CountedIsBag(s.rewrite, refs);
    CountedIsBag(s.rewrite, refs');
    GatheredBag(refs, refs', CountedBag(s.rewrite));
    SourcesUnique(Counted(s.rewrite, refs), Counted(s.rewrite, refs'), x, y);
  }

  // ---- diagnostics ----

  /** The best of the candidates the registry holds; "" when it holds none. */
  ghost function BestOf(candidates: seq<string>, byId: map<string, Table>): string {
    if id :| Picked(candidates, byId, id) then id else ""
  }

  ghost function UnmatchedNote(t: Table, r: Relationship, reg: Registry, target: string): seq<Diagnostic> {
    if target in reg.byId && Unmatched(t, r, reg.byId[target]) then [Diagnostic(UnmatchedJoinKey, t.id)] else []
  }

  /** What is noted of a row, told from the row as parsed. */
  ghost function RowNotes(t: Table, r: Relationship, reg: Registry): seq<Diagnostic> {
    match Outcome(t, r, reg)
    case Narrative => [Diagnostic(NarrativeReference, t.id)]
    case Unresolved => [Diagnostic(UnresolvedReference, t.id)]
    case Conformed =>
      UnmatchedNote(t, r, reg, BestOf(reg.byName[r.targetRef], reg.byId)) + [Diagnostic(CrossDomainReference, t.id)]
    case _ => UnmatchedNote(t, r, reg, LocalId(t, r))
  }

  lemma RowNotesAre(t: Table, r: Relationship, reg: Registry, r': Relationship)
    requires RowResolved(t, r, reg, r')
    ensures RowDiagnostics(t, r, reg, r') == RowNotes(t, r, reg)
  {
    hide Picked, Unmatched, IsIdentifier;
    if Outcome(t, r, reg) == Conformed {
      BestIs(reg.byName[r.targetRef], reg.byId, r'.toTableId);
    }
  }

  lemma BestIs(candidates: seq<string>, byId: map<string, Table>, id: string)
    requires Picked(candidates, byId, id)
    ensures BestOf(candidates, byId) == id
  {
    hide Picked;
    PickIgnoresOrder(candidates, candidates, byId, BestOf(candidates, byId), id);
  }

  lemma BestAlike(candidates: seq<string>, reg: Registry, reg': Registry)
    requires FiledAlike(reg, reg')
    ensures BestOf(candidates, reg.byId) == BestOf(candidates, reg'.byId)
  {
    hide FiledAlike, Picked;
    if a :| Picked(candidates, reg.byId, a) {
      PickedToo(candidates, reg, reg', a);
      BestIs(candidates, reg.byId, a);
      BestIs(candidates, reg'.byId, a);
    } else {
      forall b | Picked(candidates, reg'.byId, b)
        ensures Picked(candidates, reg.byId, b)
      {
        RegistriesBack(reg, reg');
        PickedToo(candidates, reg', reg, b);
      }
    }
  }

  lemma RegistriesBack(reg: Registry, reg': Registry)
    requires FiledAlike(reg, reg')
    ensures FiledAlike(reg', reg)
  {
    AlikeBack(Table("", "", "", "", "", "", "", "", "", "", false, [], [], [], []),
      Table("", "", "", "", "", "", "", "", "", "", false, [], [], [], []), reg, reg');
  }

  lemma PickedToo(candidates: seq<string>, reg: Registry, reg': Registry, id: string)
    requires FiledAlike(reg, reg') && Picked(candidates, reg.byId, id)
    ensures Picked(candidates, reg'.byId, id)
  {
    hide DeclaresConformed, SameDoc, Better;
    forall c | c in reg.byId
      ensures Score(reg.byId[c], c) == Score(reg'.byId[c], c)
    {
      SameLabels(reg.byId[c], reg'.byId[c]);
    }
  }

  lemma UnmatchedAlike(t: Table, t': Table, r: Relationship, reg: Registry, reg': Registry, target: string)
    requires SameDoc(t, t') && FiledAlike(reg, reg')
    ensures UnmatchedNote(t, r, reg, target) == UnmatchedNote(t', r, reg', target)
  {
    hide OrientJoinKey, DeclaresConformed, ColumnNames;
    SameLabels(t, t');
    if target in reg.byId {
      SameLabels(reg.byId[target], reg'.byId[target]);
    }
  }

  lemma RowNotesAlike(t: Table, t': Table, r: Relationship, reg: Registry, reg': Registry)
    requires SameDoc(t, t') && FiledAlike(reg, reg')
    ensures RowNotes(t, r, reg) == RowNotes(t', r, reg')
  {
    hide SameDoc, UnmatchedNote, IsIdentifier, BestOf;
    SameHome(t, t', r);
    assert Outcome(t, r, reg) == Outcome(t', r, reg');
    UnmatchedAlike(t, t', r, reg, reg', LocalId(t, r));
    if Outcome(t, r, reg) == Conformed {
      BestAlike(reg.byName[r.targetRef], reg, reg');
      UnmatchedAlike(t, t', r, reg, reg', BestOf(reg.byName[r.targetRef], reg.byId));
    }
  }

  ghost function RowBag(t: Table, reg: Registry): Relationship -> multiset<Diagnostic> {
    (r: Relationship) => multiset(RowNotes(t, r, reg))
  }

  ghost function TableBag(reg: Registry): Table -> multiset<Diagnostic> {
    (t: Table) => Gathered(t.relationships, RowBag(t, reg))
  }

  lemma {:induction false} TableNotesBag(t: Table, reg: Registry, rows: seq<Relationship>)
    requires |rows| <= |t.relationships|
    requires forall j | 0 <= j < |rows| :: RowResolved(t, t.relationships[j], reg, rows[j])
    ensures multiset(TableDiagnostics(t, reg, rows)) == Gathered(t.relationships[..|rows|], RowBag(t, reg))
  {
    hide RowResolved, RowNotes, RowDiagnostics;
    if rows != [] {
      var j := |rows| - 1;
      TableNotesBag(t, reg, rows[..j]);
      RowNotesAre(t, t.relationships[j], reg, rows[j]);
      assert t.relationships[..j + 1][..j] == t.relationships[..j];
    }
  }

  lemma {:induction false} NotesBag(tables: seq<Table>, reg: Registry, tables': seq<Table>)
    requires TablesResolved(tables, reg, tables')
    ensures multiset(AllDiagnostics(tables, reg, tables')) == Gathered(tables, TableBag(reg))
  {
    hide RowResolved, TableDiagnostics;
    if tables' != [] {
      var i := |tables'| - 1;
      NotesBag(tables[..i], reg, tables'[..i]);
      SamePrefix(tables, reg, tables'[..i]);
      TableNotesBag(tables[i], reg, tables'[i].relationships);
      assert tables[i].relationships[..|tables'[i].relationships|] == tables[i].relationships;
    }
  }

  lemma TableBagAlike(t: Table, t': Table, reg: Registry, reg': Registry)
    requires SameDoc(t, t') && FiledAlike(reg, reg')
    ensures TableBag(reg)(t) == TableBag(reg')(t')
  {
    hide FiledAlike, RowNotes, Gathered;
    forall r
      ensures RowBag(t, reg)(r) == RowBag(t', reg')(r)
    {
      RowNotesAlike(t, t', r, reg, reg');
    }
    GatheredAlike(t.relationships, t.relationships, RowBag(t, reg), RowBag(t', reg'));
    GatheredBag(t.relationships, t'.relationships, RowBag(t', reg'));
  }

  function MarkedBag(tables: seq<Table>, reg: Registry): Table -> multiset<Table> {
    (t: Table) => multiset{Marked(tables, reg, t)}
  }

  function MarkedEach(tables: seq<Table>, reg: Registry, these: seq<Table>): seq<Table> {
    seq(|these|, i requires 0 <= i < |these| => Marked(tables, reg, these[i]))
  }

  lemma {:induction false} MarkedGathered(tables: seq<Table>, reg: Registry, these: seq<Table>)
    ensures multiset(MarkedEach(tables, reg, these)) == Gathered(these, MarkedBag(tables, reg))
  {
    hide Marked;
    if these != [] {
      var n := |these| - 1;
      MarkedGathered(tables, reg, these[..n]);
      assert MarkedEach(tables, reg, these) == MarkedEach(tables, reg, these[..n]) + [Marked(tables, reg, these[n])];
    }
  }

  /** Marked, the documents are still the same in another order. */
  lemma MarkedReordered(tables: seq<Table>, tables': seq<Table>, reg: Registry, reg': Registry)
    requires Reordered(tables, tables') && reg'.byName == reg.byName
    ensures Reordered(MarkedTables(tables, reg), MarkedTables(tables', reg'))
  {
    hide SameDoc, Marked;
    var mid: seq<Table> :| RowsReordered(tables, mid) && multiset(mid) == multiset(tables');
    var between := MarkedEach(tables', reg', mid);
    forall i | 0 <= i < |tables|
      ensures SameDoc(MarkedTables(tables, reg)[i], between[i])
    {
      MarkedAlike(tables, tables', reg, reg', tables[i], mid[i]);
    }
    MarkedGathered(tables', reg', mid);
    MarkedGathered(tables', reg', tables');
    GatheredBag(mid, tables', MarkedBag(tables', reg'));
    assert MarkedEach(tables', reg', tables') == MarkedTables(tables', reg');
    assert RowsReordered(MarkedTables(tables, reg), between);
  }

  lemma TablesNotedAlike(tables: seq<Table>, tables': seq<Table>, reg: Registry, reg': Registry)
    requires Reordered(tables, tables') && FiledAlike(reg, reg')
    ensures Gathered(tables, TableBag(reg)) == Gathered(tables', TableBag(reg'))
  {
    hide SameDoc, FiledAlike, Gathered;
    var mid: seq<Table> :| RowsReordered(tables, mid) && multiset(mid) == multiset(tables');
    forall i | 0 <= i < |tables|
      ensures TableBag(reg)(tables[i]) == TableBag(reg')(mid[i])
    {
      TableBagAlike(tables[i], mid[i], reg, reg');
    }
    GatheredAlike(tables, mid, TableBag(reg), TableBag(reg'));
    GatheredBag(mid, tables', TableBag(reg'));
  }

  // ---- notes on prose ----

  lemma {:induction false} ProseIn(rows: seq<ColumnLineage>)
    ensures ProseRows(rows) > 0 <==> exists l :: l in rows && ProseRow(l)
  {
    hide ProseRow;
    if rows != [] {
      ProseIn(rows[..|rows| - 1]);
      assert rows == rows[..|rows| - 1] + [rows[|rows| - 1]];
    }
  }

  lemma ProseAlike(x: seq<ColumnLineage>, y: seq<ColumnLineage>)
    requires multiset(x) == multiset(y)
    ensures ProseRows(x) > 0 <==> ProseRows(y) > 0
  {
    hide ProseRow;
    ProseIn(x);
    ProseIn(y);
    assert forall l :: l in x <==> l in multiset(y);
  }

  lemma ProseTwins(tables: seq<Table>, tables': seq<Table>, id: string)
    requires Reordered(tables, tables')
    ensures CitesProse(tables, id) <==> CitesProse(tables', id)
  {
    hide Reordered, ProseRows;
    if CitesProse(tables, id) {
      var t :| t in tables && HasId(t, id) && ProseRows(t.columnLineage) > 0;
      var t' := Twin(tables, tables', t);
      ProseAlike(t.columnLineage, t'.columnLineage);
      assert HasId(t', id);
    }
    if CitesProse(tables', id) {
      var t' :| t' in tables' && HasId(t', id) && ProseRows(t'.columnLineage) > 0;
      var t := TwinBack(tables, tables', t');
      ProseAlike(t.columnLineage, t'.columnLineage);
      assert HasId(t, id);
    }
  }

  lemma ProseKept(x: seq<Table>, y: seq<Table>, id: string)
    requires |x| == |y| && forall i | 0 <= i < |x| :: x[i].columnLineage == y[i].columnLineage && x[i].id == y[i].id
    ensures CitesProse(x, id) ==> CitesProse(y, id)
  {
    hide ProseRows;
    if t :| t in x && HasId(t, id) && ProseRows(t.columnLineage) > 0 {
      var i :| 0 <= i < |x| && x[i] == t;
      assert y[i] in y && HasId(y[i], id);
    }
  }

  lemma ResolvedProse(s: Stages, tables: seq<Table>, id: string)
    requires Built(s, tables)
    ensures CitesProse(s.resolved, id) <==> CitesProse(s.parsed, id)
  {
    hide RegistryOf, Folds, RowResolved, IsConformed, Remarked;
    forall i | 0 <= i < |s.parsed|
      ensures s.resolved[i].columnLineage == s.parsed[i].columnLineage && s.resolved[i].id == s.parsed[i].id
    {
      assert TableResolved(MarkedTables(s.parsed, s.filed)[i], Remarked(s.parsed, s.filed), s.resolved[i]);
    }
    ProseKept(s.resolved, s.parsed, id);
    ProseKept(s.parsed, s.resolved, id);
  }

  lemma {:induction false} EachOnce(notes: seq<Diagnostic>, d: Diagnostic)
    requires forall i, j | 0 <= i < j < |notes| :: notes[i] != notes[j]
    ensures multiset(notes)[d] == if d in notes then 1 else 0
  {
    if notes != [] {
      var n := |notes| - 1;
      EachOnce(notes[..n], d);
      assert notes == notes[..n] + [notes[n]];
      assert notes[n] !in notes[..n];
    }
  }

  lemma SameNotes(x: seq<Diagnostic>, y: seq<Diagnostic>)
    requires forall i, j | 0 <= i < j < |x| :: x[i] != x[j]
    requires forall i, j | 0 <= i < j < |y| :: y[i] != y[j]
    requires forall d :: d in x <==> d in y
    ensures multiset(x) == multiset(y)
  {
    forall d
      ensures multiset(x)[d] == multiset(y)[d]
    {
      EachOnce(x, d);
      EachOnce(y, d);
    }
  }

  /** And they note the same of the documents, each note as often. */
  lemma BuildsNoteAlike(s: Stages, s': Stages, tables: seq<Table>, tables': seq<Table>,
                        ds: seq<Diagnostic>, ds': seq<Diagnostic>)
    requires Built(s, tables) && Built(s', tables') && Reordered(s.parsed, s'.parsed) && DistinctTables(s.parsed)
    requires DiagnosticsBuilt(s, ds) && DiagnosticsBuilt(s', ds')
    ensures multiset(ds) == multiset(ds')
  {
    hide RegistryOf, TablesResolved, Folds, Reordered, DistinctTables, FiledAlike, Remarked, MarkedTables,
      AllDiagnostics, CitesProse;
    var notes :| DiagnosticsWith(s, notes, ds);
    var notes' :| DiagnosticsWith(s', notes', ds');
    var marked, marked' := MarkedTables(s.parsed, s.filed), MarkedTables(s'.parsed, s'.filed);
    var reg, reg' := Remarked(s.parsed, s.filed), Remarked(s'.parsed, s'.filed);
    RegistriesAgree(s.parsed, s'.parsed, s.filed, s'.filed);
    RemarkedAlike(s.parsed, s'.parsed, s.filed, s'.filed);
    SameByName(s.filed, s'.filed);
    MarkedReordered(s.parsed, s'.parsed, s.filed, s'.filed);
    NotesBag(marked, reg, s.resolved);
    NotesBag(marked', reg', s'.resolved);
    TablesNotedAlike(marked, marked', reg, reg');
    SameIdsFiled(reg, reg');
    forall d: Diagnostic
      ensures d in notes <==> d in notes'
    {
      ResolvedProse(s, tables, d.tableId);
      ResolvedProse(s', tables', d.tableId);
      ProseTwins(s.parsed, s'.parsed, d.tableId);
    }
    SameNotes(notes, notes');
  }

  lemma SameIdsFiled(reg: Registry, reg': Registry)
    requires FiledAlike(reg, reg')
    ensures reg.byId.Keys == reg'.byId.Keys
  {
  }
}
