/** What the edges of a model do not depend on, and what resolution makes of them. */
module EdgeLaws {
  import opened Text
  import opened Sorting
  import opened Models
  import opened Registries
  import opened Orientation
  import opened Resolving
  import opened GraphEdges

  predicate Nulless(s: string) { '\0' !in s }

  predicate NulFree(e: Ends) {
    Nulless(e.from) && Nulless(e.to) && Nulless(e.fromColumn) && Nulless(e.toColumn)
  }

  /** Joined by NUL, ends without one keep apart. */
  lemma KeysApart(e: Ends, f: Ends)
    requires NulFree(e) && NulFree(f) && KeyOf(e) == KeyOf(f)
    ensures e == f
  {
    var e1, f1 := e.fromColumn + NUL + e.toColumn, f.fromColumn + NUL + f.toColumn;
    var e2, f2 := e.to + NUL + e1, f.to + NUL + f1;
    assert KeyOf(e) == e.from + ['\0'] + e2 && KeyOf(f) == f.from + ['\0'] + f2;
    SeparatorSplits('\0', e.from, e2, f.from, f2);
    SeparatorSplits('\0', e.to, e1, f.to, f1);
    SeparatorSplits('\0', e.fromColumn, e.toColumn, f.fromColumn, f.toColumn);
  }

  /** Rows that name no NUL and are bound as resolution binds them. */
  ghost predicate Bound(ds: seq<Decl>) {
    forall d | d in ds :: NulFree(EndsOf(d.row)) && d.row.resolution in {Local, Conformed}
  }

  function Unworded(e: Edge): Edge {
    e.(cardinality := "")
  }

  function Unwordeds(out: seq<Edge>): set<Edge> {
    set e | e in out :: Unworded(e)
  }

  ghost predicate SameDecls(ds: seq<Decl>, ds': seq<Decl>) {
    forall d :: d in ds <==> d in ds'
  }

  lemma SameFor(ds: seq<Decl>, ds': seq<Decl>, k: string)
    requires SameDecls(ds, ds')
    ensures KeyDeclared(ds, k) <==> KeyDeclared(ds', k)
    ensures ConformedFor(ds, k) <==> ConformedFor(ds', k)
    ensures forall id :: DeclaredFor(ds, k, id) <==> DeclaredFor(ds', k, id)
  {
    hide Keyed;
  }

  /** What an edge says but for its wording follows from its key and the declarations, in any order. */
  lemma EdgeFollows(ds: seq<Decl>, ds': seq<Decl>, domains: map<string, string>, e: Edge, e': Edge)
    requires SameDecls(ds, ds') && Bound(ds) && EdgeOf(ds, domains, e) && EdgeOf(ds', domains, e')
    requires EdgeKey(e) == EdgeKey(e')
    ensures Unworded(e) == Unworded(e')
  {
    hide EndsOf, KeyOf, NulFree, Less, Wording;
    var k := EdgeKey(e);
    SameFor(ds, ds', k);
    var i: nat :| First(ds, k, i) && Shown(ds[i].row, ConformedFor(ds, k), e);
    var j: nat :| First(ds', k, j) && Shown(ds'[j].row, ConformedFor(ds', k), e');
    assert ds[i] in ds && ds'[j] in ds;
    KeysApart(EndsOf(ds[i].row), EndsOf(ds'[j].row));
    assert EdgeEnds(e) == EdgeEnds(e');
    OneOrder(e.declaredBy, e'.declaredBy);
    assert !ConformedFor(ds, k) ==> ds[i].row.resolution == ds'[j].row.resolution == Local;
  }

  lemma EdgesWithin(ds: seq<Decl>, ds': seq<Decl>, domains: map<string, string>, out: seq<Edge>, out': seq<Edge>)
    requires EdgesOf(ds, domains, out) && EdgesOf(ds', domains, out') && SameDecls(ds, ds') && Bound(ds)
    ensures Unwordeds(out) <= Unwordeds(out')
  {
    hide EdgeOf, EdgeKey, KeyDeclared;
    forall e | e in out
      ensures Unworded(e) in Unwordeds(out')
    {
      var k := EdgeKey(e);
      assert KeyShown(out, k);
      SameFor(ds, ds', k);
      var e' :| e' in out' && EdgeKey(e') == k;
      EdgeFollows(ds, ds', domains, e, e');
    }
  }

  lemma {:induction false} NoneLost(out: seq<Edge>)
    requires OneEach(out)
    ensures |Unwordeds(out)| == |out|
  {
    if out != [] {
      hide OneEach, Unworded;
      var n := |out| - 1;
      LastApart(out);
      NoneLost(out[..n]);
      assert out == out[..n] + [out[n]];
      assert Unwordeds(out) == Unwordeds(out[..n]) + {Unworded(out[n])};
    }
  }

  lemma LastApart(out: seq<Edge>)
    requires out != [] && OneEach(out)
    ensures var n := |out| - 1; OneEach(out[..n]) && forall f | f in out[..n] :: Unworded(f) != Unworded(out[n])
  {
    hide EdgeKey, Unworded;
    var n := |out| - 1;
    var rest, e := out[..n], out[n];
    assert out == rest + [e] && multiset(out) == multiset(rest) + multiset{e};
    forall f | f in rest
      ensures multiset(rest)[f] == 1 && Unworded(f) != Unworded(e)
    {
      assert f in multiset(rest) && f in out;
      assert multiset(out)[f] == multiset(rest)[f] + multiset{e}[f];
      SameKeyUnworded(e, f);
    }
  }

  lemma SameKeyUnworded(e: Edge, f: Edge)
    ensures Unworded(e) == Unworded(f) ==> EdgeKey(e) == EdgeKey(f)
  {
    if Unworded(e) == Unworded(f) {
      assert EdgeEnds(e) == EdgeEnds(Unworded(e)) && EdgeEnds(f) == EdgeEnds(Unworded(f));
    }
  }

  /** The same declarations, in any order, give the same edges but for the wording of their cardinality. */
  lemma EdgesCanonical(ds: seq<Decl>, ds': seq<Decl>, domains: map<string, string>, out: seq<Edge>, out': seq<Edge>)
    requires EdgesOf(ds, domains, out) && EdgesOf(ds', domains, out') && SameDecls(ds, ds') && Bound(ds)
    ensures Unwordeds(out) == Unwordeds(out') && |out| == |out'| == |Unwordeds(out)|
  {
    hide EdgesOf;
    EdgesWithin(ds, ds', domains, out, out');
    EdgesWithin(ds', ds, domains, out', out);
    EdgesOfParts(ds, domains, out);
    EdgesOfParts(ds', domains, out');
    NoneLost(out);
    NoneLost(out');
  }

  lemma EdgesOfParts(ds: seq<Decl>, domains: map<string, string>, out: seq<Edge>)
    requires EdgesOf(ds, domains, out)
    ensures OneEach(out)
  {
  }

  // ---- reordering tables and rows ----

  predicate SameDocument(t: Table, t': Table) {
    t'.id == t.id && t'.domainId == t.domainId && (forall r | r in t.relationships :: r in t'.relationships)
    && forall r | r in t'.relationships :: r in t.relationships
  }

  ghost predicate Includes(tables: seq<Table>, t: Table) {
    exists t' :: t' in tables && SameDocument(t, t')
  }

  /** The same documents, and rows within each, in some other order. */
  ghost predicate Shuffled(tables: seq<Table>, tables': seq<Table>) {
    (forall t | t in tables :: Includes(tables', t)) && forall t | t in tables' :: Includes(tables, t)
  }

  /** Tables that share an identifier share a domain. */
  ghost predicate Consistent(tables: seq<Table>) {
    forall t, u | t in tables && u in tables && t.id == u.id :: t.domainId == u.domainId
  }

  lemma {:induction false} DomainIs(tables: seq<Table>, t: Table)
    requires Consistent(tables) && t in tables
    ensures t.id in DomainOf(tables) && DomainOf(tables)[t.id] == t.domainId
  {
    var n := |tables| - 1;
    assert tables == tables[..n] + [tables[n]];
    if tables[n].id != t.id {
      DomainIs(tables[..n], t);
    }
  }

  lemma {:induction false} DomainOfTable(tables: seq<Table>, id: string) returns (t: Table)
    requires id in DomainOf(tables)
    ensures t in tables && t.id == id
  {
    var n := |tables| - 1;
    if tables[n].id == id {
      t := tables[n];
    } else {
      t := DomainOfTable(tables[..n], id);
    }
  }

  lemma DomainsWithin(tables: seq<Table>, tables': seq<Table>, id: string)
    requires Shuffled(tables, tables') && Consistent(tables) && Consistent(tables') && id in DomainOf(tables)
    ensures id in DomainOf(tables') && DomainOf(tables')[id] == DomainOf(tables)[id]
  {
    hide Includes, DomainOf, Consistent;
    var t := DomainOfTable(tables, id);
    var t' := Partner(tables', t);
    DomainIs(tables, t);
    DomainIs(tables', t');
  }

  lemma DeclsWithin(tables: seq<Table>, tables': seq<Table>, d: Decl)
    requires Shuffled(tables, tables') && d in Decls(tables)
    ensures d in Decls(tables')
  {
    DeclsAre(tables, d);
    DeclsAre(tables', d);
    hide Includes, Decls;
    var t :| t in tables && Declares(t, d);
    var t' := Partner(tables', t);
    assert Declares(t', d);
  }

  /** Reordering the tables, or the rows of a table, leaves the set of edges as it is but for the wording. */
  lemma OrderOfDocumentsImmaterial(tables: seq<Table>, tables': seq<Table>, out: seq<Edge>, out': seq<Edge>)
    requires Shuffled(tables, tables') && Consistent(tables) && Bound(Decls(tables))
    requires EdgesOf(Decls(tables), DomainOf(tables), out) && EdgesOf(Decls(tables'), DomainOf(tables'), out')
    ensures Unwordeds(out) == Unwordeds(out') && |out| == |out'|
  {
    hide EdgesOf, Bound, Decls, DomainOf, Includes;
    assert Shuffled(tables', tables);
    ConsistentToo(tables, tables');
    forall id
      ensures id in DomainOf(tables) <==> id in DomainOf(tables')
      ensures id in DomainOf(tables) ==> DomainOf(tables)[id] == DomainOf(tables')[id]
    {
      if id in DomainOf(tables) {
        DomainsWithin(tables, tables', id);
      }
      if id in DomainOf(tables') {
        DomainsWithin(tables', tables, id);
      }
    }
    assert DomainOf(tables) == DomainOf(tables');
    forall d
      ensures d in Decls(tables) <==> d in Decls(tables')
    {
      if d in Decls(tables) {
        DeclsWithin(tables, tables', d);
      }
      if d in Decls(tables') {
        DeclsWithin(tables', tables, d);
      }
    }
    EdgesCanonical(Decls(tables), Decls(tables'), DomainOf(tables), out, out');
  }

  lemma Partner(tables: seq<Table>, t: Table) returns (t': Table)
    requires Includes(tables, t)
    ensures t' in tables && SameDocument(t, t')
  {
    t' :| t' in tables && SameDocument(t, t');
  }

  lemma ConsistentToo(tables: seq<Table>, tables': seq<Table>)
    requires Shuffled(tables, tables') && Consistent(tables)
    ensures Consistent(tables')
  {
    hide Includes;
    forall t', u' | t' in tables' && u' in tables' && t'.id == u'.id
      ensures t'.domainId == u'.domainId
    {
      var t := Partner(tables, t');
      var u := Partner(tables, u');
    }
  }

  // ---- resolved models ----

  /** Documents as parsed: identifiers built from domain and name, rows of their own table and bound to none. */
  ghost predicate Parsed(tables: seq<Table>) {
    forall t | t in tables :: WellNamed(t) && forall r | r in t.relationships :: Fresh(t, r)
  }

  /** Where a declaration of a resolved model comes from. */
  lemma Origin(tables: seq<Table>, reg: Registry, tables': seq<Table>, d: Decl) returns (t: Table, r: Relationship)
    requires TablesResolved(tables, reg, tables') && d in Decls(tables')
    ensures t in tables && r in t.relationships && RowResolved(t, r, reg, d.row) && d.tableId == t.id
    ensures d.row.toTableId != ""
  {
    hide RowResolved;
    DeclsAre(tables', d);
    var t' :| t' in tables' && Declares(t', d);
    var i :| 0 <= i < |tables'| && tables'[i] == t';
    t := tables[i];
    assert TableResolved(t, reg, t');
    var j :| 0 <= j < |t'.relationships| && t'.relationships[j] == d.row;
    r := t.relationships[j];
  }

  lemma ResolvedKeepNames(tables: seq<Table>, reg: Registry, tables': seq<Table>)
    requires TablesResolved(tables, reg, tables') && Parsed(tables)
    ensures Consistent(tables') && Consistent(tables)
    ensures forall t | t in tables :: (exists t' :: t' in tables' && t'.id == t.id && t'.domainId == t.domainId)
  {
    hide RowResolved;
    forall t' | t' in tables'
      ensures WellNamed(t')
    {
      var i :| 0 <= i < |tables'| && tables'[i] == t';
      assert TableResolved(tables[i], reg, t');
    }
    NamedConsistent(tables);
    NamedConsistent(tables');
    forall t | t in tables
      ensures exists t' :: t' in tables' && t'.id == t.id && t'.domainId == t.domainId
    {
      var i :| 0 <= i < |tables| && tables[i] == t;
      assert TableResolved(t, reg, tables'[i]) && tables'[i] in tables';
    }
  }

  lemma NamedConsistent(tables: seq<Table>)
    requires forall t | t in tables :: WellNamed(t)
    ensures Consistent(tables)
  {
    forall t, u | t in tables && u in tables && t.id == u.id
      ensures t.domainId == u.domainId
    {
      SeparatorSplits('/', t.domainId, t.name, u.domainId, u.name);
    }
  }

  /** A resolved declaration joins two domains exactly when it is conformed. */
  lemma DeclCrosses(tables: seq<Table>, reg: Registry, tables': seq<Table>, d: Decl)
    requires RegistryOf(tables, reg) && TablesResolved(tables, reg, tables') && Parsed(tables) && d in Decls(tables')
    ensures d.row.resolution in {Local, Conformed}
    ensures var e, domains := EndsOf(d.row), DomainOf(tables');
      InDomain(domains, e.from) != InDomain(domains, e.to) <==> d.row.resolution == Conformed
  {
    hide RowResolved, TablesResolved, IsOneToMany, Decls, DomainOf, WellNamed, RegistryOf;
    var t, r := Origin(tables, reg, tables', d);
    ResolvedKeepNames(tables, reg, tables');
    assert Fresh(t, r) && WellNamed(t);
    NamedHaveIds(tables);
    RegistryIsSound(tables, reg);
    BoundToRegistered(t, r, reg, d.row);
    ConformedLeavesDomain(tables, reg, t, r, d.row);
    var target := reg.byId[d.row.toTableId];
    RegisteredIsTable(tables, reg, d.row.toTableId);
    var t' :| t' in tables' && t'.id == t.id && t'.domainId == t.domainId;
    var u' :| u' in tables' && u'.id == target.id && u'.domainId == target.domainId;
    DomainIs(tables', t');
    DomainIs(tables', u');
  }

  lemma NamedHaveIds(tables: seq<Table>)
    requires forall t | t in tables :: WellNamed(t)
    ensures forall t | t in tables :: t.id != ""
  {
    forall t | t in tables
      ensures t.id != ""
    {
      assert |t.id| > 0;
    }
  }

  lemma RegisteredIsTable(tables: seq<Table>, reg: Registry, id: string)
    requires RegistryOf(tables, reg) && id in reg.byId
    ensures reg.byId[id] in tables && reg.byId[id].id == id
  {
    assert HasId(reg.byId[id], id);
  }

  ghost predicate AllNulFree(ds: seq<Decl>) {
    forall d | d in ds :: NulFree(EndsOf(d.row))
  }

  /** An edge of a resolved model crosses domains exactly when it is conformed. */
  lemma CrossDomainIsConformed(tables: seq<Table>, reg: Registry, tables': seq<Table>, out: seq<Edge>, e: Edge)
    requires RegistryOf(tables, reg) && TablesResolved(tables, reg, tables') && Parsed(tables)
    requires AllNulFree(Decls(tables')) && EdgesOf(Decls(tables'), DomainOf(tables'), out) && e in out
    ensures e.crossDomain <==> e.resolution == Conformed
    ensures e.resolution in {Local, Conformed}
  {
    hide TablesResolved, RegistryOf, Parsed, EndsOf, KeyOf, NulFree, Decls, DomainOf, InDomain, Wording;
    var ds, k := Decls(tables'), EdgeKey(e);
    assert EdgeOf(ds, DomainOf(tables'), e);
    var i: nat :| First(ds, k, i) && Shown(ds[i].row, ConformedFor(ds, k), e);
    DeclCrosses(tables, reg, tables', ds[i]);
    assert ds[i] in ds;
    if ConformedFor(ds, k) {
      var d :| d in ds && Keyed(d, k) && d.row.resolution == Conformed;
      DeclCrosses(tables, reg, tables', d);
      KeysApart(EndsOf(d.row), EndsOf(ds[i].row));
    }
  }

  /** A join declared many-to-one by one table and one-to-many by the other, each in either order. */
  ghost predicate TwoSided(reg: Registry, many: Table, one: Table, x: Relationship, x': Relationship, y: Relationship,
                           y': Relationship,
                           a: string, b: string) {
    && RowResolved(many, x, reg, x') && RowResolved(one, y, reg, y') && Fresh(many, x) && Fresh(one, y)
    && x'.toTableId == one.id && y'.toTableId == many.id
    && many.id in reg.byId && one.id in reg.byId
    && ColumnNames(reg.byId[many.id]) == ColumnNames(many) && ColumnNames(reg.byId[one.id]) == ColumnNames(one)
    && many.id != "" && one.id != ""
    && !IsOneToMany(x.cardinality) && IsOneToMany(y.cardinality)
    && (x.fromColumn, x.toColumn) in {(a, b), (b, a)} && (y.fromColumn, y.toColumn) in {(a, b), (b, a)}
  }

  function Ended(many: Table, one: Table, columns: (string, string)): Ends {
    Ends(many.id, one.id, columns.0, columns.1)
  }

  /** Each declaration's ends are those its writing names, the side of many first. */
  lemma TwoSidedWritten(reg: Registry, many: Table, one: Table, x: Relationship, x': Relationship, y: Relationship,
                        y': Relationship,
                        a: string, b: string)
    requires TwoSided(reg, many, one, x, x', y, y', a, b)
    ensures EndsOf(x') == Ended(many, one, FromMany((x.fromColumn, x.toColumn), ColumnNames(many), ColumnNames(one)))
    ensures EndsOf(y') == Ended(many, one, FromOne((y.fromColumn, y.toColumn), ColumnNames(many), ColumnNames(one)))
  {
    hide IsOneToMany, OrientJoinKey, Picked, IdentifierChar, ColumnNames, IsIdentifier;
    assert x'.fromTableId == many.id && y'.fromTableId == one.id;
  }

  /** Such declarations have one pair of ends whenever the columns determine the join. */
  lemma TwoSidedEnds(reg: Registry, many: Table, one: Table, x: Relationship, x': Relationship, y: Relationship,
                     y': Relationship,
                     a: string, b: string)
    requires TwoSided(reg, many, one, x, x', y, y', a, b) && Determined(a, b, ColumnNames(many), ColumnNames(one))
    ensures EndsOf(x') == EndsOf(y')
    ensures EndsOf(x').from == many.id && EndsOf(x').to == one.id
    ensures a != b ==> EndsOf(x').fromColumn in ColumnNames(many) && EndsOf(x').toColumn in ColumnNames(one)
  {
    hide IsOneToMany, OrientJoinKey, RowResolved, ColumnNames, EndsOf;
    WritingsCollapse(a, b, ColumnNames(many), ColumnNames(one));
    TwoSidedWritten(reg, many, one, x, x', y, y', a, b);
    WritingIsOne(x, a, b);
    WritingIsOne(y, a, b);
  }

  lemma WritingIsOne(r: Relationship, a: string, b: string)
    requires (r.fromColumn, r.toColumn) in {(a, b), (b, a)}
    ensures (r.fromColumn, r.toColumn) == (a, b) || (r.fromColumn, r.toColumn) == (b, a)
  {
  }

  predicate DrawnAs(out: seq<Edge>, r: Relationship, e: Edge) {
    e in out && EdgeEnds(e) == EndsOf(r)
  }

  ghost predicate AllDrawnAs(out: seq<Edge>, x: seq<Relationship>, y: seq<Relationship>, e: Edge) {
    forall r | r in x || r in y :: DrawnAs(out, r, e)
  }

  /** Every bound row is drawn. */
  lemma DeclIsDrawn(ds: seq<Decl>, domains: map<string, string>, out: seq<Edge>, d: Decl) returns (e: Edge)
    requires AllNulFree(ds) && EdgesOf(ds, domains, out) && d in ds
    ensures DrawnAs(out, d.row, e) && EdgeOf(ds, domains, e) && EdgeKey(e) == KeyOf(EndsOf(d.row))
  {
    hide EndsOf, KeyOf, NulFree, InDomain, Wording, Less;
    var k := KeyOf(EndsOf(d.row));
    assert Keyed(d, k) && KeyDeclared(ds, k);
    e :| e in out && EdgeKey(e) == k;
    assert EdgeOf(ds, domains, e);
    var i: nat :| First(ds, k, i) && Shown(ds[i].row, ConformedFor(ds, k), e);
    assert ds[i] in ds;
    KeysApart(EndsOf(ds[i].row), EndsOf(d.row));
  }

  /** A model that declares a join in all four writings draws a single edge for them exactly when the columns
      determine it; otherwise two of them are drawn apart. */
  lemma FourWritingsOneEdge(reg: Registry, ds: seq<Decl>, domains: map<string, string>, out: seq<Edge>, many: Table,
                            one: Table,
                            x: seq<Relationship>, x': seq<Relationship>, y: seq<Relationship>, y': seq<Relationship>,
                            a: string, b: string)
    requires |x| == |x'| == |y| == |y'| == 2
    requires TwoSided(reg, many, one, x[0], x'[0], y[0], y'[0], a, b)
    requires TwoSided(reg, many, one, x[1], x'[1], y[1], y'[1], a, b)
    requires (x[0].fromColumn, x[0].toColumn) == (y[0].fromColumn, y[0].toColumn) == (a, b)
    requires (x[1].fromColumn, x[1].toColumn) == (y[1].fromColumn, y[1].toColumn) == (b, a)
    requires forall i | 0 <= i < 2 :: Decl(many.id, x'[i]) in ds && Decl(one.id, y'[i]) in ds
    requires AllNulFree(ds) && EdgesOf(ds, domains, out)
    ensures Determined(a, b, ColumnNames(many), ColumnNames(one))
       <==> exists e :: AllDrawnAs(out, x', y', e)
  {
    hide TwoSided, EndsOf, KeyOf, AllNulFree, EdgesOf, ColumnNames, OrientJoinKey, EdgeOf, FromMany, FromOne;
    WritingsCollapse(a, b, ColumnNames(many), ColumnNames(one));
    TwoSidedWritten(reg, many, one, x[0], x'[0], y[0], y'[0], a, b);
    TwoSidedWritten(reg, many, one, x[1], x'[1], y[1], y'[1], a, b);
    var e := DeclIsDrawn(ds, domains, out, Decl(many.id, x'[0]));
    if Determined(a, b, ColumnNames(many), ColumnNames(one)) {
      assert AllDrawnAs(out, x', y', e);
    }
    if f :| AllDrawnAs(out, x', y', f) {
      assert DrawnAs(out, x'[0], f) && DrawnAs(out, x'[1], f) && DrawnAs(out, y'[0], f) && DrawnAs(out, y'[1], f);
    }
  }

  /** The one edge with these ends. */
  ghost predicate OnlyEdge(out: seq<Edge>, ends: Ends, e: Edge) {
    EdgeEnds(e) == ends && multiset(out)[e] == 1 && forall f | f in out && EdgeEnds(f) == ends :: f == e
  }

  /** They are drawn as a single edge from the many side, which both tables are listed as declaring. */
  lemma TwoSidedCollapse(reg: Registry, tables': seq<Table>, out: seq<Edge>, many: Table, one: Table,
                         x: Relationship, x': Relationship, y: Relationship, y': Relationship, a: string, b: string)
    requires TwoSided(reg, many, one, x, x', y, y', a, b) && Determined(a, b, ColumnNames(many), ColumnNames(one))
    requires Decl(many.id, x') in Decls(tables') && Decl(one.id, y') in Decls(tables')
    requires AllNulFree(Decls(tables')) && EdgesOf(Decls(tables'), DomainOf(tables'), out)
    ensures exists e :: e in out && OnlyEdge(out, EndsOf(x'), e) && many.id in e.declaredBy && one.id in e.declaredBy
  {
    hide TwoSided, EndsOf, KeyOf, AllNulFree, Decls, DomainOf, InDomain, Wording, Less;
    TwoSidedEnds(reg, many, one, x, x', y, y', a, b);
    var ds, k := Decls(tables'), KeyOf(EndsOf(x'));
    var e := DeclIsDrawn(ds, DomainOf(tables'), out, Decl(many.id, x'));
    assert Keyed(Decl(many.id, x'), k) && Keyed(Decl(one.id, y'), k);
    assert DeclaredFor(ds, k, many.id) && DeclaredFor(ds, k, one.id);
    forall f | f in out && EdgeEnds(f) == EndsOf(x')
      ensures f == e
    {
      assert EdgeKey(f) == EdgeKey(e);
    }
  }
}
