/** One edge for each join, whichever side declared it and however often. */
module GraphEdges {
  import opened Options
  import opened Text
  import opened Sorting
  import opened Models

  datatype Edge = Edge(from: string, to: string, fromColumn: string, toColumn: string, cardinality: string,
                       resolution: Resolution, declaredBy: seq<string>, crossDomain: bool)

  /** A bound row and the table that declares it. */
  datatype Decl = Decl(tableId: string, row: Relationship)

  datatype Ends = Ends(from: string, to: string, fromColumn: string, toColumn: string)

  predicate HasPrefix(s: string, word: string) { StartsAt(s, word, 0) }

  predicate IsOneToMany(cardinality: string) {
    var l := Lower(TrimSpace(cardinality));
    HasPrefix(l, "one-to-many") || HasPrefix(l, "one to many") || HasPrefix(l, "1:n")
  }

  /** The ends of a row's join, the side of many first. */
  function EndsOf(r: Relationship): Ends {
    if IsOneToMany(r.cardinality) then Ends(r.toTableId, r.fromTableId, r.toColumn, r.fromColumn)
    else Ends(r.fromTableId, r.toTableId, r.fromColumn, r.toColumn)
  }

  function Wording(r: Relationship): string {
    if IsOneToMany(r.cardinality) then "Many-to-one" else r.cardinality
  }

  const NUL := "\0"

  function KeyOf(e: Ends): string {
    e.from + NUL + e.to + NUL + e.fromColumn + NUL + e.toColumn
  }

  function EdgeEnds(e: Edge): Ends {
    Ends(e.from, e.to, e.fromColumn, e.toColumn)
  }

  function RowDecls(t: Table, rows: seq<Relationship>): seq<Decl> {
    if rows == [] then [] else
      var r := rows[|rows| - 1];
      if r.toTableId == "" then RowDecls(t, rows[..|rows| - 1]) else RowDecls(t, rows[..|rows| - 1]) + [Decl(t.id, r)]
  }

  function Decls(tables: seq<Table>): seq<Decl> {
    if tables == [] then [] else
      var t := tables[|tables| - 1];
      Decls(tables[..|tables| - 1]) + RowDecls(t, t.relationships)
  }

  function DomainOf(tables: seq<Table>): map<string, string> {
    if tables == [] then map[] else
      var t := tables[|tables| - 1];
      DomainOf(tables[..|tables| - 1])[t.id := t.domainId]
  }

  function InDomain(domains: map<string, string>, id: string): string {
    if id in domains then domains[id] else ""
  }

  predicate DeclIn(tables: seq<Table>, d: Decl) {
    exists t :: t in tables && Declares(t, d)
  }

  predicate Declares(t: Table, d: Decl) {
    t.id == d.tableId && d.row in t.relationships && d.row.toTableId != ""
  }

  lemma {:induction false} RowDeclsAre(t: Table, rows: seq<Relationship>, d: Decl)
    ensures d in RowDecls(t, rows) <==> d.tableId == t.id && d.row in rows && d.row.toTableId != ""
  {
    if rows != [] {
      var n := |rows| - 1;
      RowDeclsAre(t, rows[..n], d);
      assert rows == rows[..n] + [rows[n]];
    }
  }

  lemma {:induction false} DeclsAre(tables: seq<Table>, d: Decl)
    ensures d in Decls(tables) <==> DeclIn(tables, d)
  {
    if tables != [] {
      var n := |tables| - 1;
      DeclsAre(tables[..n], d);
      RowDeclsAre(tables[n], tables[n].relationships, d);
      assert tables == tables[..n] + [tables[n]];
      assert d in RowDecls(tables[n], tables[n].relationships) <==> Declares(tables[n], d);
    }
  }

  // ---- merging ----

  function NewEdge(d: Decl, domains: map<string, string>): Edge {
    var e := EndsOf(d.row);
    Edge(e.from, e.to, e.fromColumn, e.toColumn, Wording(d.row), d.row.resolution, [],
         InDomain(domains, e.from) != InDomain(domains, e.to))
  }

  function Touched(e: Edge, d: Decl): Edge {
    e.(resolution := if d.row.resolution == Conformed then Conformed else e.resolution,
       declaredBy := if d.tableId in e.declaredBy then e.declaredBy else e.declaredBy + [d.tableId])
  }

  predicate Keyed(d: Decl, k: string) {
    KeyOf(EndsOf(d.row)) == k
  }

  /** The edge of one key after some declarations. */
  function EdgeAt(ds: seq<Decl>, domains: map<string, string>, k: string): Option<Edge> {
    if ds == [] then None else
      var d, rest := ds[|ds| - 1], EdgeAt(ds[..|ds| - 1], domains, k);
      if !Keyed(d, k) then rest
      else Some(Touched(if rest.Some? then rest.value else NewEdge(d, domains), d))
  }

  ghost predicate Distinct(s: seq<string>) {
    forall i, j | 0 <= i < j < |s| :: s[i] != s[j]
  }

  /** The edges so far, and their keys in the order met. */
  ghost predicate Merged(ds: seq<Decl>, domains: map<string, string>, merged: map<string, Edge>, order: seq<string>) {
    && Distinct(order) && (forall k :: k in order <==> k in merged)
    && forall k :: (if k in merged then Some(merged[k]) else None) == EdgeAt(ds, domains, k)
  }

  lemma MergeMore(ds: seq<Decl>, domains: map<string, string>, merged: map<string, Edge>, order: seq<string>, d: Decl)
    requires Merged(ds, domains, merged, order)
    ensures var k := KeyOf(EndsOf(d.row));
      Merged(ds + [d], domains, merged[k := Touched(if k in merged then merged[k] else NewEdge(d, domains), d)],
             if k in merged then order else order + [k])
  {
    assert (ds + [d])[..|ds|] == ds;
    hide EndsOf, Touched, NewEdge, KeyOf;
  }

  /** Folds the declarations of one table into the edges so far. */
  method MergeTable(t: Table, ghost ds: seq<Decl>, domains: map<string, string>, merged0: map<string, Edge>,
                    order0: seq<string>)
    returns (merged: map<string, Edge>, order: seq<string>)
    requires Merged(ds, domains, merged0, order0)
    ensures Merged(ds + RowDecls(t, t.relationships), domains, merged, order)
  {
    hide Merged, EndsOf, Touched, NewEdge, KeyOf;
    merged, order := merged0, order0;
    var rows := t.relationships;
    assert ds + RowDecls(t, rows[..0]) == ds;
    for j := 0 to |rows|
      invariant Merged(ds + RowDecls(t, rows[..j]), domains, merged, order)
    {
      var r := rows[j];
      assert rows[..j + 1][..j] == rows[..j];
      if r.toTableId != "" {
        var d := Decl(t.id, r);
        var k := KeyOf(EndsOf(r));
        MergeMore(ds + RowDecls(t, rows[..j]), domains, merged, order, d);
        assert ds + RowDecls(t, rows[..j + 1]) == ds + RowDecls(t, rows[..j]) + [d];
        if k !in merged {
          order := order + [k];
        }
        merged := merged[k := Touched(if k in merged then merged[k] else NewEdge(d, domains), d)];
      }
    }
    assert rows[..|rows|] == rows;
  }

  method Domains(tables: seq<Table>) returns (domains: map<string, string>)
    ensures domains == DomainOf(tables)
  {
    domains := map[];
    for i := 0 to |tables|
      invariant domains == DomainOf(tables[..i])
    {
      assert tables[..i + 1][..i] == tables[..i];
      domains := domains[tables[i].id := tables[i].domainId];
    }
    assert tables[..|tables|] == tables;
  }

  // ---- what an edge says ----

  ghost predicate First(ds: seq<Decl>, k: string, i: nat) {
    i < |ds| && Keyed(ds[i], k) && forall j | 0 <= j < i :: !Keyed(ds[j], k)
  }

  ghost predicate DeclaredFor(ds: seq<Decl>, k: string, id: string) {
    exists d :: d in ds && Keyed(d, k) && d.tableId == id
  }

  ghost predicate ConformedFor(ds: seq<Decl>, k: string) {
    exists d :: d in ds && Keyed(d, k) && d.row.resolution == Conformed
  }

  /** The edge shows this row, or that it is conformed. */
  predicate Shown(r: Relationship, conformed: bool, e: Edge) {
    EdgeEnds(e) == EndsOf(r) && e.cardinality == Wording(r)
      && e.resolution == if conformed then Conformed else r.resolution
  }

  /** The edge takes its ends and wording from the first declaration and is conformed if any is; it names each table
      that declares it once. */
  ghost predicate Describes(ds: seq<Decl>, domains: map<string, string>, k: string, e: Edge) {
    && (exists i: nat :: First(ds, k, i) && Shown(ds[i].row, ConformedFor(ds, k), e))
    && e.crossDomain == (InDomain(domains, e.from) != InDomain(domains, e.to))
    && Distinct(e.declaredBy) && (forall id :: id in e.declaredBy <==> DeclaredFor(ds, k, id))
  }

  lemma {:induction false} EdgeAtDescribes(ds: seq<Decl>, domains: map<string, string>, k: string)
    ensures EdgeAt(ds, domains, k).None? ==> forall d | d in ds :: !Keyed(d, k)
    ensures EdgeAt(ds, domains, k).Some? ==> Describes(ds, domains, k, EdgeAt(ds, domains, k).value)
  {
    if ds != [] {
      var n := |ds| - 1;
      EdgeAtDescribes(ds[..n], domains, k);
      DescribesMore(ds[..n], domains, k, ds[n]);
      assert ds == ds[..n] + [ds[n]];
    }
  }

  lemma DescribesMore(ds: seq<Decl>, domains: map<string, string>, k: string, d: Decl)
    requires var before := EdgeAt(ds, domains, k);
      if before.Some? then Describes(ds, domains, k, before.value) else forall x | x in ds :: !Keyed(x, k)
    ensures var after := EdgeAt(ds + [d], domains, k);
      if after.Some? then Describes(ds + [d], domains, k, after.value) else forall x | x in ds + [d] :: !Keyed(x, k)
  {
    assert (ds + [d])[..|ds|] == ds;
    var before := EdgeAt(ds, domains, k);
    if Keyed(d, k) {
      hide EndsOf, KeyOf, Wording, InDomain, Keyed, Describes;
      if before.Some? {
        DescribesTouched(ds, domains, k, d, before.value);
      } else {
        DescribesNew(ds, domains, k, d);
      }
    } else if before.Some? {
      DescribesStill(ds, domains, k, d, before.value);
    }
  }

  lemma DescribesStill(ds: seq<Decl>, domains: map<string, string>, k: string, d: Decl, e: Edge)
    requires Describes(ds, domains, k, e) && !Keyed(d, k)
    ensures Describes(ds + [d], domains, k, e)
  {
    hide Keyed, InDomain, Shown;
    ForMore(ds, d, k);
    var i: nat :| First(ds, k, i) && Shown(ds[i].row, ConformedFor(ds, k), e);
    FirstStays(ds, d, k, i);
  }

  lemma DescribesTouched(ds: seq<Decl>, domains: map<string, string>, k: string, d: Decl, e: Edge)
    requires Describes(ds, domains, k, e) && Keyed(d, k)
    ensures Describes(ds + [d], domains, k, Touched(e, d))
  {
    hide Keyed, InDomain, EndsOf, Wording;
    ForMore(ds, d, k);
    var i: nat :| First(ds, k, i) && Shown(ds[i].row, ConformedFor(ds, k), e);
    FirstStays(ds, d, k, i);
    assert Shown((ds + [d])[i].row, ConformedFor(ds + [d], k), Touched(e, d));
  }

  lemma DescribesNew(ds: seq<Decl>, domains: map<string, string>, k: string, d: Decl)
    requires (forall x | x in ds :: !Keyed(x, k)) && Keyed(d, k)
    ensures Describes(ds + [d], domains, k, Touched(NewEdge(d, domains), d))
  {
    hide Keyed, InDomain, EndsOf, Wording;
    ForMore(ds, d, k);
    NoneFor(ds, k);
    var all := ds + [d];
    assert forall j | 0 <= j < |ds| :: all[j] == ds[j] && ds[j] in ds;
    assert First(all, k, |ds|);
    assert Shown(all[|ds|].row, ConformedFor(all, k), Touched(NewEdge(d, domains), d));
  }

  lemma FirstStays(ds: seq<Decl>, d: Decl, k: string, i: nat)
    requires First(ds, k, i)
    ensures First(ds + [d], k, i) && (ds + [d])[i] == ds[i]
  {
    hide Keyed;
  }

  lemma ForMore(ds: seq<Decl>, d: Decl, k: string)
    ensures ConformedFor(ds + [d], k) <==> ConformedFor(ds, k) || (Keyed(d, k) && d.row.resolution == Conformed)
    ensures forall id :: DeclaredFor(ds + [d], k, id) <==> DeclaredFor(ds, k, id) || (Keyed(d, k) && d.tableId == id)
  {
    hide Keyed;
    assert d in ds + [d];
    assert forall x :: x in ds + [d] <==> x in ds || x == d;
  }

  lemma NoneFor(ds: seq<Decl>, k: string)
    requires forall x | x in ds :: !Keyed(x, k)
    ensures !ConformedFor(ds, k) && forall id :: !DeclaredFor(ds, k, id)
  {
  }

  // ---- the edges of a model ----

  function EdgeKey(e: Edge): string {
    KeyOf(EdgeEnds(e))
  }

  /** By from, then to, then from-column. */
  predicate Before(a: Edge, b: Edge) {
    if a.from != b.from then Less(a.from, b.from)
    else if a.to != b.to then Less(a.to, b.to)
    else Less(a.fromColumn, b.fromColumn)
  }

  lemma BeforeRanks()
    ensures Ranks(Before)
  {
    hide Less;
    forall a, b | Before(a, b)
      ensures !Before(b, a)
    {
      LessTrichotomy(a.from, b.from);
      LessTrichotomy(a.to, b.to);
      LessTrichotomy(a.fromColumn, b.fromColumn);
    }
    forall a, b, c | !Before(a, b) && !Before(b, c)
      ensures !Before(a, c)
    {
      NotBefore(a, b, c);
    }
  }

  lemma NotLess(x: string, y: string, z: string)
    requires !Less(x, y) && !Less(y, z)
    ensures !Less(x, z) && (x == z ==> x == y)
  {
    LessRanks();
    LessTrichotomy(x, y);
    LessTrichotomy(y, z);
    hide Less;
    assert Ranks(Less);
  }

  lemma NotBefore(a: Edge, b: Edge, c: Edge)
    requires !Before(a, b) && !Before(b, c)
    ensures !Before(a, c)
  {
    hide Less;
    LessTrichotomy(a.from, b.from);
    LessTrichotomy(b.from, c.from);
    NotLess(a.from, b.from, c.from);
    if a.from == c.from {
      LessTrichotomy(a.to, b.to);
      LessTrichotomy(b.to, c.to);
      NotLess(a.to, b.to, c.to);
      if a.to == c.to {
        NotLess(a.fromColumn, b.fromColumn, c.fromColumn);
      }
    }
  }

  /** No key twice. */
  ghost predicate OneEach(out: seq<Edge>) {
    && (forall e | e in out :: multiset(out)[e] == 1)
    && forall e, f | e in out && f in out && EdgeKey(e) == EdgeKey(f) :: e == f
  }

  ghost predicate KeyDeclared(ds: seq<Decl>, k: string) {
    exists d :: d in ds && Keyed(d, k)
  }

  ghost predicate KeyShown(out: seq<Edge>, k: string) {
    exists e :: e in out && EdgeKey(e) == k
  }

  ghost predicate EdgeOf(ds: seq<Decl>, domains: map<string, string>, e: Edge) {
    Describes(ds, domains, EdgeKey(e), e) && Ascending(e.declaredBy)
  }

  /** One edge for each key declared, in order. */
  ghost predicate EdgesOf(ds: seq<Decl>, domains: map<string, string>, out: seq<Edge>) {
    && OneEach(out) && (forall k :: KeyShown(out, k) <==> KeyDeclared(ds, k))
    && (forall e | e in out :: EdgeOf(ds, domains, e)) && Sorted(out, Before)
  }

  lemma SortedDeclarers(ds: seq<Decl>, domains: map<string, string>, k: string, e: Edge, ids: seq<string>)
    requires Describes(ds, domains, k, e) && Sorted(ids, Less) && multiset(ids) == multiset(e.declaredBy)
    ensures EdgeKey(e.(declaredBy := ids)) == k && EdgeOf(ds, domains, e.(declaredBy := ids))
  {
    hide Less, KeyOf, EndsOf, Wording, InDomain;
    SameOnce(e.declaredBy, ids);
    SortedIsAscending(ids);
    forall id
      ensures id in ids <==> id in e.declaredBy
    {
      assert id in ids <==> id in multiset(ids);
    }
    var i: nat :| First(ds, k, i) && Shown(ds[i].row, ConformedFor(ds, k), e);
    var f := e.(declaredBy := ids);
    assert First(ds, k, i) && Shown(ds[i].row, ConformedFor(ds, k), f);
  }

  lemma SameOnce(x: seq<string>, y: seq<string>)
    requires Distinct(x) && multiset(x) == multiset(y)
    ensures Distinct(y)
  {
    forall i, j | 0 <= i < j < |y|
      ensures y[i] != y[j]
    {
      Once(x, y[i]);
      assert y == y[..i] + [y[i]] + y[i + 1..j] + [y[j]] + y[j + 1..];
      assert multiset(y)[y[i]] <= 1;
    }
  }

  lemma {:induction false} Once(x: seq<string>, k: string)
    requires Distinct(x)
    ensures multiset(x)[k] <= 1
  {
    if x != [] {
      Once(x[..|x| - 1], k);
      assert x == x[..|x| - 1] + [x[|x| - 1]];
      assert x[|x| - 1] !in x[..|x| - 1];
    }
  }

  /** The edges of the first keys of the order. */
  ghost predicate Emitted(ds: seq<Decl>, domains: map<string, string>, order: seq<string>, n: nat, out: seq<Edge>)
    requires n <= |order|
  {
    && OneEach(out) && (forall k :: KeyShown(out, k) <==> k in order[..n])
    && forall e | e in out :: EdgeOf(ds, domains, e)
  }

  lemma EmitMore(ds: seq<Decl>, domains: map<string, string>, order: seq<string>, n: nat, out: seq<Edge>, e: Edge)
    requires n < |order| && Distinct(order) && Emitted(ds, domains, order, n, out)
    requires EdgeKey(e) == order[n] && EdgeOf(ds, domains, e)
    ensures Emitted(ds, domains, order, n + 1, out + [e])
  {
    hide EdgeKey, EdgeOf;
    assert order[..n + 1] == order[..n] + [order[n]];
    assert !KeyShown(out, order[n]);
    assert e !in out;
    forall k
      ensures KeyShown(out + [e], k) <==> k in order[..n + 1]
    {
      assert KeyShown(out + [e], k) <==> KeyShown(out, k) || k == order[n] by {
        assert e in out + [e];
        assert forall f :: f in out ==> f in out + [e];
      }
    }
  }

  /** Folds the bound rows of every table into edges, then orders edges and declaring tables. */
  method Edges(tables: seq<Table>) returns (out: seq<Edge>)
    ensures EdgesOf(Decls(tables), DomainOf(tables), out)
  {
    hide Merged, Describes, EdgeKey, EdgeOf, Emitted, Less, EdgesOf, RowDecls, EdgeAt;
    var domains := Domains(tables);
    var merged: map<string, Edge>, order: seq<string> := map[], [];
    NothingMerged(domains);
    for i := 0 to |tables|
      invariant Merged(Decls(tables[..i]), domains, merged, order)
    {
      assert tables[..i + 1][..i] == tables[..i];
      merged, order := MergeTable(tables[i], Decls(tables[..i]), domains, merged, order);
    }
    assert tables[..|tables|] == tables;
    ghost var ds := Decls(tables);
    out := [];
    NothingEmitted(ds, domains, order);
    for n := 0 to |order|
      invariant Emitted(ds, domains, order, n, out)
    {
      MergedDescribes(ds, domains, merged, order, order[n]);
      var e := merged[order[n]];
      var ids := SortStrings(e.declaredBy);
      SortedDeclarers(ds, domains, order[n], e, ids);
      EmitMore(ds, domains, order, n, out, e.(declaredBy := ids));
      out := out + [e.(declaredBy := ids)];
    }
    BeforeRanks();
    ghost var unsorted := out;
    out := SortBy(out, Before);
    EmittedAll(ds, domains, merged, order, unsorted, out);
  }

  lemma NothingMerged(domains: map<string, string>)
    ensures Merged([], domains, map[], []) && Decls([]) == []
  {
  }

  lemma NothingEmitted(ds: seq<Decl>, domains: map<string, string>, order: seq<string>)
    ensures Emitted(ds, domains, order, 0, [])
  {
  }

  lemma MergedDescribes(ds: seq<Decl>, domains: map<string, string>, merged: map<string, Edge>, order: seq<string>,
                        k: string)
    requires Merged(ds, domains, merged, order)
    ensures Distinct(order) && (k in order <==> k in merged) && (k in merged <==> KeyDeclared(ds, k))
    ensures k in merged ==> Describes(ds, domains, k, merged[k])
  {
    hide Keyed, EdgeAt;
    EdgeAtDescribes(ds, domains, k);
    if k in merged {
      var i: nat :| First(ds, k, i);
      assert ds[i] in ds;
    }
  }

  lemma EmittedAll(ds: seq<Decl>, domains: map<string, string>, merged: map<string, Edge>, order: seq<string>,
                   unsorted: seq<Edge>, out: seq<Edge>)
    requires Merged(ds, domains, merged, order) && Emitted(ds, domains, order, |order|, unsorted)
    requires Sorted(out, Before) && multiset(out) == multiset(unsorted)
    ensures EdgesOf(ds, domains, out)
  {
    hide Merged, EdgeKey, EdgeOf, Before;
    assert order[..|order|] == order;
    forall e
      ensures e in out <==> e in unsorted
    {
      assert e in out <==> e in multiset(out);
    }
    forall k
      ensures KeyShown(out, k) <==> KeyDeclared(ds, k)
    {
      MergedDescribes(ds, domains, merged, order, k);
      assert KeyShown(unsorted, k) <==> k in order;
      assert KeyShown(out, k) <==> KeyShown(unsorted, k);
    }
  }

  /** Edges are in order of their from table, then their to table, then their from column. */
  lemma EdgesInOrder(ds: seq<Decl>, domains: map<string, string>, out: seq<Edge>, i: nat, j: nat)
    requires EdgesOf(ds, domains, out) && i < j < |out|
    ensures !Less(out[j].from, out[i].from)
    ensures out[i].from == out[j].from ==> !Less(out[j].to, out[i].to)
    ensures out[i].from == out[j].from && out[i].to == out[j].to ==> !Less(out[j].fromColumn, out[i].fromColumn)
  {
    hide Less;
    LessTrichotomy(out[j].from, out[i].from);
    LessTrichotomy(out[j].to, out[i].to);
    assert !Before(out[j], out[i]);
  }

  /** A row worded from one to many, in any of the ways it is written, is drawn the other way round and worded from
      many to one; a row worded from many to one stays as it is. */
  lemma DirectionByWording(r: Relationship)
    ensures r.cardinality in {"One-to-many", "one to many", "1:n", "1:N", " ONE-TO-MANY (optional)"} ==>
      EndsOf(r) == Ends(r.toTableId, r.fromTableId, r.toColumn, r.fromColumn) && Wording(r) == "Many-to-one"
    ensures r.cardinality in {"Many-to-one", "many to one", "n:1", "One-to-one", ""} ==>
      EndsOf(r) == Ends(r.fromTableId, r.toTableId, r.fromColumn, r.toColumn) && Wording(r) == r.cardinality
  {
    hide IsOneToMany;
    OneToManyWordings();
    OtherWordings();
  }

  lemma OneToManyWordings()
    ensures IsOneToMany("One-to-many") && IsOneToMany("one to many") && IsOneToMany("1:n") && IsOneToMany("1:N")
    ensures IsOneToMany(" ONE-TO-MANY (optional)")
  {
    hide *;
    OneToManyHyphens();
    OneToManyBlanks();
    OneToManyFigures();
    OneToManyCapitals();
  }

  lemma OneToManyHyphens()
    ensures IsOneToMany("One-to-many")
  {
    hide IsOneToMany, TrimSpace;
    Reversed("One-to-many", "one-to-many", "");
  }

  lemma OneToManyBlanks()
    ensures IsOneToMany("one to many")
  {
    hide IsOneToMany, TrimSpace;
    Reversed("one to many", "one to many", "");
  }

  lemma OneToManyFigures()
    ensures IsOneToMany("1:n") && IsOneToMany("1:N")
  {
    hide IsOneToMany, TrimSpace;
    Reversed("1:n", "1:n", "");
    Reversed("1:N", "1:n", "");
  }

  lemma OneToManyCapitals()
    ensures IsOneToMany(" ONE-TO-MANY (optional)")
  {
    hide IsOneToMany, TrimSpace;
    Reversed("ONE-TO-MANY (optional)", "one-to-many", " (optional)");
    LedBySpace("ONE-TO-MANY (optional)");
    assert " " + "ONE-TO-MANY (optional)" == " ONE-TO-MANY (optional)";
  }

  lemma LedBySpace(c: string)
    ensures IsOneToMany(" " + c) == IsOneToMany(c)
  {
    assert (" " + c)[1..] == c;
  }

  lemma OtherWordings()
    ensures !IsOneToMany("Many-to-one") && !IsOneToMany("many to one") && !IsOneToMany("n:1")
    ensures !IsOneToMany("One-to-one") && !IsOneToMany("")
  {
    hide IsOneToMany;
    Straight("Many-to-one");
    Straight("many to one");
    Straight("n:1");
    Straight("One-to-one");
    Straight("");
  }

  lemma Reversed(c: string, word: string, rest: string)
    requires Trimmed(c) && |c| == |word| + |rest| && word in {"one-to-many", "one to many", "1:n"}
    requires forall i | 0 <= i < |c| :: LowerChar(c[i]) == (word + rest)[i]
    ensures IsOneToMany(c)
  {
    TrimmedIsFixed(c);
    assert Lower(c) == word + rest;
    assert (word + rest)[0..|word|] == word;
  }

  lemma Straight(c: string)
    requires Trimmed(c)
    requires c == "" || LowerChar(c[0]) !in {'o', '1'} || (c[0] != '1' && |c| > 7 && LowerChar(c[7]) != 'm')
    ensures !IsOneToMany(c)
  {
    TrimmedIsFixed(c);
    var l := Lower(c);
    forall word | word in {"one-to-many", "one to many", "1:n"} && HasPrefix(l, word)
      ensures l[0] == word[0] && (word != "1:n" ==> l[7] == word[7])
    {
      assert l[0] == l[0..|word|][0] && (word != "1:n" ==> l[7] == l[0..|word|][7]);
    }
  }
}
