/** Comparing two models of one project. */
module Diff {
  import opened Options
  import opened Text
  import opened DiffKeys
  import opened Pairing
  import opened PairKeys
  import opened PairTotals
  import opened Totals
  import opened Sorting
  import opened Walking
  import opened Models

  datatype Value = Words(words: string) | Flag(flag: bool)
  datatype FieldChange = FieldChange(field: string, from: Value, to: Value)

  /** One reported item: what it is, what became of it and, when it changed, how. */
  datatype Entry<I> = Entry(what: I, change: Change, fields: seq<FieldChange>)

  datatype RelationshipId = RelationshipId(fromTableId: string, toTableId: string, targetRef: string,
                                           fromColumn: string, toColumn: string)
  datatype LineageId = LineageId(tableId: string, column: string, sourceTable: string, sourceColumn: string)

  type DomainDiff = Entry<string>
  type ColumnDiff = Entry<string>
  type RelationshipDiff = Entry<RelationshipId>
  type LineageDiff = Entry<LineageId>

  datatype TableDiff = TableDiff(id: string, domainId: string, change: Change, fields: seq<FieldChange>,
                                 columns: seq<ColumnDiff>)

  datatype Summary = Summary(domains: Counts, tables: Counts, columns: Counts, relationships: Counts, lineage: Counts)

  datatype Result = Result(summary: Summary, domains: seq<DomainDiff>, tables: seq<TableDiff>,
                           relationships: seq<RelationshipDiff>, lineage: seq<LineageDiff>)

  /** A lineage row with the table it belongs to. */
  datatype TableLineage = TableLineage(tableId: string, row: ColumnLineage)

  // ---- what is compared ----

  const DOMAIN := ["title", "description"]
  const TABLE := ["kind", "grain", "updateFrequency", "layer", "description", "conformed"]
  const COLUMN := ["type", "description", "isPk", "isFk"]
  const RELATIONSHIP := ["cardinality", "resolution", "toTableId"]
  const LINEAGE := ["notes", "derived"]

  function DomainFacts(d: Domain): seq<Value> {
    [Words(d.title), Words(d.description)]
  }

  function TableOwn(t: Table): seq<Value> {
    [Words(t.kind), Words(t.grain), Words(t.updateFrequency), Words(t.layer), Words(t.description), Flag(t.conformed)]
  }

  function ColumnFacts(c: Column): seq<Value> {
    [Words(c.kind), Words(c.description), Flag(c.isPk), Flag(c.isFk)]
  }

  function RelationshipFacts(r: Relationship): seq<Value> {
    [Words(r.cardinality), Words(ResolutionName(r.resolution)), Words(r.toTableId)]
  }

  function LineageFacts(l: TableLineage): seq<Value> {
    [Words(l.row.notes), Flag(l.row.derived)]
  }

  function DomainKey(d: Domain): string { d.id }
  function TableKey(t: Table): string { t.id }
  function ColumnKey(c: Column): string { c.name }

  function JoinKey(a: string, b: string, c: string, d: string): string {
    a + "|" + b + "|" + c + "|" + d
  }

  function RelationshipKey(r: Relationship): string {
    JoinKey(r.fromTableId, r.targetRef, r.fromColumn, r.toColumn)
  }

  function LineageKey(l: TableLineage): string {
    JoinKey(l.tableId, l.row.column, l.row.sourceTable, l.row.sourceColumn)
  }

  function RelationshipOf(r: Relationship): RelationshipId {
    RelationshipId(r.fromTableId, r.toTableId, r.targetRef, r.fromColumn, r.toColumn)
  }

  function LineageOf(l: TableLineage): LineageId {
    LineageId(l.tableId, l.row.column, l.row.sourceTable, l.row.sourceColumn)
  }

  predicate SameRelationship(a: Relationship, b: Relationship) {
    a.cardinality == b.cardinality && a.resolution == b.resolution && a.toTableId == b.toTableId
  }

  predicate SameLineage(a: TableLineage, b: TableLineage) {
    a.row.notes == b.row.notes && a.row.derived == b.row.derived
  }

  /** The tests the pairing uses are equality of the facts reported. */
  lemma SameIsSameFacts(a: Relationship, b: Relationship, x: TableLineage, y: TableLineage)
    ensures SameRelationship(a, b) <==> RelationshipFacts(a) == RelationshipFacts(b)
    ensures SameLineage(x, y) <==> LineageFacts(x) == LineageFacts(y)
  {
    var p, q := RelationshipFacts(a), RelationshipFacts(b);
    assert p == q ==> p[0] == q[0] && p[1] == q[1] && p[2] == q[2];
    assert "local"[0] == 'l' && "conformed"[0] == 'c' && "unresolved"[0] == 'u' && "narrative"[0] == 'n';
    var u, v := LineageFacts(x), LineageFacts(y);
    assert u == v ==> u[0] == v[0] && u[1] == v[1];
  }

  // ---- field changes ----

  function Field(fs: seq<FieldChange>, name: string, from: Value, to: Value): seq<FieldChange> {
    if from == to then fs else fs + [FieldChange(name, from, to)]
  }

  function Differences(names: seq<string>, xs: seq<Value>, ys: seq<Value>): seq<FieldChange>
    requires |names| == |xs| == |ys|
  {
    if xs == [] then [] else
      var n := |xs| - 1;
      Field(Differences(names[..n], xs[..n], ys[..n]), names[n], xs[n], ys[n])
  }

  function Flipped(fs: seq<FieldChange>): seq<FieldChange> {
    seq(|fs|, i requires 0 <= i < |fs| => FieldChange(fs[i].field, fs[i].to, fs[i].from))
  }

  /** Nothing differs exactly when the facts are equal; seen the other way each change is turned round. */
  lemma {:induction false} DifferencesTell(names: seq<string>, xs: seq<Value>, ys: seq<Value>)
    requires |names| == |xs| == |ys|
    ensures Differences(names, xs, ys) == [] <==> xs == ys
    ensures Differences(names, ys, xs) == Flipped(Differences(names, xs, ys))
  {
    if xs != [] {
      var n := |xs| - 1;
      DifferencesTell(names[..n], xs[..n], ys[..n]);
      FlippedField(Differences(names[..n], xs[..n], ys[..n]), names[n], xs[n], ys[n]);
      assert xs == xs[..n] + [xs[n]] && ys == ys[..n] + [ys[n]];
    }
  }

  lemma FlippedField(fs: seq<FieldChange>, name: string, from: Value, to: Value)
    ensures Flipped(Field(fs, name, from, to)) == Field(Flipped(fs), name, to, from)
  {
  }

  predicate DiffersAt(names: seq<string>, xs: seq<Value>, ys: seq<Value>, c: FieldChange, i: nat)
    requires |names| == |xs| == |ys|
  {
    i < |xs| && xs[i] != ys[i] && c == FieldChange(names[i], xs[i], ys[i])
  }

  /** The changes listed are those of the facts that differ, and no others. */
  lemma {:induction false} DifferencesExact(names: seq<string>, xs: seq<Value>, ys: seq<Value>, c: FieldChange)
    requires |names| == |xs| == |ys|
    ensures c in Differences(names, xs, ys) <==> exists i: nat :: DiffersAt(names, xs, ys, c, i)
  {
    if xs != [] {
      var n := |xs| - 1;
      DifferencesExact(names[..n], xs[..n], ys[..n], c);
      var rest := Differences(names[..n], xs[..n], ys[..n]);
      if c in rest {
        var i: nat :| DiffersAt(names[..n], xs[..n], ys[..n], c, i);
        assert DiffersAt(names, xs, ys, c, i);
      } else if c in Differences(names, xs, ys) {
        assert DiffersAt(names, xs, ys, c, n);
      }
      if i: nat :| DiffersAt(names, xs, ys, c, i) {
        assert i < n ==> DiffersAt(names[..n], xs[..n], ys[..n], c, i);
      }
    }
  }

  // ---- one section ----

  function Pick<T>(s: Sides<T>): T {
    if s.OnlyFrom? then s.a else s.b
  }

  ghost predicate Fits<T(!new)>(names: seq<string>, facts: T -> seq<Value>) {
    forall t :: |facts(t)| == |names|
  }

  /** How a pair changed; nothing for an item on one side only. */
  function FieldsOf<T(!new)>(names: seq<string>, facts: T -> seq<Value>, s: Sides<T>): seq<FieldChange>
    requires Fits(names, facts)
  {
    if s.Both? then Differences(names, facts(s.a), facts(s.b)) else []
  }

  function Tell<T(!new), I>(names: seq<string>, facts: T -> seq<Value>, id: T -> I, s: Sides<T>): Option<Entry<I>>
    requires Fits(names, facts)
  {
    var fs := FieldsOf(names, facts, s);
    if s.Both? && fs == [] then None else Some(Entry(id(Pick(s)), KindOf(s), fs))
  }

  /** The entry says what this item, or pair of items, should. */
  ghost predicate EntryFor<T(!new), I>(names: seq<string>, facts: T -> seq<Value>, id: T -> I,
                                       s: Sides<T>, e: Entry<I>) {
    Fits(names, facts) && e == Entry(id(Pick(s)), KindOf(s), FieldsOf(names, facts, s))
  }

  ghost function Telling<T(!new), I>(names: seq<string>, facts: T -> seq<Value>,
                                     id: T -> I): (Sides<T>, Entry<I>) -> bool {
    (s, e) => EntryFor(names, facts, id, s, e)
  }

  ghost predicate SectionReport<T(!new), I>(from: map<string, T>, to: map<string, T>, names: seq<string>,
                                            facts: T -> seq<Value>,
                                            id: T -> I, keys: seq<string>, out: seq<Entry<I>>, counts: Counts) {
    Report(from, to, facts, Telling(names, facts, id), keys, out, counts)
  }

  function ChangeOf<I>(e: Entry<I>): Change { e.change }

  method Section<T(!new), I>(from: map<string, T>, to: map<string, T>, names: seq<string>, facts: T -> seq<Value>,
                             id: T -> I)
    returns (out: seq<Entry<I>>, counts: Counts, keys: seq<string>)
    requires Fits(names, facts)
    ensures SectionReport(from, to, names, facts, id, keys, out, counts)
  {
    var tell := (s: Sides<T>) => Tell(names, facts, id, s);
    forall s: Sides<T> | s.Both?
      ensures Differences(names, facts(s.a), facts(s.b)) == [] <==> facts(s.a) == facts(s.b)
    {
      DifferencesTell(names, facts(s.a), facts(s.b));
    }
    out, counts, keys := Walk(from, to, facts, tell, Telling(names, facts, id));
  }

  /** Compared the other way, a section lists the same keys in the same order, each entry turned round. */
  ghost predicate EntriesMirrored<I>(out: seq<Entry<I>>, out': seq<Entry<I>>) {
    |out'| == |out| && forall i | 0 <= i < |out| :: EntryMirrored(out[i], out'[i])
  }

  predicate EntryMirrored<I(==)>(e: Entry<I>, e': Entry<I>) {
    && e'.change == Reverse(e.change) && e'.fields == Flipped(e.fields)
    && (e.change != Changed ==> e'.what == e.what)
  }

  lemma SectionMirrored<T(!new), I>(from: map<string, T>, to: map<string, T>, names: seq<string>,
                                    facts: T -> seq<Value>, id: T -> I,
                                    keys: seq<string>, out: seq<Entry<I>>, counts: Counts,
                                    keys': seq<string>, out': seq<Entry<I>>, counts': Counts)
    requires SectionReport(from, to, names, facts, id, keys, out, counts)
    requires SectionReport(to, from, names, facts, id, keys', out', counts')
    ensures keys' == keys && counts' == CountsReversed(counts) && EntriesMirrored(out, out')
  {
    ReportMirrored(from, to, facts, Telling(names, facts, id), keys, out, counts, keys', out', counts');
    hide Report, At, EntryFor, EntryMirrored;
    forall i | 0 <= i < |out|
      ensures EntryMirrored(out[i], out'[i])
    {
      assert keys[i] in keys;
      EntryTurned(names, facts, id, At(from, to, keys[i]), out[i], out'[i]);
    }
  }

  lemma EntryTurned<T(!new), I>(names: seq<string>, facts: T -> seq<Value>, id: T -> I, s: Sides<T>, e: Entry<I>,
                                e': Entry<I>)
    requires EntryFor(names, facts, id, s, e) && EntryFor(names, facts, id, Turned(s), e')
    ensures EntryMirrored(e, e')
  {
    hide Differences;
    if s.Both? {
      DifferencesTell(names, facts(s.a), facts(s.b));
    }
  }

  /** A section's counts are those of its entries. */
  lemma SectionCounts<T(!new), I(!new)>(from: map<string, T>, to: map<string, T>, names: seq<string>,
                                        facts: T -> seq<Value>, id: T -> I,
                                        keys: seq<string>, out: seq<Entry<I>>, counts: Counts)
    requires SectionReport(from, to, names, facts, id, keys, out, counts)
    ensures counts == Listed(out, ChangeOf)
  {
    CountsAreListed(from, to, facts, Telling(names, facts, id), ChangeOf, keys, out, counts);
  }

  // ---- tables ----

  /** The columns of a table as compared: their facts by name. */
  function ColumnMap(cs: seq<Column>): map<string, seq<Value>> {
    var ix := Indexed(cs, ColumnKey);
    map k | k in ix :: ColumnFacts(ix[k])
  }

  function TableFacts(t: Table): (seq<Value>, map<string, seq<Value>>) {
    (TableOwn(t), ColumnMap(t.columns))
  }

  /** The columns reported for a table. */
  ghost predicate ColumnsTold(a: seq<Column>, b: seq<Column>, out: seq<ColumnDiff>, counts: Counts) {
    exists keys :: SectionReport(Indexed(a, ColumnKey), Indexed(b, ColumnKey), COLUMN, ColumnFacts, ColumnKey, keys,
                                 out, counts)
  }

  method CompareColumns(from: seq<Column>, to: seq<Column>) returns (out: seq<ColumnDiff>, counts: Counts)
    ensures ColumnsTold(from, to, out, counts)
  {
    var ixFrom := Index(from, ColumnKey);
    var ixTo := Index(to, ColumnKey);
    var keys;
    out, counts, keys := Section(ixFrom, ixTo, COLUMN, ColumnFacts, ColumnKey);
  }

  /** Columns go unreported exactly when both tables have the same ones, saying the same; then nothing is counted. */
  lemma ColumnsSilent(a: seq<Column>, b: seq<Column>, out: seq<ColumnDiff>, counts: Counts)
    requires ColumnsTold(a, b, out, counts)
    ensures out == [] <==> ColumnMap(a) == ColumnMap(b)
    ensures counts == Listed(out, ChangeOf)
  {
    hide Indexed, ColumnFacts;
    var from, to := Indexed(a, ColumnKey), Indexed(b, ColumnKey);
    var keys :| SectionReport(from, to, COLUMN, ColumnFacts, ColumnKey, keys, out, counts);
    SectionCounts(from, to, COLUMN, ColumnFacts, ColumnKey, keys, out, counts);
    Inhabited(keys);
    if ColumnMap(a) == ColumnMap(b) {
      forall k
        ensures k !in Told(from, to, ColumnFacts, true)
      {
        assert k in from <==> k in ColumnMap(a);
        assert k in to <==> k in ColumnMap(b);
        assert k in from ==> ColumnMap(a)[k] == ColumnFacts(from[k]) && ColumnMap(b)[k] == ColumnFacts(to[k]);
      }
    }
    if out == [] {
      forall k
        ensures k in ColumnMap(a) <==> k in ColumnMap(b)
        ensures k in ColumnMap(a) ==> ColumnMap(a)[k] == ColumnMap(b)[k]
      {
        assert k !in Told(from, to, ColumnFacts, true);
      }
    }
  }

  /** The entry says what this table, or pair of tables, should. */
  ghost predicate TableTold(s: Sides<Table>, d: TableDiff) {
    && d.id == Pick(s).id && d.domainId == Pick(s).domainId && d.change == KindOf(s)
    && d.fields == FieldsOf(TABLE, TableOwn, s)
    && if s.Both? then exists counts :: ColumnsTold(s.a.columns, s.b.columns, d.columns, counts) else d.columns == []
  }

  function Plus(x: Counts, y: Counts): Counts {
    Counts(x.added + y.added, x.removed + y.removed, x.changed + y.changed)
  }

  /** The columns listed under all tables. */
  function ColumnTotals(out: seq<TableDiff>): Counts {
    if out == [] then Counts(0, 0, 0) else
      var n := |out| - 1;
      Plus(ColumnTotals(out[..n]), Listed(out[n].columns, ChangeOf))
  }

  lemma ColumnTotalsSnoc(out: seq<TableDiff>, d: TableDiff)
    ensures ColumnTotals(out + [d]) == Plus(ColumnTotals(out), Listed(d.columns, ChangeOf))
  {
    assert (out + [d])[..|out|] == out;
  }

  /** One table, or pair of tables; silent when neither its own facts nor its columns differ. */
  method TellTable(s: Sides<Table>) returns (d: Option<TableDiff>, columns: Counts)
    ensures d == None <==> Alike(s, TableFacts)
    ensures d.Some? ==> TableTold(s, d.value) && columns == Listed(d.value.columns, ChangeOf)
    ensures d == None ==> columns == Counts(0, 0, 0)
  {
    hide Listed, ColumnsTold, ColumnMap;
    var t := Pick(s);
    if s.Both? {
      var fs := FieldsOf(TABLE, TableOwn, s);
      DifferencesTell(TABLE, TableOwn(s.a), TableOwn(s.b));
      var cols;
      cols, columns := CompareColumns(s.a.columns, s.b.columns);
      ColumnsSilent(s.a.columns, s.b.columns, cols, columns);
      ListedNothing();
      d := if fs == [] && cols == [] then None else Some(TableDiff(t.id, t.domainId, Changed, fs, cols));
    } else {
      ListedNothing();
      d, columns := Some(TableDiff(t.id, t.domainId, KindOf(s), [], [])), Counts(0, 0, 0);
    }
  }

  lemma ListedNothing()
    ensures Listed<ColumnDiff>([], ChangeOf) == Counts(0, 0, 0)
  {
  }

  ghost predicate TableReport(from: map<string, Table>, to: map<string, Table>, keys: seq<string>, out: seq<TableDiff>,
                              counts: Counts) {
    Report(from, to, TableFacts, TableTold, keys, out, counts)
  }

  /** The tables, and with each changed pair its columns. */
  method CompareTables(from: map<string, Table>, to: map<string, Table>)
    returns (out: seq<TableDiff>, counts: Counts, columns: Counts, keys: seq<string>)
    ensures TableReport(from, to, keys, out, counts) && columns == ColumnTotals(out)
  {
    hide *;
    out, counts, columns, keys := [], Counts(0, 0, 0), Counts(0, 0, 0), [];
    NoColumns();
    var order := SortedKeys(from.Keys + to.Keys);
    NothingSeen(from, to, TableFacts, TableTold, order);
    for n := 0 to |order|
      invariant PartlyTo(from, to, TableFacts, TableTold, order, n, keys, out, counts)
      invariant columns == ColumnTotals(out)
    {
      out, counts, columns, keys := TellNextTable(from, to, order, n, keys, out, counts, columns);
    }
    AllSeen(from, to, TableFacts, TableTold, order, keys, out, counts);
    TableReportIs(from, to, keys, out, counts);
  }

  /** Tells one table, and bumps the columns it lists. */
  method TellNextTable(from: map<string, Table>, to: map<string, Table>, order: seq<string>, n: nat,
                       keys0: seq<string>, out0: seq<TableDiff>, counts0: Counts, columns0: Counts)
    returns (out: seq<TableDiff>, counts: Counts, columns: Counts, keys: seq<string>)
    requires n < |order| && InOrderOf(order, from.Keys + to.Keys) && columns0 == ColumnTotals(out0)
    requires PartlyTo(from, to, TableFacts, TableTold, order, n, keys0, out0, counts0)
    ensures PartlyTo(from, to, TableFacts, TableTold, order, n + 1, keys, out, counts) && columns == ColumnTotals(out)
  {
    hide Partly, Seen, At, Alike, Ascending, Listed, ColumnTotals, TableTold, TableFacts, Plus;
    var side := At(from, to, order[n]);
    var d, more := TellTable(side);
    Next(from, to, TableFacts, TableTold, order, n, keys0, out0, counts0, d);
    ColumnTotalsNext(out0, d, more);
    out, counts, keys := Also(out0, d), Walking.Counted(counts0, side, d), AlsoKey(keys0, order[n], d);
    columns := Plus(columns0, more);
  }

  lemma ColumnTotalsNext(out: seq<TableDiff>, d: Option<TableDiff>, more: Counts)
    requires more == if d.Some? then Listed(d.value.columns, ChangeOf) else Counts(0, 0, 0)
    ensures ColumnTotals(Also(out, d)) == Plus(ColumnTotals(out), more)
  {
    hide Listed, ColumnTotals;
    if d.Some? {
      ColumnTotalsSnoc(out, d.value);
    }
  }

  lemma TableReportIs(from: map<string, Table>, to: map<string, Table>, keys: seq<string>, out: seq<TableDiff>,
                      counts: Counts)
    ensures TableReport(from, to, keys, out, counts) == Report(from, to, TableFacts, TableTold, keys, out, counts)
  {
  }

  lemma NoColumns()
    ensures ColumnTotals([]) == Counts(0, 0, 0)
  {
  }

  // ---- the whole comparison ----

  function Declared(tables: seq<Table>): seq<Relationship> {
    if tables == [] then [] else Declared(tables[..|tables| - 1]) + tables[|tables| - 1].relationships
  }

  function Rows(t: Table): seq<TableLineage> {
    seq(|t.columnLineage|, i requires 0 <= i < |t.columnLineage| => TableLineage(t.id, t.columnLineage[i]))
  }

  function LineageRows(tables: seq<Table>): seq<TableLineage> {
    if tables == [] then [] else LineageRows(tables[..|tables| - 1]) + Rows(tables[|tables| - 1])
  }

  method CollectRelationships(m: Model) returns (out: seq<Relationship>)
    ensures out == Declared(m.tables)
  {
    out := [];
    for i := 0 to |m.tables|
      invariant out == Declared(m.tables[..i])
    {
      assert m.tables[..i + 1][..i] == m.tables[..i];
      out := out + m.tables[i].relationships;
    }
    assert m.tables[..|m.tables|] == m.tables;
  }

  method CollectLineage(m: Model) returns (out: seq<TableLineage>)
    ensures out == LineageRows(m.tables)
  {
    out := [];
    for i := 0 to |m.tables|
      invariant out == LineageRows(m.tables[..i])
    {
      assert m.tables[..i + 1][..i] == m.tables[..i];
      var t := m.tables[i];
      for j := 0 to |t.columnLineage|
        invariant out == LineageRows(m.tables[..i]) + Rows(t)[..j]
      {
        out := out + [TableLineage(t.id, t.columnLineage[j])];
      }
    }
    assert m.tables[..|m.tables|] == m.tables;
  }

  /** How repeated declarations were keyed: both sides' names and the pairing behind them. */
  datatype Keying<T> = Keying(from: map<string, T>, to: map<string, T>, plan: map<string, Match>)

  ghost predicate KeyingFor<T(!new), K>(from: seq<T>, to: seq<T>, key: T -> string, facts: T -> K, w: Keying<T>) {
    Paired(from, to, key, facts, w.from, w.to, w.plan) && (from == to ==> Agree(w.from, w.to, facts))
  }

  /** The orders the five sections were told in, and how repeats were keyed. */
  datatype Working = Working(domains: seq<string>, tables: seq<string>, relationships: seq<string>,
                             lineage: seq<string>,
                             joins: Keying<Relationship>, rows: Keying<TableLineage>)

  /** What Compare reports. */
  ghost predicate Compared(from: Model, to: Model, r: Result, w: Working) {
    && SectionReport(Indexed(from.domains, DomainKey), Indexed(to.domains, DomainKey), DOMAIN, DomainFacts, DomainKey,
                     w.domains, r.domains, r.summary.domains)
    && TableReport(Indexed(from.tables, TableKey), Indexed(to.tables, TableKey), w.tables, r.tables, r.summary.tables)
    && r.summary.columns == ColumnTotals(r.tables)
    && KeyingFor(Declared(from.tables), Declared(to.tables), RelationshipKey, RelationshipFacts, w.joins)
    && SectionReport(w.joins.from, w.joins.to, RELATIONSHIP, RelationshipFacts, RelationshipOf,
                     w.relationships, r.relationships, r.summary.relationships)
    && KeyingFor(LineageRows(from.tables), LineageRows(to.tables), LineageKey, LineageFacts, w.rows)
    && SectionReport(w.rows.from, w.rows.to, LINEAGE, LineageFacts, LineageOf, w.lineage, r.lineage, r.summary.lineage)
  }

  /** Indexes or pairs each kind of item on both sides and tells the five sections. */
  method Compare(from: Model, to: Model) returns (r: Result)
    ensures exists w :: Compared(from, to, r, w)
  {
    hide SectionReport, TableReport, ColumnTotals, Declared, LineageRows, Indexed, Paired, Agree;
    var domainsFrom := Index(from.domains, DomainKey);
    var domainsTo := Index(to.domains, DomainKey);
    var domains, domainCounts, dk := Section(domainsFrom, domainsTo, DOMAIN, DomainFacts, DomainKey);
    var tablesFrom := Index(from.tables, TableKey);
    var tablesTo := Index(to.tables, TableKey);
    var tables, tableCounts, columnCounts, tk := CompareTables(tablesFrom, tablesTo);
    var relsFrom := CollectRelationships(from);
    var relsTo := CollectRelationships(to);
    var joinsFrom, joinsTo, joinPlan := PairIndex(relsFrom, relsTo, RelationshipKey, RelationshipFacts);
    var rels, relCounts, rk := Section(joinsFrom, joinsTo, RELATIONSHIP, RelationshipFacts, RelationshipOf);
    var linFrom := CollectLineage(from);
    var linTo := CollectLineage(to);
    var rowsFrom, rowsTo, rowPlan := PairIndex(linFrom, linTo, LineageKey, LineageFacts);
    var lin, linCounts, lk := Section(rowsFrom, rowsTo, LINEAGE, LineageFacts, LineageOf);
    r := Result(Summary(domainCounts, tableCounts, columnCounts, relCounts, linCounts), domains, tables, rels, lin);
    ghost var w := Working(dk, tk, rk, lk, Keying(joinsFrom, joinsTo, joinPlan), Keying(rowsFrom, rowsTo, rowPlan));
    assert Compared(from, to, r, w);
  }

  const NONE := Counts(0, 0, 0)

  /** A model compared with itself: nothing is listed and nothing is counted. */
  lemma CompareItself(m: Model, r: Result, w: Working)
    requires Compared(m, m, r, w)
    ensures r == Result(Summary(NONE, NONE, NONE, NONE, NONE), [], [], [], [])
  {
    hide Report, ColumnTotals, Declared, LineageRows, Indexed, Paired;
    NothingToReport(Indexed(m.domains, DomainKey), Indexed(m.domains, DomainKey), DomainFacts,
      Telling(DOMAIN, DomainFacts, DomainKey), w.domains, r.domains, r.summary.domains);
    NothingToReport(Indexed(m.tables, TableKey), Indexed(m.tables, TableKey), TableFacts, TableTold, w.tables, r.tables,
      r.summary.tables);
    NoColumns();
    NothingToReport(w.joins.from, w.joins.to, RelationshipFacts,
      Telling(RELATIONSHIP, RelationshipFacts, RelationshipOf),
      w.relationships, r.relationships, r.summary.relationships);
    NothingToReport(w.rows.from, w.rows.to, LineageFacts,
      Telling(LINEAGE, LineageFacts, LineageOf), w.lineage, r.lineage, r.summary.lineage);
  }

  function TableChange(d: TableDiff): Change { d.change }

  /** Every count of the summary is how many entries of that kind are listed. */
  lemma CompareCounts(from: Model, to: Model, r: Result, w: Working)
    requires Compared(from, to, r, w)
    ensures r.summary == Summary(Listed(r.domains, ChangeOf), Listed(r.tables, TableChange), ColumnTotals(r.tables),
                                 Listed(r.relationships, ChangeOf), Listed(r.lineage, ChangeOf))
  {
    hide SectionReport, ColumnTotals, Declared, LineageRows, Indexed, Paired, Agree, Listed, Report;
    SectionCounts(Indexed(from.domains, DomainKey), Indexed(to.domains, DomainKey), DOMAIN, DomainFacts, DomainKey,
      w.domains, r.domains, r.summary.domains);
    CountsAreListed(Indexed(from.tables, TableKey), Indexed(to.tables, TableKey), TableFacts, TableTold, TableChange,
      w.tables, r.tables, r.summary.tables);
    SectionCounts(w.joins.from, w.joins.to, RELATIONSHIP, RelationshipFacts, RelationshipOf,
      w.relationships, r.relationships, r.summary.relationships);
    SectionCounts(w.rows.from, w.rows.to, LINEAGE, LineageFacts, LineageOf, w.lineage, r.lineage, r.summary.lineage);
  }

  /** The same table seen the other way. */
  predicate TableMirrored(d: TableDiff, d': TableDiff) {
    && d'.change == Reverse(d.change) && d'.fields == Flipped(d.fields)
    && (d.change != Changed ==> d'.id == d.id && d'.domainId == d.domainId)
    && |d'.columns| == |d.columns| && forall i | 0 <= i < |d.columns| :: EntryMirrored(d.columns[i], d'.columns[i])
  }

  lemma TableToldMirrored(s: Sides<Table>, d: TableDiff, d': TableDiff)
    requires TableTold(s, d) && TableTold(Turned(s), d')
    ensures TableMirrored(d, d') && Listed(d'.columns, ChangeOf) == CountsReversed(Listed(d.columns, ChangeOf))
  {
    hide SectionReport, Differences, Listed, EntryMirrored;
    if s.Both? {
      DifferencesTell(TABLE, TableOwn(s.a), TableOwn(s.b));
      var a, b := Indexed(s.a.columns, ColumnKey), Indexed(s.b.columns, ColumnKey);
      var counts :| ColumnsTold(s.a.columns, s.b.columns, d.columns, counts);
      var counts' :| ColumnsTold(s.b.columns, s.a.columns, d'.columns, counts');
      var keys :| SectionReport(a, b, COLUMN, ColumnFacts, ColumnKey, keys, d.columns, counts);
      var keys' :| SectionReport(b, a, COLUMN, ColumnFacts, ColumnKey, keys', d'.columns, counts');
      SectionMirrored(a, b, COLUMN, ColumnFacts, ColumnKey, keys, d.columns, counts, keys', d'.columns, counts');
      SectionCounts(a, b, COLUMN, ColumnFacts, ColumnKey, keys, d.columns, counts);
      SectionCounts(b, a, COLUMN, ColumnFacts, ColumnKey, keys', d'.columns, counts');
    } else {
      ListedNothing();
    }
  }

  ghost predicate TablesMirrored(out: seq<TableDiff>, out': seq<TableDiff>) {
    && |out'| == |out|
    && forall i | 0 <= i < |out| :: (TableMirrored(out[i], out'[i])
         && Listed(out'[i].columns, ChangeOf) == CountsReversed(Listed(out[i].columns, ChangeOf)))
  }

  lemma {:induction false} ColumnTotalsMirrored(out: seq<TableDiff>, out': seq<TableDiff>)
    requires TablesMirrored(out, out')
    ensures ColumnTotals(out') == CountsReversed(ColumnTotals(out))
  {
    hide Listed, TableMirrored;
    if out != [] {
      ColumnTotalsMirrored(out[..|out| - 1], out'[..|out| - 1]);
    }
  }

  /** Swapping the arguments swaps added with removed everywhere and turns every listed domain, table and column
      round. */
  lemma CompareMirrored(from: Model, to: Model, r: Result, w: Working, r': Result, w': Working)
    requires Compared(from, to, r, w) && Compared(to, from, r', w')
    ensures EntriesMirrored(r.domains, r'.domains) && r'.summary.domains == CountsReversed(r.summary.domains)
    ensures TablesMirrored(r.tables, r'.tables) && r'.summary.tables == CountsReversed(r.summary.tables)
    ensures r'.summary.columns == CountsReversed(r.summary.columns)
    ensures r'.summary.relationships.added == r.summary.relationships.removed
         && r'.summary.relationships.removed == r.summary.relationships.added
    ensures r'.summary.lineage.added == r.summary.lineage.removed
    ensures r'.summary.lineage.removed == r.summary.lineage.added
  {
    hide Report, ColumnTotals, Declared, LineageRows, Indexed, Agree, Listed, TableMirrored, EntryMirrored, TableTold,
      Planned, Plain;
    SectionMirrored(Indexed(from.domains, DomainKey), Indexed(to.domains, DomainKey), DOMAIN, DomainFacts, DomainKey,
      w.domains, r.domains, r.summary.domains, w'.domains, r'.domains, r'.summary.domains);
    var a, b := Indexed(from.tables, TableKey), Indexed(to.tables, TableKey);
    ReportMirrored(a, b, TableFacts, TableTold, w.tables, r.tables, r.summary.tables, w'.tables, r'.tables,
      r'.summary.tables);
    forall i | 0 <= i < |r.tables|
      ensures TableMirrored(r.tables[i], r'.tables[i])
      ensures Listed(r'.tables[i].columns, ChangeOf) == CountsReversed(Listed(r.tables[i].columns, ChangeOf))
    {
      assert w.tables[i] in a.Keys + b.Keys;
      TableToldMirrored(At(a, b, w.tables[i]), r.tables[i], r'.tables[i]);
    }
    ColumnTotalsMirrored(r.tables, r'.tables);
    assert w'.joins.from.Keys == w.joins.to.Keys && w'.joins.to.Keys == w.joins.from.Keys;
    assert w'.rows.from.Keys == w.rows.to.Keys && w'.rows.to.Keys == w.rows.from.Keys;
    SectionSizes(w.joins.from, w.joins.to, RELATIONSHIP, RelationshipFacts, RelationshipOf, w.relationships,
      r.relationships, r.summary.relationships);
    SectionSizes(w'.joins.from, w'.joins.to, RELATIONSHIP, RelationshipFacts, RelationshipOf, w'.relationships,
      r'.relationships, r'.summary.relationships);
    SectionSizes(w.rows.from, w.rows.to, LINEAGE, LineageFacts, LineageOf, w.lineage, r.lineage, r.summary.lineage);
    SectionSizes(w'.rows.from, w'.rows.to, LINEAGE, LineageFacts, LineageOf, w'.lineage, r'.lineage,
      r'.summary.lineage);
  }

  lemma SectionSizes<T(!new), I>(from: map<string, T>, to: map<string, T>, names: seq<string>, facts: T -> seq<Value>,
                                 id: T -> I,
                                 keys: seq<string>, out: seq<Entry<I>>, counts: Counts)
    requires SectionReport(from, to, names, facts, id, keys, out, counts)
    ensures counts == Counts(|to.Keys - from.Keys|, |from.Keys - to.Keys|, |Told(from, to, facts, false)|)
  {
  }

  /** Changed joins and lineage rows are as many the other way too, when no key reads as a repeat of another. */
  lemma CompareMirroredRepeats(from: Model, to: Model, r: Result, w: Working, r': Result, w': Working)
    requires Compared(from, to, r, w) && Compared(to, from, r', w')
    ensures Plain(w.joins.plan.Keys) ==> r'.summary.relationships == CountsReversed(r.summary.relationships)
    ensures Plain(w.rows.plan.Keys) ==> r'.summary.lineage == CountsReversed(r.summary.lineage)
  {
    hide SectionReport, TableReport, ColumnTotals, Declared, LineageRows, Indexed, Paired, Agree, Plain;
    CompareMirrored(from, to, r, w, r', w');
    SectionSizes(w.joins.from, w.joins.to, RELATIONSHIP, RelationshipFacts, RelationshipOf, w.relationships,
      r.relationships, r.summary.relationships);
    SectionSizes(w'.joins.from, w'.joins.to, RELATIONSHIP, RelationshipFacts, RelationshipOf, w'.relationships,
      r'.relationships, r'.summary.relationships);
    SectionSizes(w.rows.from, w.rows.to, LINEAGE, LineageFacts, LineageOf, w.lineage, r.lineage, r.summary.lineage);
    SectionSizes(w'.rows.from, w'.rows.to, LINEAGE, LineageFacts, LineageOf, w'.lineage, r'.lineage,
      r'.summary.lineage);
    if Plain(w.joins.plan.Keys) {
      ChangesMirrored(Declared(from.tables), Declared(to.tables), RelationshipKey, RelationshipFacts,
        w.joins.from, w.joins.to, w.joins.plan, w'.joins.from, w'.joins.to, w'.joins.plan);
    }
    if Plain(w.rows.plan.Keys) {
      ChangesMirrored(LineageRows(from.tables), LineageRows(to.tables), LineageKey, LineageFacts,
        w.rows.from, w.rows.to, w.rows.plan, w'.rows.from, w'.rows.to, w'.rows.plan);
    }
  }

  function TotalOf(c: Counts): nat {
    c.added + c.removed + c.changed
  }

  /** A section reports exactly the keys told. */
  lemma SectionTotal<T(!new), I>(from: map<string, T>, to: map<string, T>, names: seq<string>, facts: T -> seq<Value>,
                                 id: T -> I,
                                 keys: seq<string>, out: seq<Entry<I>>, counts: Counts)
    requires SectionReport(from, to, names, facts, id, keys, out, counts)
    ensures TotalOf(counts) == |Told(from, to, facts, true)|
  {
    hide Told;
    ToldSplits(from, to, facts);
  }

  /** No way of pairing repeated joins, or repeated lineage rows, would report fewer of them. */
  lemma RepeatsReportLeast<T(!new), I>(from: seq<T>, to: seq<T>, key: T -> string, names: seq<string>,
                                       facts: T -> seq<Value>, id: T -> I,
                                       w: Keying<T>, keys: seq<string>, out: seq<Entry<I>>, counts: Counts,
                                       other: map<string, Match>)
    requires KeyingFor(from, to, key, facts, w) && SectionReport(w.from, w.to, names, facts, id, keys, out, counts)
    requires Plain(w.plan.Keys) && Pairings(from, to, key, other) && other.Keys == w.plan.Keys
    ensures TotalOf(counts) <= Total(w.plan.Keys, Costs(from, to, key, facts, other))
  {
    hide SectionReport, Paired, Agree, Plain, Told, Total, Costs;
    SectionTotal(w.from, w.to, names, facts, id, keys, out, counts);
    ReportsLeast(from, to, key, facts, w.from, w.to, w.plan, other);
  }

  /** Joins, and lineage rows, are conserved, each old one shared or removed and each new one shared or added, exactly
      when no key reads as a repeat that another really has. */
  lemma RepeatsConserved<T(!new), I>(from: seq<T>, to: seq<T>, key: T -> string, names: seq<string>,
                                     facts: T -> seq<Value>, id: T -> I,
                                     w: Keying<T>, keys: seq<string>, out: seq<Entry<I>>, counts: Counts)
    requires KeyingFor(from, to, key, facts, w) && SectionReport(w.from, w.to, names, facts, id, keys, out, counts)
    ensures |from| == |w.from.Keys * w.to.Keys| + counts.removed <==> !Clash(Keys(from, key))
    ensures |to| == |w.from.Keys * w.to.Keys| + counts.added <==> !Clash(Keys(to, key))
  {
    hide SectionReport, Paired, Agree, Clash, Keys, Told;
    SectionSizes(w.from, w.to, names, facts, id, keys, out, counts);
    PairingConserves(from, to, key, facts, w.from, w.to, w.plan);
  }

  /** Items kept under plain numbered keys are conserved on the same condition. */
  lemma IndexedConserved<T, D, K>(from: seq<T>, to: seq<T>, key: T -> string, facts: T -> K,
                                  told: (Sides<T>, D) -> bool, keys: seq<string>, out: seq<D>, counts: Counts)
    requires Report(Indexed(from, key), Indexed(to, key), facts, told, keys, out, counts)
    ensures Conserved(from, to, key, counts)
  {
    hide Indexed, Clash, Keys, Orders, Details, Told;
    var a, b := Indexed(from, key), Indexed(to, key);
    IndexIsLossless(from, key);
    IndexIsLossless(to, key);
    SplitSize(a.Keys, b.Keys);
    SplitSize(b.Keys, a.Keys);
    assert a.Keys * b.Keys == b.Keys * a.Keys;
    KeysSize(a);
    KeysSize(b);
  }

  /** So domains and tables are conserved exactly when no ID reads as a repeat that another really has. */
  lemma CompareConserves(from: Model, to: Model, r: Result, w: Working)
    requires Compared(from, to, r, w)
    ensures Conserved(from.domains, to.domains, DomainKey, r.summary.domains)
    ensures Conserved(from.tables, to.tables, TableKey, r.summary.tables)
  {
    hide Report, ColumnTotals, Declared, LineageRows, Indexed, Paired, Agree, Clash, Keys, TableTold;
    IndexedConserved(from.domains, to.domains, DomainKey, DomainFacts, Telling(DOMAIN, DomainFacts, DomainKey),
      w.domains, r.domains, r.summary.domains);
    IndexedConserved(from.tables, to.tables, TableKey, TableFacts, TableTold, w.tables, r.tables, r.summary.tables);
  }

  /** And the columns of a pair of tables exactly when no name does. */
  lemma ColumnsConserve(from: seq<Column>, to: seq<Column>, out: seq<ColumnDiff>, counts: Counts)
    requires ColumnsTold(from, to, out, counts)
    ensures Conserved(from, to, ColumnKey, counts)
  {
    hide Report, Indexed, Clash, Keys;
    var keys :| SectionReport(Indexed(from, ColumnKey), Indexed(to, ColumnKey), COLUMN, ColumnFacts, ColumnKey, keys,
                              out, counts);
    IndexedConserved(from, to, ColumnKey, ColumnFacts, Telling(COLUMN, ColumnFacts, ColumnKey), keys, out, counts);
  }

  /** Each side is what both share and what was removed, or added, exactly when none of its keys clash. */
  ghost predicate Conserved<T>(from: seq<T>, to: seq<T>, key: T -> string, counts: Counts) {
    var shared := Indexed(from, key).Keys * Indexed(to, key).Keys;
    && (|from| == |shared| + counts.removed <==> !Clash(Keys(from, key)))
    && (|to| == |shared| + counts.added <==> !Clash(Keys(to, key)))
  }

  // ---- the result is settled ----

  lemma SectionAgrees<T(!new), I>(from: map<string, T>, to: map<string, T>, names: seq<string>, facts: T -> seq<Value>,
                                  id: T -> I, keys: seq<string>, out: seq<Entry<I>>, counts: Counts,
                                  keys': seq<string>, out': seq<Entry<I>>, counts': Counts)
    requires SectionReport(from, to, names, facts, id, keys, out, counts)
    requires SectionReport(from, to, names, facts, id, keys', out', counts')
    ensures keys' == keys && out' == out && counts' == counts
  {
    hide Told, EntryFor, At;
    OneOrder(keys, keys');
    forall i | 0 <= i < |out|
      ensures out'[i] == out[i]
    {
      var told := Telling(names, facts, id);
      assert TellsAt(from, to, told, keys[i], out[i]) && TellsAt(from, to, told, keys'[i], out'[i]);
      EntrySettled(names, facts, id, At(from, to, keys[i]), out[i], out'[i]);
    }
  }

  lemma EntrySettled<T(!new), I>(names: seq<string>, facts: T -> seq<Value>, id: T -> I, s: Sides<T>,
                                 e: Entry<I>, e': Entry<I>)
    requires EntryFor(names, facts, id, s, e) && EntryFor(names, facts, id, s, e')
    ensures e' == e
  {
  }

  lemma TableSettled(s: Sides<Table>, d: TableDiff, d': TableDiff)
    requires TableTold(s, d) && TableTold(s, d')
    ensures d' == d
  {
    hide SectionReport, Differences;
    if s.Both? {
      var a, b := Indexed(s.a.columns, ColumnKey), Indexed(s.b.columns, ColumnKey);
      var counts :| ColumnsTold(s.a.columns, s.b.columns, d.columns, counts);
      var counts' :| ColumnsTold(s.a.columns, s.b.columns, d'.columns, counts');
      var keys :| SectionReport(a, b, COLUMN, ColumnFacts, ColumnKey, keys, d.columns, counts);
      var keys' :| SectionReport(a, b, COLUMN, ColumnFacts, ColumnKey, keys', d'.columns, counts');
      SectionAgrees(a, b, COLUMN, ColumnFacts, ColumnKey, keys, d.columns, counts, keys', d'.columns, counts');
    }
  }

  lemma TablesAgree(from: map<string, Table>, to: map<string, Table>, keys: seq<string>, out: seq<TableDiff>,
                    counts: Counts,
                    keys': seq<string>, out': seq<TableDiff>, counts': Counts)
    requires TableReport(from, to, keys, out, counts) && TableReport(from, to, keys', out', counts')
    ensures out' == out && counts' == counts
  {
    hide Told, TableTold, At;
    OneOrder(keys, keys');
    forall i | 0 <= i < |out|
      ensures out'[i] == out[i]
    {
      assert TellsAt(from, to, TableTold, keys[i], out[i]) && TellsAt(from, to, TableTold, keys'[i], out'[i]);
      TableSettled(At(from, to, keys[i]), out[i], out'[i]);
    }
  }

  /** Neither side's repeats are numbered into one another. */
  ghost predicate Unclashing<T>(from: seq<T>, to: seq<T>, key: T -> string) {
    !Clash(Keys(from, key)) && !Clash(Keys(to, key))
  }

  lemma KeyedAgrees<T(!new), I>(from: seq<T>, to: seq<T>, key: T -> string, names: seq<string>, facts: T -> seq<Value>,
                                id: T -> I, w: Keying<T>, keys: seq<string>, out: seq<Entry<I>>, counts: Counts,
                                w': Keying<T>, keys': seq<string>, out': seq<Entry<I>>, counts': Counts)
    requires KeyingFor(from, to, key, facts, w) && SectionReport(w.from, w.to, names, facts, id, keys, out, counts)
    requires KeyingFor(from, to, key, facts, w')
    requires SectionReport(w'.from, w'.to, names, facts, id, keys', out', counts')
    requires Unclashing(from, to, key)
    ensures out' == out && counts' == counts
  {
    hide SectionReport, Paired, Agree, Clash, Keys;
    PairedAgree(from, to, key, facts, w.from, w.to, w.plan, w'.from, w'.to, w'.plan);
    SectionAgrees(w.from, w.to, names, facts, id, keys, out, counts, keys', out', counts');
  }

  /** Two models are compared in one way, whatever order the groups of repeats come in, if no key of a join or lineage
      row reads as a repeat that another on its side really has. */
  lemma CompareSettled(from: Model, to: Model, r: Result, w: Working, r': Result, w': Working)
    requires Compared(from, to, r, w) && Compared(from, to, r', w')
    requires Unclashing(Declared(from.tables), Declared(to.tables), RelationshipKey)
    requires Unclashing(LineageRows(from.tables), LineageRows(to.tables), LineageKey)
    ensures r == r'
  {
    hide SectionReport, TableReport, ColumnTotals, Declared, LineageRows, Indexed, KeyingFor, Unclashing;
    SectionAgrees(Indexed(from.domains, DomainKey), Indexed(to.domains, DomainKey), DOMAIN, DomainFacts, DomainKey,
      w.domains, r.domains, r.summary.domains, w'.domains, r'.domains, r'.summary.domains);
    TablesAgree(Indexed(from.tables, TableKey), Indexed(to.tables, TableKey), w.tables, r.tables, r.summary.tables,
      w'.tables, r'.tables, r'.summary.tables);
    KeyedAgrees(Declared(from.tables), Declared(to.tables), RelationshipKey, RELATIONSHIP, RelationshipFacts,
      RelationshipOf, w.joins, w.relationships, r.relationships, r.summary.relationships,
      w'.joins, w'.relationships, r'.relationships, r'.summary.relationships);
    KeyedAgrees(LineageRows(from.tables), LineageRows(to.tables), LineageKey, LINEAGE, LineageFacts, LineageOf,
      w.rows, w.lineage, r.lineage, r.summary.lineage, w'.rows, w'.lineage, r'.lineage, r'.summary.lineage);
  }

  lemma KeyedMirrored<T(!new), I>(from: seq<T>, to: seq<T>, key: T -> string, names: seq<string>,
                                  facts: T -> seq<Value>, id: T -> I,
                                  w: Keying<T>, keys: seq<string>, out: seq<Entry<I>>, counts: Counts,
                                  w': Keying<T>, keys': seq<string>, out': seq<Entry<I>>, counts': Counts)
    requires KeyingFor(from, to, key, facts, w) && SectionReport(w.from, w.to, names, facts, id, keys, out, counts)
    requires KeyingFor(to, from, key, facts, w')
    requires SectionReport(w'.from, w'.to, names, facts, id, keys', out', counts')
    requires Single(from, key) && Single(to, key)
    ensures EntriesMirrored(out, out') && counts' == CountsReversed(counts)
  {
    hide SectionReport, Paired, Agree, Single, EntriesMirrored;
    SingleMirrored(from, to, key, facts, w.from, w.to, w.plan, w'.from, w'.to, w'.plan);
    SectionMirrored(w.from, w.to, names, facts, id, keys, out, counts, keys', out', counts');
  }

  /** Where no join comes up twice in a model, swapping the arguments turns every listed join round; and so with
      lineage rows. */
  lemma CompareMirroredSingles(from: Model, to: Model, r: Result, w: Working, r': Result, w': Working)
    requires Compared(from, to, r, w) && Compared(to, from, r', w')
    ensures Single(Declared(from.tables), RelationshipKey) && Single(Declared(to.tables), RelationshipKey) ==>
      EntriesMirrored(r.relationships, r'.relationships)
      && r'.summary.relationships == CountsReversed(r.summary.relationships)
    ensures Single(LineageRows(from.tables), LineageKey) && Single(LineageRows(to.tables), LineageKey) ==>
      EntriesMirrored(r.lineage, r'.lineage) && r'.summary.lineage == CountsReversed(r.summary.lineage)
  {
    hide SectionReport, TableReport, ColumnTotals, Declared, LineageRows, Indexed, KeyingFor, Single, EntriesMirrored;
    if Single(Declared(from.tables), RelationshipKey) && Single(Declared(to.tables), RelationshipKey) {
      KeyedMirrored(Declared(from.tables), Declared(to.tables), RelationshipKey, RELATIONSHIP, RelationshipFacts,
        RelationshipOf, w.joins, w.relationships, r.relationships, r.summary.relationships,
        w'.joins, w'.relationships, r'.relationships, r'.summary.relationships);
    }
    if Single(LineageRows(from.tables), LineageKey) && Single(LineageRows(to.tables), LineageKey) {
      KeyedMirrored(LineageRows(from.tables), LineageRows(to.tables), LineageKey, LINEAGE, LineageFacts, LineageOf,
        w.rows, w.lineage, r.lineage, r.summary.lineage, w'.rows, w'.lineage, r'.lineage, r'.summary.lineage);
    }
  }
}
