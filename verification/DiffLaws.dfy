/** What a comparison lists, over the fields of what it compares: which two items are one item, when it is listed, and
    what its entry says. */
module DiffLaws {
  import opened Options
  import opened Text
  import opened Totals
  import opened DiffKeys
  import opened Pairing
  import opened PairKeys
  import opened PairTotals
  import opened Walking
  import opened Models
  import opened Diff

  // ---- keys that come up once ----

  /** The map holds each item under its key, and nothing else. */
  ghost predicate ByKey<T(!new)>(items: seq<T>, key: T -> string, out: map<string, T>) {
    && (forall t | t in items :: key(t) in out && out[key(t)] == t)
    && (forall k | k in out :: out[k] in items && key(out[k]) == k)
  }

  lemma {:induction false} SingleByKey<T(!new)>(items: seq<T>, key: T -> string, n: nat)
    requires Single(items, key) && n <= |items|
    ensures ByKey(items[..n], key, Indexed(items[..n], key))
  {
    hide Indexed;
    var keys := Keys(items, key);
    if n == 0 {
      IndexedNothing(items[..0], key);
    } else {
      SingleByKey(items, key, n - 1);
      IndexedSnoc(items, key, n - 1);
      assert Name(keys, n - 1) == keys[n - 1] by {
        SingleCount(items, key, keys[n - 1]);
        CountAt(keys, n - 1);
        CountGrows(keys, keys[n - 1], n);
      }
      assert items[..n] == items[..n - 1] + [items[n - 1]];
    }
  }

  lemma IndexedByKey<T(!new)>(items: seq<T>, key: T -> string)
    requires Single(items, key)
    ensures ByKey(items, key, Indexed(items, key))
  {
    hide *;
    SingleByKey(items, key, |items|);
    assert items[..|items|] == items;
  }

  lemma {:induction false} InGroup<T>(items: seq<T>, key: T -> string, t: T)
    requires t in items
    ensures t in Group(items, key, key(t))
  {
    var n := |items| - 1;
    assert items == items[..n] + [items[n]];
    if t in items[..n] {
      InGroup(items[..n], key, t);
    }
  }

  lemma {:induction false} OfGroup<T>(items: seq<T>, key: T -> string, b: string)
    ensures forall t | t in Group(items, key, b) :: t in items && key(t) == b
  {
    if items != [] {
      OfGroup(items[..|items| - 1], key, b);
    }
  }

  /** Each side filed in groups of one is filed by key. */
  lemma FiledByKey<T(!new)>(items: seq<T>, key: T -> string, bases: set<string>, out: map<string, T>)
    requires Single(items, key) && KeySet(items, key) <= bases && out.Keys == Indexed(items, key).Keys
    requires forall b | b in bases :: FiledAs(out, b, Group(items, key, b))
    ensures ByKey(items, key, out)
  {
    hide Indexed, Group, Single;
    IndexedByKey(items, key);
    SingleNeverClashes(items, key);
    forall t | t in items
      ensures key(t) in out && out[key(t)] == t
    {
      InGroup(items, key, t);
      assert Keys(items, key) != [] && key(t) in KeySet(items, key) by {
        var i: nat :| i < |items| && items[i] == t;
        assert Keys(items, key)[i] == key(t);
      }
      assert Nth(key(t), 0) == key(t);
      assert |Group(items, key, key(t))| == 1 && Group(items, key, key(t))[0] == t;
    }
    forall k | k in out
      ensures out[k] in items && key(out[k]) == k
    {
      var t := Indexed(items, key)[k];
      assert t in items && key(t) == k;
    }
  }

  lemma PairedByKey<T(!new), K>(from: seq<T>, to: seq<T>, key: T -> string, facts: T -> K,
                                outFrom: map<string, T>, outTo: map<string, T>, plan: map<string, Match>)
    requires Paired(from, to, key, facts, outFrom, outTo, plan) && Single(from, key) && Single(to, key)
    ensures ByKey(from, key, outFrom) && ByKey(to, key, outTo)
  {
    hide Group, Indexed, FiledAs, LaidFrom, LaidTo, Clash, Best, ByPosition, KeySet, Single;
    SingleNeverClashes(from, key);
    SingleNeverClashes(to, key);
    forall b | b in plan
      ensures FiledAs(outFrom, b, Group(from, key, b)) && FiledAs(outTo, b, Group(to, key, b))
    {
      BestShape(Group(from, key, b), Group(to, key, b), facts, plan[b]);
      LaidFromSingle(Group(from, key, b), plan[b]);
      LaidToSingle(Group(to, key, b), plan[b]);
      assert FiledFrom(from, key, outFrom, b, plan[b]) && FiledTo(to, key, outTo, b, plan[b]);
    }
    FiledByKey(from, key, plan.Keys, outFrom);
    FiledByKey(to, key, plan.Keys, outTo);
  }

  // ---- what is told of one item ----

  /** The item is on one side only, or on both under one key. */
  ghost predicate Stands<T>(from: seq<T>, to: seq<T>, key: T -> string, s: Sides<T>) {
    match s
    case OnlyFrom(a) => a in from && forall b | b in to :: key(b) != key(a)
    case OnlyTo(b) => b in to && forall a | a in from :: key(a) != key(b)
    case Both(a, b) => a in from && b in to && key(a) == key(b)
  }

  lemma StandsAt<T(!new)>(from: seq<T>, to: seq<T>, key: T -> string, x: map<string, T>, y: map<string, T>, k: string)
    requires ByKey(from, key, x) && ByKey(to, key, y) && k in x.Keys + y.Keys
    ensures Stands(from, to, key, At(x, y, k)) && key(Pick(At(x, y, k))) == k
  {
  }

  lemma AtStands<T(!new)>(from: seq<T>, to: seq<T>, key: T -> string, x: map<string, T>, y: map<string, T>, s: Sides<T>)
    requires ByKey(from, key, x) && ByKey(to, key, y) && Stands(from, to, key, s)
    ensures key(Pick(s)) in x.Keys + y.Keys && At(x, y, key(Pick(s))) == s
  {
  }

  /** same picks out, among what is listed, what is told of the item t. */
  ghost predicate PicksOut<T(!new), D(!new)>(from: seq<T>, to: seq<T>, key: T -> string, told: (Sides<T>, D) -> bool,
                                             out: seq<D>, same: D -> bool, t: T) {
    forall x, d | Stands(from, to, key, x) && told(x, d) && d in out :: (same(d) <==> key(Pick(x)) == key(t))
  }

  /** An item is listed exactly when it is on one side only or its facts differ, and then as it should be. */
  lemma ItemTold<T(!new), D(!new), K>(from: seq<T>, to: seq<T>, key: T -> string, x: map<string, T>, y: map<string, T>,
                                      facts: T -> K, told: (Sides<T>, D) -> bool, keys: seq<string>, out: seq<D>,
                                      counts: Counts, same: D -> bool, s: Sides<T>)
    requires ByKey(from, key, x) && ByKey(to, key, y) && Report(x, y, facts, told, keys, out, counts)
    requires Stands(from, to, key, s) && PicksOut(from, to, key, told, out, same, Pick(s))
    ensures (exists d :: d in out && same(d)) <==> !Alike(s, facts)
    ensures forall d | d in out && same(d) :: told(s, d)
  {
    hide ByKey, Stands, At, Alike, Ascending, Told;
    var k := key(Pick(s));
    AtStands(from, to, key, x, y, s);
    ToldHere(x, y, facts, k);
    forall i | 0 <= i < |out|
      ensures same(out[i]) <==> keys[i] == k
      ensures same(out[i]) ==> told(s, out[i])
    {
      assert TellsAt(x, y, told, keys[i], out[i]);
      StandsAt(from, to, key, x, y, keys[i]);
    }
    if !Alike(s, facts) {
      var i: nat :| i < |keys| && keys[i] == k;
      assert out[i] in out && same(out[i]);
    }
    forall d | d in out && same(d)
      ensures told(s, d) && !Alike(s, facts)
    {
      var i: nat :| i < |out| && out[i] == d;
      assert keys[i] in keys;
    }
  }

  /** Everything listed is told of an item that stands somewhere. */
  lemma EverythingStands<T(!new), D, K>(from: seq<T>, to: seq<T>, key: T -> string, x: map<string, T>,
                                        y: map<string, T>, facts: T -> K, told: (Sides<T>, D) -> bool,
                                        keys: seq<string>, out: seq<D>, counts: Counts, d: D)
    returns (s: Sides<T>)
    requires ByKey(from, key, x) && ByKey(to, key, y) && Report(x, y, facts, told, keys, out, counts) && d in out
    ensures Stands(from, to, key, s) && told(s, d)
  {
    hide ByKey, Stands, At, Told, Ascending;
    var i: nat :| i < |out| && out[i] == d;
    assert TellsAt(x, y, told, keys[i], out[i]);
    s := At(x, y, keys[i]);
    StandsAt(from, to, key, x, y, keys[i]);
  }

  /** What is listed is listed in the order of its keys, one entry a key. */
  lemma ListedInOrder<T(!new), D(!new), K>(from: seq<T>, to: seq<T>, key: T -> string, x: map<string, T>,
                                           y: map<string, T>, facts: T -> K, told: (Sides<T>, D) -> bool,
                                           keys: seq<string>, out: seq<D>, counts: Counts, name: D -> string)
    requires ByKey(from, key, x) && ByKey(to, key, y) && Report(x, y, facts, told, keys, out, counts)
    requires forall s, d | Stands(from, to, key, s) && told(s, d) :: name(d) == key(Pick(s))
    ensures forall i, j | 0 <= i < j < |out| :: Less(name(out[i]), name(out[j]))
  {
    hide ByKey, Stands, At, Told, Less;
    forall i | 0 <= i < |out|
      ensures name(out[i]) == keys[i]
    {
      assert TellsAt(x, y, told, keys[i], out[i]);
      StandsAt(from, to, key, x, y, keys[i]);
    }
  }

  // ---- changed fields ----

  /** One fact as a change, if it did change. */
  function Where(field: string, from: Value, to: Value): seq<FieldChange> {
    if from == to then [] else [FieldChange(field, from, to)]
  }

  lemma DifferencesSnoc(names: seq<string>, xs: seq<Value>, ys: seq<Value>, name: string, x: Value, y: Value)
    requires |names| == |xs| == |ys|
    ensures Differences(names + [name], xs + [x], ys + [y]) == Differences(names, xs, ys) + Where(name, x, y)
  {
    var n := |xs|;
    assert (names + [name])[..n] == names && (xs + [x])[..n] == xs && (ys + [y])[..n] == ys;
  }

  lemma TwoFields(names: seq<string>, xs: seq<Value>, ys: seq<Value>)
    requires |names| == |xs| == |ys| >= 2
    ensures Differences(names[..2], xs[..2], ys[..2])
         == Where(names[0], xs[0], ys[0]) + Where(names[1], xs[1], ys[1])
  {
    hide Differences;
    assert Differences([], [], []) == [] by { DifferencesTell([], [], []); }
    DifferencesSnoc([], [], [], names[0], xs[0], ys[0]);
    assert [] + [names[0]] == [names[0]] && [] + [xs[0]] == [xs[0]] && [] + [ys[0]] == [ys[0]];
    assert [] + Where(names[0], xs[0], ys[0]) == Where(names[0], xs[0], ys[0]);
    DifferencesSnoc([names[0]], [xs[0]], [ys[0]], names[1], xs[1], ys[1]);
    assert names[..2] == [names[0]] + [names[1]] && xs[..2] == [xs[0]] + [xs[1]] && ys[..2] == [ys[0]] + [ys[1]];
  }

  lemma NextField(names: seq<string>, xs: seq<Value>, ys: seq<Value>, n: nat)
    requires |names| == |xs| == |ys| > n
    ensures Differences(names[..n + 1], xs[..n + 1], ys[..n + 1])
         == Differences(names[..n], xs[..n], ys[..n]) + Where(names[n], xs[n], ys[n])
  {
    DifferencesSnoc(names[..n], xs[..n], ys[..n], names[n], xs[n], ys[n]);
    assert names[..n + 1] == names[..n] + [names[n]];
    assert xs[..n + 1] == xs[..n] + [xs[n]] && ys[..n + 1] == ys[..n] + [ys[n]];
  }

  // ---- joins ----

  /** The same join: between the same two columns, from the same table, to what is referred to in the same way. */
  predicate SameJoin(a: Relationship, b: Relationship) {
    a.fromTableId == b.fromTableId && a.targetRef == b.targetRef && a.fromColumn == b.fromColumn
    && a.toColumn == b.toColumn
  }

  /** Each join comes up once, and none has a bar in what it is told apart by. */
  ghost predicate JoinsOnce(rs: seq<Relationship>) {
    && (forall i, j | 0 <= i < j < |rs| :: !SameJoin(rs[i], rs[j]))
    && (forall r | r in rs :: '|' !in r.fromTableId && '|' !in r.targetRef && '|' !in r.fromColumn)
  }

  ghost predicate JoinStands(from: seq<Relationship>, to: seq<Relationship>, s: Sides<Relationship>) {
    match s
    case OnlyFrom(a) => a in from && forall b | b in to :: !SameJoin(a, b)
    case OnlyTo(b) => b in to && forall a | a in from :: !SameJoin(a, b)
    case Both(a, b) => a in from && b in to && SameJoin(a, b)
  }

  /** The entry is about this join. */
  predicate OfJoin(e: RelationshipDiff, r: Relationship) {
    e.what.fromTableId == r.fromTableId && e.what.targetRef == r.targetRef && e.what.fromColumn == r.fromColumn
    && e.what.toColumn == r.toColumn
  }

  lemma KeysOfParts(a: string, b: string, c: string, d: string, a': string, b': string, c': string, d': string)
    requires '|' !in a && '|' !in b && '|' !in c && '|' !in a' && '|' !in b' && '|' !in c'
    ensures JoinKey(a, b, c, d) == JoinKey(a', b', c', d') <==> a == a' && b == b' && c == c' && d == d'
  {
    if JoinKey(a, b, c, d) == JoinKey(a', b', c', d') {
      var x, y := b + ['|'] + (c + ['|'] + d), b' + ['|'] + (c' + ['|'] + d');
      assert JoinKey(a, b, c, d) == a + ['|'] + x && JoinKey(a', b', c', d') == a' + ['|'] + y;
      SeparatorSplits('|', a, x, a', y);
      SeparatorSplits('|', b, c + ['|'] + d, b', c' + ['|'] + d');
      SeparatorSplits('|', c, d, c', d');
    }
  }

  lemma JoinKeys(rs: seq<Relationship>, ss: seq<Relationship>)
    requires JoinsOnce(rs) && JoinsOnce(ss)
    ensures Single(rs, RelationshipKey)
    ensures forall a, b | (a in rs || a in ss) && (b in rs || b in ss) ::
      (RelationshipKey(a) == RelationshipKey(b) <==> SameJoin(a, b))
  {
    forall a, b | (a in rs || a in ss) && (b in rs || b in ss)
      ensures RelationshipKey(a) == RelationshipKey(b) <==> SameJoin(a, b)
    {
      KeysOfParts(a.fromTableId, a.targetRef, a.fromColumn, a.toColumn,
        b.fromTableId, b.targetRef, b.fromColumn, b.toColumn);
    }
  }

  lemma JoinFields(a: Relationship, b: Relationship)
    ensures Differences(RELATIONSHIP, RelationshipFacts(a), RelationshipFacts(b))
         == Where("cardinality", Words(a.cardinality), Words(b.cardinality))
            + Where("resolution", Words(ResolutionName(a.resolution)), Words(ResolutionName(b.resolution)))
            + Where("toTableId", Words(a.toTableId), Words(b.toTableId))
  {
    hide Differences, Where;
    var xs, ys := RelationshipFacts(a), RelationshipFacts(b);
    TwoFields(RELATIONSHIP, xs, ys);
    NextField(RELATIONSHIP, xs, ys, 2);
    assert RELATIONSHIP[..3] == RELATIONSHIP && xs[..3] == xs && ys[..3] == ys;
  }

  /** A join is listed exactly when it is on one side only or its cardinality, resolution or target table differ. On
      both sides it is changed, never added or removed, even when what it resolves to is another table; the entry
      carries the new target and exactly the fields that differ. */
  lemma JoinsByFields(from: Model, to: Model, r: Diff.Result, w: Working, s: Sides<Relationship>)
    requires Compared(from, to, r, w) && JoinsOnce(Declared(from.tables)) && JoinsOnce(Declared(to.tables))
    requires JoinStands(Declared(from.tables), Declared(to.tables), s)
    ensures (exists e :: e in r.relationships && OfJoin(e, Pick(s))) <==>
      (s.Both? ==> s.a.cardinality != s.b.cardinality || s.a.resolution != s.b.resolution
                   || s.a.toTableId != s.b.toTableId)
    ensures forall e | e in r.relationships && OfJoin(e, Pick(s)) ::
      match s
      case OnlyFrom(a) => e.change == Removed && e.what.toTableId == a.toTableId && e.fields == []
      case OnlyTo(b) => e.change == Added && e.what.toTableId == b.toTableId && e.fields == []
      case Both(a, b) =>
        && e.change == Changed && e.what.toTableId == b.toTableId
        && e.fields == Where("cardinality", Words(a.cardinality), Words(b.cardinality))
             + Where("resolution", Words(ResolutionName(a.resolution)), Words(ResolutionName(b.resolution)))
             + Where("toTableId", Words(a.toTableId), Words(b.toTableId))
  {
    hide Report, TableReport, ColumnTotals, Declared, LineageRows, Indexed, Paired, Agree, Single, ByKey,
      RelationshipFacts, RelationshipKey, Differences, Where, ResolutionName;
    var was, now := Declared(from.tables), Declared(to.tables);
    JoinKeys(was, now);
    JoinKeys(now, was);
    hide JoinsOnce;
    PairedByKey(was, now, RelationshipKey, RelationshipFacts, w.joins.from, w.joins.to, w.joins.plan);
    var told := Telling(RELATIONSHIP, RelationshipFacts, RelationshipOf);
    ItemTold(was, now, RelationshipKey, w.joins.from, w.joins.to, RelationshipFacts, told, w.relationships,
      r.relationships, r.summary.relationships, (e: RelationshipDiff) => OfJoin(e, Pick(s)), s);
    if s.Both? {
      JoinFields(s.a, s.b);
      var row := TableLineage("", ColumnLineage("", "", "", "", false));
      SameIsSameFacts(s.a, s.b, row, row);
    }
  }

  /** And nothing is listed but joins of the two models. */
  lemma JoinListed(from: Model, to: Model, r: Diff.Result, w: Working, e: RelationshipDiff) returns (j: Relationship)
    requires Compared(from, to, r, w) && JoinsOnce(Declared(from.tables)) && JoinsOnce(Declared(to.tables))
    requires e in r.relationships
    ensures (j in Declared(from.tables) || j in Declared(to.tables)) && OfJoin(e, j)
  {
    hide Report, TableReport, ColumnTotals, Declared, LineageRows, Indexed, Paired, Agree, Single, ByKey,
      RelationshipFacts, RelationshipKey, Differences;
    var was, now := Declared(from.tables), Declared(to.tables);
    JoinKeys(was, now);
    JoinKeys(now, was);
    hide JoinsOnce;
    PairedByKey(was, now, RelationshipKey, RelationshipFacts, w.joins.from, w.joins.to, w.joins.plan);
    var told := Telling(RELATIONSHIP, RelationshipFacts, RelationshipOf);
    var s := EverythingStands(was, now, RelationshipKey, w.joins.from, w.joins.to, RelationshipFacts, told,
      w.relationships, r.relationships, r.summary.relationships, e);
    j := Pick(s);
  }

  /** The joins of a model are those of its tables. */
  lemma {:induction false} DeclaredAre(tables: seq<Table>, r: Relationship)
    ensures r in Declared(tables) <==> exists t :: t in tables && r in t.relationships
  {
    if tables != [] {
      var n := |tables| - 1;
      DeclaredAre(tables[..n], r);
      assert tables == tables[..n] + [tables[n]];
    }
  }

  // ---- lineage ----

  /** The same row: into the same column of the same table, from the same source. */
  predicate SameRow(a: TableLineage, b: TableLineage) {
    a.tableId == b.tableId && a.row.column == b.row.column && a.row.sourceTable == b.row.sourceTable
    && a.row.sourceColumn == b.row.sourceColumn
  }

  ghost predicate RowsOnce(ls: seq<TableLineage>) {
    && (forall i, j | 0 <= i < j < |ls| :: !SameRow(ls[i], ls[j]))
    && (forall l | l in ls :: '|' !in l.tableId && '|' !in l.row.column && '|' !in l.row.sourceTable)
  }

  ghost predicate RowStands(from: seq<TableLineage>, to: seq<TableLineage>, s: Sides<TableLineage>) {
    match s
    case OnlyFrom(a) => a in from && forall b | b in to :: !SameRow(a, b)
    case OnlyTo(b) => b in to && forall a | a in from :: !SameRow(a, b)
    case Both(a, b) => a in from && b in to && SameRow(a, b)
  }

  predicate OfRow(e: LineageDiff, l: TableLineage) {
    e.what == LineageId(l.tableId, l.row.column, l.row.sourceTable, l.row.sourceColumn)
  }

  lemma RowKeys(ls: seq<TableLineage>, ks: seq<TableLineage>)
    requires RowsOnce(ls) && RowsOnce(ks)
    ensures Single(ls, LineageKey)
    ensures forall a, b | (a in ls || a in ks)
      && (b in ls || b in ks) :: (LineageKey(a) == LineageKey(b) <==> SameRow(a, b))
  {
    forall a, b | (a in ls || a in ks) && (b in ls || b in ks)
      ensures LineageKey(a) == LineageKey(b) <==> SameRow(a, b)
    {
      KeysOfParts(a.tableId, a.row.column, a.row.sourceTable, a.row.sourceColumn,
        b.tableId, b.row.column, b.row.sourceTable, b.row.sourceColumn);
    }
  }

  lemma RowFields(a: TableLineage, b: TableLineage)
    ensures Differences(LINEAGE, LineageFacts(a), LineageFacts(b))
         == Where("notes", Words(a.row.notes), Words(b.row.notes))
            + Where("derived", Flag(a.row.derived), Flag(b.row.derived))
  {
    hide Differences, Where;
    var xs, ys := LineageFacts(a), LineageFacts(b);
    TwoFields(LINEAGE, xs, ys);
    assert LINEAGE[..2] == LINEAGE && xs[..2] == xs && ys[..2] == ys;
  }

  /** A lineage row is listed exactly when it is on one side only or its notes or its being derived differ. */
  lemma RowsByFields(from: Model, to: Model, r: Diff.Result, w: Working, s: Sides<TableLineage>)
    requires Compared(from, to, r, w) && RowsOnce(LineageRows(from.tables)) && RowsOnce(LineageRows(to.tables))
    requires RowStands(LineageRows(from.tables), LineageRows(to.tables), s)
    ensures (exists e :: e in r.lineage && OfRow(e, Pick(s))) <==>
      (s.Both? ==> s.a.row.notes != s.b.row.notes || s.a.row.derived != s.b.row.derived)
    ensures forall e | e in r.lineage && OfRow(e, Pick(s)) ::
      match s
      case OnlyFrom(_) => e.change == Removed && e.fields == []
      case OnlyTo(_) => e.change == Added && e.fields == []
      case Both(a, b) =>
        && e.change == Changed
        && e.fields == Where("notes", Words(a.row.notes), Words(b.row.notes))
             + Where("derived", Flag(a.row.derived), Flag(b.row.derived))
  {
    hide Report, TableReport, ColumnTotals, Declared, LineageRows, Indexed, Paired, Agree, Single, ByKey,
      LineageFacts, LineageKey, Differences, Where;
    var was, now := LineageRows(from.tables), LineageRows(to.tables);
    RowKeys(was, now);
    RowKeys(now, was);
    hide RowsOnce;
    PairedByKey(was, now, LineageKey, LineageFacts, w.rows.from, w.rows.to, w.rows.plan);
    var told := Telling(LINEAGE, LineageFacts, LineageOf);
    ItemTold(was, now, LineageKey, w.rows.from, w.rows.to, LineageFacts, told, w.lineage,
      r.lineage, r.summary.lineage, (e: LineageDiff) => OfRow(e, Pick(s)), s);
    if s.Both? {
      RowFields(s.a, s.b);
      var j := Relationship("", "", "", "", "", "", "", Undecided, []);
      SameIsSameFacts(j, j, s.a, s.b);
    }
  }

  lemma RowListed(from: Model, to: Model, r: Diff.Result, w: Working, e: LineageDiff) returns (l: TableLineage)
    requires Compared(from, to, r, w) && RowsOnce(LineageRows(from.tables)) && RowsOnce(LineageRows(to.tables))
    requires e in r.lineage
    ensures (l in LineageRows(from.tables) || l in LineageRows(to.tables)) && OfRow(e, l)
  {
    hide Report, TableReport, ColumnTotals, Declared, LineageRows, Indexed, Paired, Agree, Single, ByKey,
      LineageFacts, LineageKey, Differences;
    var was, now := LineageRows(from.tables), LineageRows(to.tables);
    RowKeys(was, now);
    RowKeys(now, was);
    hide RowsOnce;
    PairedByKey(was, now, LineageKey, LineageFacts, w.rows.from, w.rows.to, w.rows.plan);
    var told := Telling(LINEAGE, LineageFacts, LineageOf);
    var s := EverythingStands(was, now, LineageKey, w.rows.from, w.rows.to, LineageFacts, told,
      w.lineage, r.lineage, r.summary.lineage, e);
    l := Pick(s);
  }

  /** The lineage rows of a model are those of its tables, each with its table's ID. */
  lemma {:induction false} RowsAre(tables: seq<Table>, l: TableLineage)
    ensures l in LineageRows(tables) <==> exists t :: t in tables && l.tableId == t.id && l.row in t.columnLineage
  {
    if tables != [] {
      var n := |tables| - 1;
      RowsAre(tables[..n], l);
      assert tables == tables[..n] + [tables[n]];
      var t := tables[n];
      if l.tableId == t.id && l.row in t.columnLineage {
        var i: nat :| i < |t.columnLineage| && t.columnLineage[i] == l.row;
        assert Rows(t)[i] == l;
      }
    }
  }

  // ---- domains ----

  ghost predicate DomainStands(from: seq<Domain>, to: seq<Domain>, s: Sides<Domain>) {
    match s
    case OnlyFrom(a) => a in from && forall b | b in to :: b.id != a.id
    case OnlyTo(b) => b in to && forall a | a in from :: a.id != b.id
    case Both(a, b) => a in from && b in to && a.id == b.id
  }

  /** A domain is listed under its ID exactly when it is on one side only or its title or description differ. */
  lemma DomainsByFields(from: Model, to: Model, r: Diff.Result, w: Working, s: Sides<Domain>)
    requires Compared(from, to, r, w) && DomainStands(from.domains, to.domains, s)
    requires forall i, j | 0 <= i < j < |from.domains| :: from.domains[i].id != from.domains[j].id
    requires forall i, j | 0 <= i < j < |to.domains| :: to.domains[i].id != to.domains[j].id
    ensures (exists e :: e in r.domains && e.what == Pick(s).id) <==>
      (s.Both? ==> s.a.title != s.b.title || s.a.description != s.b.description)
    ensures forall e | e in r.domains && e.what == Pick(s).id ::
      match s
      case OnlyFrom(_) => e.change == Removed && e.fields == []
      case OnlyTo(_) => e.change == Added && e.fields == []
      case Both(a, b) =>
        && e.change == Changed
        && e.fields == Where("title", Words(a.title), Words(b.title))
             + Where("description", Words(a.description), Words(b.description))
  {
    hide Report, TableReport, ColumnTotals, Declared, LineageRows, Indexed, Paired, Agree, ByKey,
      DomainFacts, Differences, Where;
    IndexedByKey(from.domains, DomainKey);
    IndexedByKey(to.domains, DomainKey);
    var told := Telling(DOMAIN, DomainFacts, DomainKey);
    ItemTold(from.domains, to.domains, DomainKey, Indexed(from.domains, DomainKey), Indexed(to.domains, DomainKey),
      DomainFacts, told, w.domains, r.domains, r.summary.domains, (e: DomainDiff) => e.what == Pick(s).id, s);
    if s.Both? {
      DomainFields(s.a, s.b);
    }
  }

  /** Domains and tables are listed in byte order of their IDs, each once. */
  lemma ListedById(from: Model, to: Model, r: Diff.Result, w: Working)
    requires Compared(from, to, r, w)
    requires Single(from.domains, DomainKey) && Single(to.domains, DomainKey)
    requires Single(from.tables, TableKey) && Single(to.tables, TableKey)
    ensures forall i, j | 0 <= i < j < |r.domains| :: Less(r.domains[i].what, r.domains[j].what)
    ensures forall i, j | 0 <= i < j < |r.tables| :: Less(r.tables[i].id, r.tables[j].id)
  {
    hide Report, ColumnTotals, Declared, LineageRows, Indexed, Paired, Agree, ByKey, Single, Less,
      DomainFacts, Differences, TableFacts, ColumnsTold;
    IndexedByKey(from.domains, DomainKey);
    IndexedByKey(to.domains, DomainKey);
    IndexedByKey(from.tables, TableKey);
    IndexedByKey(to.tables, TableKey);
    ListedInOrder(from.domains, to.domains, DomainKey, Indexed(from.domains, DomainKey), Indexed(to.domains, DomainKey),
      DomainFacts, Telling(DOMAIN, DomainFacts, DomainKey), w.domains, r.domains, r.summary.domains,
      (e: DomainDiff) => e.what);
    ListedInOrder(from.tables, to.tables, TableKey, Indexed(from.tables, TableKey), Indexed(to.tables, TableKey),
      TableFacts, TableTold, w.tables, r.tables, r.summary.tables, (d: TableDiff) => d.id);
  }

  lemma DomainFields(a: Domain, b: Domain)
    ensures Differences(DOMAIN, DomainFacts(a), DomainFacts(b))
         == Where("title", Words(a.title), Words(b.title))
            + Where("description", Words(a.description), Words(b.description))
    ensures DomainFacts(a) == DomainFacts(b) <==> a.title == b.title && a.description == b.description
  {
    hide Differences, Where;
    var xs, ys := DomainFacts(a), DomainFacts(b);
    TwoFields(DOMAIN, xs, ys);
    assert DOMAIN[..2] == DOMAIN && xs[..2] == xs && ys[..2] == ys;
    assert xs == ys ==> xs[0] == ys[0] && xs[1] == ys[1];
  }

  // ---- columns ----

  ghost predicate ColumnStands(from: seq<Column>, to: seq<Column>, s: Sides<Column>) {
    match s
    case OnlyFrom(a) => a in from && forall b | b in to :: b.name != a.name
    case OnlyTo(b) => b in to && forall a | a in from :: a.name != b.name
    case Both(a, b) => a in from && b in to && a.name == b.name
  }

  ghost predicate NamesOnce(cs: seq<Column>) {
    forall i, j | 0 <= i < j < |cs| :: cs[i].name != cs[j].name
  }

  /** Of a pair of tables a column is listed under its name exactly when it is on one side only or is not the same
      column: its type, its description or what kind of key it is differ. */
  lemma ColumnsByFields(from: seq<Column>, to: seq<Column>, out: seq<ColumnDiff>, counts: Counts, s: Sides<Column>)
    requires ColumnsTold(from, to, out, counts) && NamesOnce(from) && NamesOnce(to) && ColumnStands(from, to, s)
    ensures (exists e :: e in out && e.what == Pick(s).name) <==> (s.Both? ==> s.a != s.b)
    ensures forall e | e in out && e.what == Pick(s).name ::
      match s
      case OnlyFrom(_) => e.change == Removed && e.fields == []
      case OnlyTo(_) => e.change == Added && e.fields == []
      case Both(a, b) =>
        && e.change == Changed
        && e.fields == Where("type", Words(a.kind), Words(b.kind))
             + Where("description", Words(a.description), Words(b.description))
             + Where("isPk", Flag(a.isPk), Flag(b.isPk)) + Where("isFk", Flag(a.isFk), Flag(b.isFk))
  {
    hide Report, Indexed, ByKey, ColumnFacts, Differences, Where;
    var keys :| SectionReport(Indexed(from, ColumnKey), Indexed(to, ColumnKey), COLUMN, ColumnFacts, ColumnKey, keys,
                              out, counts);
    IndexedByKey(from, ColumnKey);
    IndexedByKey(to, ColumnKey);
    ItemTold(from, to, ColumnKey, Indexed(from, ColumnKey), Indexed(to, ColumnKey), ColumnFacts,
      Telling(COLUMN, ColumnFacts, ColumnKey), keys, out, counts, (e: ColumnDiff) => e.what == Pick(s).name, s);
    if s.Both? {
      ColumnFields(s.a, s.b);
    }
  }

  lemma ColumnFields(a: Column, b: Column)
    ensures Differences(COLUMN, ColumnFacts(a), ColumnFacts(b))
         == Where("type", Words(a.kind), Words(b.kind))
           + Where("description", Words(a.description), Words(b.description))
            + Where("isPk", Flag(a.isPk), Flag(b.isPk)) + Where("isFk", Flag(a.isFk), Flag(b.isFk))
    ensures a.name == b.name ==> (ColumnFacts(a) == ColumnFacts(b) <==> a == b)
  {
    hide Differences, Where;
    var xs, ys := ColumnFacts(a), ColumnFacts(b);
    TwoFields(COLUMN, xs, ys);
    NextField(COLUMN, xs, ys, 2);
    NextField(COLUMN, xs, ys, 3);
    assert COLUMN[..4] == COLUMN && xs[..4] == xs && ys[..4] == ys;
    assert xs == ys ==> xs[0] == ys[0] && xs[1] == ys[1] && xs[2] == ys[2] && xs[3] == ys[3];
  }

  /** Two tables have the same columns, in whatever order, exactly when none is listed. */
  lemma ColumnsAlike(a: seq<Column>, b: seq<Column>)
    requires NamesOnce(a) && NamesOnce(b)
    ensures ColumnMap(a) == ColumnMap(b) <==> forall c :: c in a <==> c in b
  {
    hide Indexed, ColumnFacts;
    IndexedByKey(a, ColumnKey);
    IndexedByKey(b, ColumnKey);
    var x, y := Indexed(a, ColumnKey), Indexed(b, ColumnKey);
    if ColumnMap(a) == ColumnMap(b) {
      forall c
        ensures c in a ==> c in b
        ensures c in b ==> c in a
      {
        SameColumn(a, b, c);
        SameColumn(b, a, c);
      }
    }
    if forall c :: c in a <==> c in b {
      forall k
        ensures k in x <==> k in y
        ensures k in x ==> ColumnFacts(x[k]) == ColumnFacts(y[k])
      {
        assert k in x ==> x[k] in b && y[k] == x[k];
        assert k in y ==> y[k] in a && x[k] == y[k];
      }
    }
  }

  lemma SameColumn(a: seq<Column>, b: seq<Column>, c: Column)
    requires ByKey(a, ColumnKey, Indexed(a, ColumnKey)) && ByKey(b, ColumnKey, Indexed(b, ColumnKey))
    requires ColumnMap(a) == ColumnMap(b)
    ensures c in a ==> c in b
  {
    hide Indexed, ColumnFacts;
    if c in a {
      assert c.name in ColumnMap(a) && ColumnMap(a)[c.name] == ColumnFacts(c);
      var d := Indexed(b, ColumnKey)[c.name];
      assert ColumnMap(b)[c.name] == ColumnFacts(d);
      ColumnFields(c, d);
    }
  }

  // ---- tables ----

  ghost predicate TableStands(from: seq<Table>, to: seq<Table>, s: Sides<Table>) {
    match s
    case OnlyFrom(a) => a in from && forall b | b in to :: b.id != a.id
    case OnlyTo(b) => b in to && forall a | a in from :: a.id != b.id
    case Both(a, b) => a in from && b in to && a.id == b.id
  }

  predicate SameTable(a: Table, b: Table) {
    a.kind == b.kind && a.grain == b.grain && a.updateFrequency == b.updateFrequency && a.layer == b.layer
    && a.description == b.description && a.conformed == b.conformed
  }

  /** A table is listed under its ID exactly when it is on one side only, one of its own six facts differs, or a
      column does. The entry has the domain of the newer side, the facts that differ and the columns listed for the
      pair. */
  lemma TablesByFields(from: Model, to: Model, r: Diff.Result, w: Working, s: Sides<Table>)
    requires Compared(from, to, r, w) && TableStands(from.tables, to.tables, s)
    requires forall i, j | 0 <= i < j < |from.tables| :: from.tables[i].id != from.tables[j].id
    requires forall i, j | 0 <= i < j < |to.tables| :: to.tables[i].id != to.tables[j].id
    requires s.Both? ==> NamesOnce(s.a.columns) && NamesOnce(s.b.columns)
    ensures (exists d :: d in r.tables && d.id == Pick(s).id) <==>
      (s.Both? ==> !SameTable(s.a, s.b) || exists c :: !(c in s.a.columns <==> c in s.b.columns))
    ensures forall d | d in r.tables && d.id == Pick(s).id ::
      && d.domainId == Pick(s).domainId
      && match s
         case OnlyFrom(_) => d.change == Removed && d.fields == [] && d.columns == []
         case OnlyTo(_) => d.change == Added && d.fields == [] && d.columns == []
         case Both(a, b) =>
           && d.change == Changed
           && d.fields == Where("kind", Words(a.kind), Words(b.kind)) + Where("grain", Words(a.grain), Words(b.grain))
                + Where("updateFrequency", Words(a.updateFrequency), Words(b.updateFrequency))
                + Where("layer", Words(a.layer), Words(b.layer))
                + Where("description", Words(a.description), Words(b.description))
                + Where("conformed", Flag(a.conformed), Flag(b.conformed))
           && exists counts :: ColumnsTold(a.columns, b.columns, d.columns, counts)
  {
    hide Report, SectionReport, ColumnTotals, Declared, LineageRows, Indexed, Paired, Agree, ByKey, TableOwn, ColumnMap,
      ColumnsTold, Differences, Where, NamesOnce, SameTable;
    IndexedByKey(from.tables, TableKey);
    IndexedByKey(to.tables, TableKey);
    ItemTold(from.tables, to.tables, TableKey, Indexed(from.tables, TableKey), Indexed(to.tables, TableKey),
      TableFacts, TableTold, w.tables, r.tables, r.summary.tables, (d: TableDiff) => d.id == Pick(s).id, s);
    if s.Both? {
      TableFields(s.a, s.b);
      ColumnsAlike(s.a.columns, s.b.columns);
    }
  }

  lemma TableFields(a: Table, b: Table)
    ensures Differences(TABLE, TableOwn(a), TableOwn(b))
         == Where("kind", Words(a.kind), Words(b.kind)) + Where("grain", Words(a.grain), Words(b.grain))
            + Where("updateFrequency", Words(a.updateFrequency), Words(b.updateFrequency))
            + Where("layer", Words(a.layer), Words(b.layer))
            + Where("description", Words(a.description), Words(b.description))
            + Where("conformed", Flag(a.conformed), Flag(b.conformed))
    ensures TableOwn(a) == TableOwn(b) <==> SameTable(a, b)
  {
    hide Differences, Where;
    var xs, ys := TableOwn(a), TableOwn(b);
    TwoFields(TABLE, xs, ys);
    NextField(TABLE, xs, ys, 2);
    NextField(TABLE, xs, ys, 3);
    NextField(TABLE, xs, ys, 4);
    NextField(TABLE, xs, ys, 5);
    assert TABLE[..6] == TABLE && xs[..6] == xs && ys[..6] == ys;
    assert xs == ys ==> xs[0] == ys[0] && xs[1] == ys[1] && xs[2] == ys[2];
    assert xs == ys ==> xs[3] == ys[3] && xs[4] == ys[4] && xs[5] == ys[5];
  }

  // ---- counts ----

  function CountOf(c: Counts, change: Change): nat {
    match change
    case Added => c.added
    case Removed => c.removed
    case Changed => c.changed
  }

  /** Entries are counted one by one, each under what became of it. */
  lemma {:induction false} ListedByKind<D(!new)>(out: seq<D>, change: D -> Change, kind: Change, p: D -> bool)
    requires forall d :: p(d) <==> change(d) == kind
    ensures CountOf(Listed(out, change), kind) == |Places(out, p)|
  {
    hide Places;
    NoPlaces(p);
    if out != [] {
      ListedByKind(out[..|out| - 1], change, kind, p);
      PlacesSnoc(out, p);
    }
  }

  /** The columns counted are those listed under the tables, table by table. */
  lemma {:induction false} ColumnTotalsAdd(a: seq<TableDiff>, b: seq<TableDiff>, d: TableDiff)
    ensures ColumnTotals([d]) == Listed(d.columns, ChangeOf)
    ensures var x, y, z := ColumnTotals(a), ColumnTotals(b), ColumnTotals(a + b);
      && z.added == x.added + y.added && z.removed == x.removed + y.removed && z.changed == x.changed + y.changed
  {
    hide Listed;
    assert [d][..0] == [];
    if b == [] {
      assert a + b == a;
    } else {
      var n := |b| - 1;
      ColumnTotalsAdd(a, b[..n], d);
      assert (a + b)[..|a + b| - 1] == a + b[..n];
    }
  }
}
