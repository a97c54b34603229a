/** Matching the target each relationship declares to a table. */
module Resolving {
  import opened Text
  import opened Totals
  import opened Models
  import opened Registries
  import opened Orientation

  datatype Code =
    NarrativeReference | UnresolvedReference | CrossDomainReference | UnmatchedJoinKey | UndocumentedLineage

  datatype Diagnostic = Diagnostic(code: Code, tableId: string)

  predicate IdentifierChar(c: char) {
    'a' <= c <= 'z' || 'A' <= c <= 'Z' || '0' <= c <= '9' || c == '_' || c == '.'
  }

  predicate IsIdentifier(s: string) {
    s != "" && forall c | c in s :: IdentifierChar(c)
  }

  function LocalId(t: Table, r: Relationship): string {
    t.domainId + "/" + r.targetRef
  }

  /** How a row resolves: prose, a table of the same domain, no table at all, or one of another domain. */
  function Outcome(t: Table, r: Relationship, reg: Registry): Resolution {
    if !IsIdentifier(r.targetRef) then Narrative
    else if LocalId(t, r) in reg.byId then Local
    else if r.targetRef !in reg.byName || reg.byName[r.targetRef] == [] then Unresolved
    else Conformed
  }

  /** The row with its columns oriented against the table it is bound to. */
  function OrientedRow(t: Table, r: Relationship, target: Table): Relationship {
    var o := OrientJoinKey(r.fromColumn, r.toColumn, ColumnNames(t), ColumnNames(target));
    r.(fromColumn := o.ownerColumn, toColumn := o.otherColumn)
  }

  predicate Unmatched(t: Table, r: Relationship, target: Table) {
    !OrientJoinKey(r.fromColumn, r.toColumn, ColumnNames(t), ColumnNames(target)).settled && r.joinKeyRaw != ""
  }

  /** What resolution makes of one row. */
  ghost predicate RowResolved(t: Table, r: Relationship, reg: Registry, r': Relationship) {
    match Outcome(t, r, reg)
    case Local =>
      r' == OrientedRow(t, r, reg.byId[LocalId(t, r)]).(toTableId := LocalId(t, r), resolution := Local)
    case Conformed =>
      && Picked(reg.byName[r.targetRef], reg.byId, r'.toTableId)
      && var oriented := OrientedRow(t, r, reg.byId[r'.toTableId]);
         r' == oriented.(toTableId := r'.toTableId, resolution := Conformed, candidates := reg.byName[r.targetRef])
    case other => r' == r.(resolution := other)
  }

  /** The diagnostics of one row, in the order they are recorded. */
  function RowDiagnostics(t: Table, r: Relationship, reg: Registry, r': Relationship): seq<Diagnostic> {
    var loose := r'.toTableId in reg.byId && Unmatched(t, r, reg.byId[r'.toTableId]);
    var unmatched := if loose then [Diagnostic(UnmatchedJoinKey, t.id)] else [];
    match r'.resolution
    case Narrative => [Diagnostic(NarrativeReference, t.id)]
    case Unresolved => [Diagnostic(UnresolvedReference, t.id)]
    case Conformed => unmatched + [Diagnostic(CrossDomainReference, t.id)]
    case _ => unmatched
  }

  /** Rows as the parser leaves them: of their own table, and bound to none yet. */
  predicate Fresh(t: Table, r: Relationship) {
    r.fromTableId == t.id && r.toTableId == ""
  }

  /** Every name the registry files belongs to tables it holds, none of them nameless. */
  ghost predicate Sound(reg: Registry) {
    && (forall name, id | name in reg.byName && id in reg.byName[name] :: id in reg.byId)
    && "" !in reg.byId
  }

  method ResolveRow(t: Table, r: Relationship, reg: Registry) returns (r': Relationship, diags: seq<Diagnostic>)
    requires Sound(reg)
    ensures RowResolved(t, r, reg, r') && (r.toTableId == "" ==> diags == RowDiagnostics(t, r, reg, r'))
  {
    hide Less, OrientJoinKey, DeclaresConformed, IdentifierChar;
    diags := [];
    if !IsIdentifier(r.targetRef) {
      return r.(resolution := Narrative), [Diagnostic(NarrativeReference, t.id)];
    }
    var local := LocalId(t, r);
    if local in reg.byId {
      r', diags := OrientRelationship(r.(toTableId := local, resolution := Local), t, reg.byId[local]);
      return;
    }
    var candidates := if r.targetRef in reg.byName then reg.byName[r.targetRef] else [];
    if candidates == [] {
      return r.(resolution := Unresolved), [Diagnostic(UnresolvedReference, t.id)];
    }
    assert candidates[0] in candidates && candidates[0] in reg.byId;
    var to := PickConformed(candidates, reg.byId);
    r' := r.(toTableId := to, resolution := Conformed, candidates := candidates);
    r', diags := OrientRelationship(r', t, reg.byId[to]);
    diags := diags + [Diagnostic(CrossDomainReference, t.id)];
  }

  method OrientRelationship(r: Relationship, owner: Table, other: Table)
    returns (r': Relationship, diags: seq<Diagnostic>)
    ensures r' == OrientedRow(owner, r, other)
    ensures diags == if Unmatched(owner, r, other) then [Diagnostic(UnmatchedJoinKey, owner.id)] else []
  {
    var o := OrientJoinKey(r.fromColumn, r.toColumn, ColumnNames(owner), ColumnNames(other));
    r', diags := r.(fromColumn := o.ownerColumn, toColumn := o.otherColumn), [];
    if o.settled || r.joinKeyRaw == "" {
      return;
    }
    diags := [Diagnostic(UnmatchedJoinKey, owner.id)];
  }

  /** A row is bound to a table exactly when it resolves locally or to another domain, and then to a registered one
      of the name it declares; otherwise it is bound to none. */
  lemma BoundToRegistered(t: Table, r: Relationship, reg: Registry, r': Relationship)
    requires Sound(reg) && Fresh(t, r) && RowResolved(t, r, reg, r')
    ensures r'.resolution in {Local, Conformed, Unresolved, Narrative}
    ensures r'.toTableId != "" <==> r'.resolution in {Local, Conformed}
    ensures r'.toTableId != "" ==> r'.toTableId in reg.byId
    ensures r'.resolution == Narrative <==> !IsIdentifier(r.targetRef)
    ensures r'.resolution == Conformed ==> r'.toTableId in reg.byName[r.targetRef]
    ensures r'.targetRef == r.targetRef && r'.fromTableId == t.id
    ensures multiset{r'.fromColumn, r'.toColumn} == multiset{r.fromColumn, r.toColumn}
  {
    hide Less, OrientJoinKey, DeclaresConformed, IdentifierChar;
    if r'.toTableId in reg.byId {
      OrientedFits(r.fromColumn, r.toColumn, ColumnNames(t), ColumnNames(reg.byId[r'.toTableId]));
    }
  }

  /** A row's join key is reported unmatched exactly when the row is bound, something was written for it, and a side
      is missing or the sides differ and the declaring table documents neither. */
  lemma UnmatchedNoted(t: Table, r: Relationship, reg: Registry, r': Relationship)
    requires Sound(reg) && Fresh(t, r) && RowResolved(t, r, reg, r')
    ensures Diagnostic(UnmatchedJoinKey, t.id) in RowDiagnostics(t, r, reg, r') <==>
      && r'.toTableId != "" && r.joinKeyRaw != ""
      && (r.fromColumn == "" || r.toColumn == ""
          || (r.fromColumn != r.toColumn && r.fromColumn !in ColumnNames(t) && r.toColumn !in ColumnNames(t)))
  {
    BoundToRegistered(t, r, reg, r');
    hide RowResolved, ColumnNames;
    if r'.toTableId in reg.byId {
      OrientedFits(r.fromColumn, r.toColumn, ColumnNames(t), ColumnNames(reg.byId[r'.toTableId]));
    }
    hide OrientJoinKey, IsIdentifier;
  }

  /** Over the documents: prose stays prose; a name of the table's own domain binds there, before any other; a name
      other documents carry binds to one of them; and any other name stays unresolved. */
  lemma ResolvesWhen(tables: seq<Table>, reg: Registry, t: Table, r: Relationship, r': Relationship)
    requires RegistryOf(tables, reg) && RowResolved(t, r, reg, r')
    ensures var known := exists u :: u in tables && u.id == t.domainId + "/" + r.targetRef;
      var named := exists u :: u in tables && u.name == r.targetRef;
      if !IsIdentifier(r.targetRef) then r'.resolution == Narrative && r' == r.(resolution := Narrative)
      else if known then r'.resolution == Local && r'.toTableId == t.domainId + "/" + r.targetRef
      else if named then
        r'.resolution == Conformed && exists u :: u in tables && u.name == r.targetRef && u.id == r'.toTableId
      else r'.resolution == Unresolved && r' == r.(resolution := Unresolved)
  {
    hide IsIdentifier, OrientJoinKey, ColumnNames, Less, DeclaresConformed;
    KnownLocally(tables, reg, t.domainId + "/" + r.targetRef);
    KnownByName(tables, reg, r.targetRef);
    if r'.resolution == Conformed && r.targetRef in reg.byName {
      InRegistry(tables, reg, r.targetRef, r'.toTableId);
    }
  }

  lemma KnownLocally(tables: seq<Table>, reg: Registry, id: string)
    requires RegistryOf(tables, reg)
    ensures id in reg.byId <==> exists u :: u in tables && u.id == id
  {
    hide Less;
    if u :| u in tables && u.id == id {
      assert HasId(u, id);
    }
    if id in reg.byId {
      assert HasId(reg.byId[id], id);
    }
  }

  lemma KnownByName(tables: seq<Table>, reg: Registry, name: string)
    requires RegistryOf(tables, reg)
    ensures name in reg.byName && reg.byName[name] != [] <==> exists u :: u in tables && u.name == name
  {
    hide Less;
    assert Filed(tables, reg.byName, name);
    if u :| u in tables && u.name == name {
      assert HasId(u, u.id);
      IdsNamedAre(tables, name, u.id);
      assert u.id in multiset(reg.byName[name]);
    }
    if name in reg.byName {
      var id := IdsNamed(tables, name)[0];
      IdsNamedAre(tables, name, id);
    }
  }

  lemma InRegistry(tables: seq<Table>, reg: Registry, name: string, id: string)
    requires RegistryOf(tables, reg) && name in reg.byName
    ensures id in reg.byName[name] ==> exists u :: u in tables && u.name == name && u.id == id
  {
    hide Less;
    assert Filed(tables, reg.byName, name);
    if id in reg.byName[name] {
      assert id in multiset(IdsNamed(tables, name));
      IdsNamedAre(tables, name, id);
      var u :| u in tables && HasId(u, id) && u.name == name;
    }
  }

  predicate NamingChar(c: char) {
    || c in {'a', 'b', 'c', 'd', 'e', 'f', 'g', 'h', 'i', 'j', 'k', 'l', 'm',
             'n', 'o', 'p', 'q', 'r', 's', 't', 'u', 'v', 'w', 'x', 'y', 'z'}
    || c in {'A', 'B', 'C', 'D', 'E', 'F', 'G', 'H', 'I', 'J', 'K', 'L', 'M',
             'N', 'O', 'P', 'Q', 'R', 'S', 'T', 'U', 'V', 'W', 'X', 'Y', 'Z'}
    || c in {'0', '1', '2', '3', '4', '5', '6', '7', '8', '9', '_', '.'}
  }

  /** What may name a table is made of these characters; all else is prose. */
  lemma NamesAndProse(s: string)
    ensures IsIdentifier(s) <==> s != "" && forall c | c in s :: NamingChar(c)
  {
    assert forall c :: IdentifierChar(c) <==> NamingChar(c);
  }

  /** A registry built from tables is sound unless some table has an empty identifier. */
  lemma RegistryIsSound(tables: seq<Table>, reg: Registry)
    requires RegistryOf(tables, reg) && forall t | t in tables :: t.id != ""
    ensures Sound(reg)
  {
    hide Less;
    forall name, id | name in reg.byName && id in reg.byName[name]
      ensures id in reg.byId
    {
      assert Filed(tables, reg.byName, name);
      assert id in multiset(IdsNamed(tables, name));
      IdsNamedAre(tables, name, id);
    }
    forall id | id in reg.byId
      ensures id != ""
    {
      assert HasId(reg.byId[id], id);
    }
  }

  // ---- domains ----

  /** Identifiers as the parser builds them, from a domain without a slash and a name. */
  ghost predicate WellNamed(t: Table) {
    t.id == t.domainId + "/" + t.name && '/' !in t.domainId
  }

  /** A bound row leaves its own domain exactly when it resolves to a conformed table. */
  lemma ConformedLeavesDomain(tables: seq<Table>, reg: Registry, t: Table, r: Relationship, r': Relationship)
    requires RegistryOf(tables, reg) && (forall u | u in tables :: WellNamed(u)) && t in tables
    requires Fresh(t, r) && RowResolved(t, r, reg, r') && r'.toTableId != ""
    ensures r'.toTableId in reg.byId
    ensures reg.byId[r'.toTableId].domainId != t.domainId <==> r'.resolution == Conformed
  {
    hide Less, OrientJoinKey, DeclaresConformed, IdentifierChar;
    forall u | u in tables
      ensures u.id != ""
    {
      assert |u.id| > 0;
    }
    RegistryIsSound(tables, reg);
    BoundToRegistered(t, r, reg, r');
    var target := reg.byId[r'.toTableId];
    assert HasId(target, r'.toTableId) && WellNamed(target) && WellNamed(t);
    if r'.resolution == Local {
      SeparatorSplits('/', target.domainId, target.name, t.domainId, r.targetRef);
    } else {
      assert Filed(tables, reg.byName, r.targetRef);
      assert r'.toTableId in multiset(IdsNamed(tables, r.targetRef));
      IdsNamedAre(tables, r.targetRef, r'.toTableId);
      var u :| u in tables && HasId(u, r'.toTableId) && u.name == r.targetRef;
      SeparatorSplits('/', target.domainId, target.name, u.domainId, u.name);
    }
  }

  // ---- whole models ----

  ghost predicate TableResolved(t: Table, reg: Registry, t': Table) {
    && t' == t.(relationships := t'.relationships) && |t'.relationships| == |t.relationships|
    && forall j | 0 <= j < |t.relationships| :: RowResolved(t, t.relationships[j], reg, t'.relationships[j])
  }

  function TableDiagnostics(t: Table, reg: Registry, rows: seq<Relationship>): seq<Diagnostic>
    requires |rows| <= |t.relationships|
  {
    if rows == [] then [] else
      var j := |rows| - 1;
      TableDiagnostics(t, reg, rows[..j]) + RowDiagnostics(t, t.relationships[j], reg, rows[j])
  }

  ghost predicate TablesResolved(tables: seq<Table>, reg: Registry, tables': seq<Table>) {
    |tables'| == |tables| && forall i | 0 <= i < |tables| :: TableResolved(tables[i], reg, tables'[i])
  }

  function AllDiagnostics(tables: seq<Table>, reg: Registry, tables': seq<Table>): seq<Diagnostic>
    requires |tables'| <= |tables|
    requires forall i | 0 <= i < |tables'| :: |tables'[i].relationships| <= |tables[i].relationships|
  {
    if tables' == [] then [] else
      var i := |tables'| - 1;
      AllDiagnostics(tables, reg, tables'[..i]) + TableDiagnostics(tables[i], reg, tables'[i].relationships)
  }

  function CountCode(ds: seq<Diagnostic>, code: Code): nat {
    if ds == [] then 0 else CountCode(ds[..|ds| - 1], code) + if ds[|ds| - 1].code == code then 1 else 0
  }

  function CountRows(rows: seq<Relationship>, outcome: Resolution): nat {
    if rows == [] then 0 else
      var n := |rows| - 1;
      CountRows(rows[..n], outcome) + if rows[n].resolution == outcome then 1 else 0
  }

  function CountOutcome(tables: seq<Table>, outcome: Resolution): nat {
    if tables == [] then 0 else
      CountOutcome(tables[..|tables| - 1], outcome) + CountRows(tables[|tables| - 1].relationships, outcome)
  }

  /** The diagnostic each outcome raises. */
  function CodeOf(outcome: Resolution): Code
    requires outcome in {Narrative, Unresolved, Conformed}
  {
    match outcome
    case Narrative => NarrativeReference
    case Unresolved => UnresolvedReference
    case Conformed => CrossDomainReference
  }

  lemma {:induction false} CountCodeSplits(x: seq<Diagnostic>, y: seq<Diagnostic>, code: Code)
    ensures CountCode(x + y, code) == CountCode(x, code) + CountCode(y, code)
  {
    if y == [] {
      assert x + y == x;
    } else {
      var n := |y| - 1;
      assert (x + y)[..|x + y| - 1] == x + y[..n] && (x + y)[|x + y| - 1] == y[n];
      CountCodeSplits(x, y[..n], code);
    }
  }

  lemma OneCode(d: Diagnostic, code: Code)
    ensures CountCode([d], code) == if d.code == code then 1 else 0
  {
    assert [d][..0] == [];
  }

  lemma RowCounts(t: Table, r: Relationship, reg: Registry, r': Relationship, outcome: Resolution)
    requires RowResolved(t, r, reg, r') && outcome in {Narrative, Unresolved, Conformed}
    ensures CountCode(RowDiagnostics(t, r, reg, r'), CodeOf(outcome)) == if r'.resolution == outcome then 1 else 0
  {
    ResolvedOutcome(t, r, reg, r');
    hide RowResolved, Unmatched, CountCode;
    var code := CodeOf(outcome);
    OneCode(Diagnostic(UnmatchedJoinKey, t.id), code);
    OneCode(Diagnostic(NarrativeReference, t.id), code);
    OneCode(Diagnostic(UnresolvedReference, t.id), code);
    OneCode(Diagnostic(CrossDomainReference, t.id), code);
    CountCodeSplits([Diagnostic(UnmatchedJoinKey, t.id)], [Diagnostic(CrossDomainReference, t.id)], code);
    CountCodeSplits([], [Diagnostic(CrossDomainReference, t.id)], code);
    NoCode(code);
  }

  lemma NoCode(code: Code)
    ensures CountCode([], code) == 0
  {
  }

  lemma ResolvedOutcome(t: Table, r: Relationship, reg: Registry, r': Relationship)
    requires RowResolved(t, r, reg, r')
    ensures r'.resolution == Outcome(t, r, reg) && r'.resolution != Undecided
  {
    hide Picked, IsIdentifier, OrientJoinKey;
  }

  lemma {:induction false} TableCounts(t: Table, reg: Registry, rows: seq<Relationship>, outcome: Resolution)
    requires |rows| <= |t.relationships| && outcome in {Narrative, Unresolved, Conformed}
    requires forall j | 0 <= j < |rows| :: RowResolved(t, t.relationships[j], reg, rows[j])
    ensures CountCode(TableDiagnostics(t, reg, rows), CodeOf(outcome)) == CountRows(rows, outcome)
  {
    hide RowResolved, RowDiagnostics, CodeOf;
    if rows != [] {
      var j := |rows| - 1;
      TableCounts(t, reg, rows[..j], outcome);
      RowCounts(t, t.relationships[j], reg, rows[j], outcome);
      CountCodeSplits(TableDiagnostics(t, reg, rows[..j]), RowDiagnostics(t, t.relationships[j], reg, rows[j]),
        CodeOf(outcome));
    }
  }

  /** Narrative, unresolved and cross-domain diagnostics are as many as the rows resolved that way. */
  lemma {:induction false} DiagnosticsCount(tables: seq<Table>, reg: Registry, tables': seq<Table>, outcome: Resolution)
    requires TablesResolved(tables, reg, tables') && outcome in {Narrative, Unresolved, Conformed}
    ensures CountCode(AllDiagnostics(tables, reg, tables'), CodeOf(outcome)) == CountOutcome(tables', outcome)
  {
    hide RowResolved, CodeOf;
    if tables' != [] {
      var i := |tables'| - 1;
      DiagnosticsCount(tables[..i], reg, tables'[..i], outcome);
      SamePrefix(tables, reg, tables'[..i]);
      TableCounts(tables[i], reg, tables'[i].relationships, outcome);
      CountCodeSplits(AllDiagnostics(tables, reg, tables'[..i]),
        TableDiagnostics(tables[i], reg, tables'[i].relationships), CodeOf(outcome));
    }
  }

  lemma {:induction false} SamePrefix(tables: seq<Table>, reg: Registry, tables': seq<Table>)
    requires |tables'| <= |tables|
    requires forall i | 0 <= i < |tables'| :: |tables'[i].relationships| <= |tables[i].relationships|
    ensures AllDiagnostics(tables[..|tables'|], reg, tables') == AllDiagnostics(tables, reg, tables')
    decreases |tables'|
  {
    if tables' != [] {
      var i := |tables'| - 1;
      SamePrefix(tables, reg, tables'[..i]);
      SamePrefix(tables[..i + 1], reg, tables'[..i]);
      assert tables[..i + 1][..i] == tables[..i];
    }
  }

  /** Diagnostics of a code are counted one by one, and so are the rows of a table resolved in a way. */
  lemma {:induction false} CodesCounted(ds: seq<Diagnostic>, code: Code, p: Diagnostic -> bool)
    requires forall d :: p(d) <==> d.code == code
    ensures CountCode(ds, code) == |Places(ds, p)|
  {
    hide Places;
    NoPlaces(p);
    if ds != [] {
      CodesCounted(ds[..|ds| - 1], code, p);
      PlacesSnoc(ds, p);
    }
  }

  lemma {:induction false} RowsCounted(rows: seq<Relationship>, outcome: Resolution, p: Relationship -> bool)
    requires forall r :: p(r) <==> r.resolution == outcome
    ensures CountRows(rows, outcome) == |Places(rows, p)|
  {
    hide Places;
    NoPlaces(p);
    if rows != [] {
      RowsCounted(rows[..|rows| - 1], outcome, p);
      PlacesSnoc(rows, p);
    }
  }

  /** Over tables the rows add up. */
  lemma {:induction false} OutcomesAdd(a: seq<Table>, b: seq<Table>, t: Table, outcome: Resolution)
    ensures CountOutcome(a + b, outcome) == CountOutcome(a, outcome) + CountOutcome(b, outcome)
    ensures CountOutcome([t], outcome) == CountRows(t.relationships, outcome)
  {
    hide CountRows;
    assert [t][..0] == [];
    if b == [] {
      assert a + b == a;
    } else {
      var n := |b| - 1;
      OutcomesAdd(a, b[..n], t, outcome);
      assert (a + b)[..|a + b| - 1] == a + b[..n];
    }
  }

  /** The diagnostics of a table are those of its rows, and those of a model are its tables'. */
  lemma {:induction false} TableTells(t: Table, reg: Registry, rows: seq<Relationship>, d: Diagnostic)
    requires |rows| <= |t.relationships|
    ensures d in TableDiagnostics(t, reg, rows)
       <==> exists j :: 0 <= j < |rows| && d in RowDiagnostics(t, t.relationships[j], reg, rows[j])
  {
    hide RowDiagnostics;
    if rows != [] {
      TableTells(t, reg, rows[..|rows| - 1], d);
    }
  }

  lemma {:induction false} ModelTells(tables: seq<Table>, reg: Registry, tables': seq<Table>, d: Diagnostic)
    requires |tables'| <= |tables|
    requires forall i | 0 <= i < |tables'| :: |tables'[i].relationships| <= |tables[i].relationships|
    ensures d in AllDiagnostics(tables, reg, tables')
       <==> exists i :: 0 <= i < |tables'| && d in TableDiagnostics(tables[i], reg, tables'[i].relationships)
  {
    hide TableDiagnostics;
    if tables' != [] {
      ModelTells(tables, reg, tables'[..|tables'| - 1], d);
    }
  }
}
