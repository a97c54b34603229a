/** Which tables exist, under which identifiers and names. */
module Registries {
  import opened Text
  import opened Sorting
  import opened Models

  datatype Registry = Registry(byId: map<string, Table>, byName: map<string, seq<string>>)

  /** The identifiers of the tables carrying a name, in document order. */
  function IdsNamed(tables: seq<Table>, name: string): seq<string> {
    if tables == [] then [] else
      var t := tables[|tables| - 1];
      if t.name == name then IdsNamed(tables[..|tables| - 1], name) + [t.id] else IdsNamed(tables[..|tables| - 1], name)
  }

  predicate HasId(t: Table, id: string) { t.id == id }

  ghost predicate ById(tables: seq<Table>, byId: map<string, Table>) {
    forall id :: (id in byId <==> exists t :: t in tables && HasId(t, id))
              && (id in byId ==> HasId(byId[id], id) && byId[id] in tables && LastWith(tables, id, byId[id]))
  }

  /** Of the documents with this ID, t is the last. */
  ghost predicate LastWith(tables: seq<Table>, id: string, t: Table) {
    exists i :: LastAt(tables, id, t, i)
  }

  ghost predicate LastAt(tables: seq<Table>, id: string, t: Table, i: int) {
    0 <= i < |tables| && tables[i] == t && HasId(t, id) && forall j | i < j < |tables| :: !HasId(tables[j], id)
  }

  lemma ByIdMore(tables: seq<Table>, byId: map<string, Table>, t: Table)
    requires ById(tables, byId)
    ensures ById(tables + [t], byId[t.id := t])
  {
    var all, more := tables + [t], byId[t.id := t];
    assert HasId(t, t.id) && LastAt(all, t.id, t, |tables|);
    forall id
      ensures id in more <==> exists u :: u in all && HasId(u, id)
      ensures id in more ==> HasId(more[id], id) && more[id] in all && LastWith(all, id, more[id])
    {
      if id in byId && id != t.id {
        var i :| LastAt(tables, id, byId[id], i);
        assert LastAt(all, id, byId[id], i);
      }
    }
  }

  /** Every table under its identifier, and under each name its identifiers in byte order. */
  ghost predicate RegistryOf(tables: seq<Table>, reg: Registry) {
    && ById(tables, reg.byId)
    && (forall name :: Filed(tables, reg.byName, name))
    && forall name | name in reg.byName :: Sorted(reg.byName[name], Less)
  }

  ghost predicate Filed(tables: seq<Table>, byName: map<string, seq<string>>, name: string) {
    && (name in byName <==> IdsNamed(tables, name) != [])
    && (name in byName ==> multiset(byName[name]) == multiset(IdsNamed(tables, name)))
  }

  method NewRegistry(tables: seq<Table>) returns (reg: Registry)
    ensures RegistryOf(tables, reg)
  {
    var byId: map<string, Table>, byName: map<string, seq<string>> := map[], map[];
    for i := 0 to |tables|
      invariant ById(tables[..i], byId)
      invariant forall name :: Filed(tables[..i], byName, name)
    {
      var t := tables[i];
      assert tables[..i + 1] == tables[..i] + [t] && tables[..i + 1][..i] == tables[..i];
      assert HasId(t, t.id);
      var upTo := tables[..i + 1];
      forall name
        ensures Filed(upTo, AlsoNamed(byName, t), name)
      {
        FiledMore(tables[..i], byName, t, name);
      }
      ByIdMore(tables[..i], byId, t);
      byId := byId[t.id := t];
      byName := AlsoNamed(byName, t);
    }
    assert tables[..|tables|] == tables;
    var left := byName.Keys;
    ghost var filed := byName;
    while left != {}
      invariant left <= byName.Keys == filed.Keys
      invariant forall name | name in byName :: multiset(byName[name]) == multiset(filed[name])
      invariant forall name | name in byName && name !in left :: Sorted(byName[name], Less)
      decreases left
    {
      var name :| name in left;
      var ids := SortStrings(byName[name]);
      byName, left := byName[name := ids], left - {name};
    }
    forall name
      ensures Filed(tables, byName, name)
    {
      assert Filed(tables, filed, name);
    }
    reg := Registry(byId, byName);
  }

  function AlsoNamed(byName: map<string, seq<string>>, t: Table): map<string, seq<string>> {
    byName[t.name := (if t.name in byName then byName[t.name] else []) + [t.id]]
  }

  lemma FiledMore(tables: seq<Table>, byName: map<string, seq<string>>, t: Table, name: string)
    requires Filed(tables, byName, t.name) && Filed(tables, byName, name)
    ensures Filed(tables + [t], AlsoNamed(byName, t), name)
  {
    assert (tables + [t])[..|tables|] == tables;
  }

  lemma {:induction false} IdsNamedAre(tables: seq<Table>, name: string, id: string)
    ensures id in IdsNamed(tables, name) <==> exists t :: t in tables && HasId(t, id) && t.name == name
  {
    if tables != [] {
      var n := |tables| - 1;
      IdsNamedAre(tables[..n], name, id);
      assert tables == tables[..n] + [tables[n]];
      assert HasId(tables[n], tables[n].id);
    }
  }

  // ---- choosing among the tables of one name ----

  /** The document says of itself that it is conformed. */
  predicate DeclaresConformed(t: Table) {
    Contains(Lower(t.domainLabel + " " + t.kindRaw), "conformed")
  }

  datatype Scored = Scored(id: string, declared: bool, columns: nat)

  function Score(t: Table, id: string): Scored {
    Scored(id, DeclaresConformed(t), |t.columns|)
  }

  predicate Better(a: Scored, b: Scored) {
    if a.declared != b.declared then a.declared
    else if a.columns != b.columns then a.columns > b.columns
    else Less(a.id, b.id)
  }

  lemma BetterRanks()
    ensures Ranks(Better)
  {
    LessRanks();
    hide Less;
    forall a, b, c | !Better(a, b) && !Better(b, c)
      ensures !Better(a, c)
    {
      assert !Less(a.id, b.id) && !Less(b.id, c.id) ==> !Less(a.id, c.id);
    }
  }

  /** Of the candidates that are documented: one that says it is conformed if any does, then one with most columns,
      then the one whose ID comes first. */
  ghost predicate Picked(candidates: seq<string>, byId: map<string, Table>, id: string) {
    && id in candidates && id in byId
    && forall c | c in candidates && c in byId && c != id ::
         (DeclaresConformed(byId[id]) && !DeclaresConformed(byId[c]))
         || ((DeclaresConformed(byId[c]) ==> DeclaresConformed(byId[id]))
             && (|byId[id].columns| > |byId[c].columns|
                 || (|byId[id].columns| == |byId[c].columns| && Less(id, c))))
  }

  method PickConformed(candidates: seq<string>, byId: map<string, Table>) returns (id: string)
    requires candidates != []
    ensures if exists c :: c in candidates && c in byId then Picked(candidates, byId, id) else id == candidates[0]
  {
    var ranked: seq<Scored> := [];
    for i := 0 to |candidates|
      invariant forall s :: s in ranked <==> s.id in candidates[..i] && s.id in byId && s == Score(byId[s.id], s.id)
    {
      var c := candidates[i];
      assert candidates[..i + 1] == candidates[..i] + [c];
      if c in byId {
        ranked := ranked + [Score(byId[c], c)];
      }
    }
    assert candidates[..|candidates|] == candidates;
    if ranked == [] {
      forall c | c in candidates
        ensures c !in byId
      {
        assert c in byId ==> Score(byId[c], c) in ranked;
      }
      return candidates[0];
    }
    BetterRanks();
    var sorted := SortBy(ranked, Better);
    id := sorted[0].id;
    SortedHead(ranked, sorted, candidates, byId);
  }

  lemma SortedHead(ranked: seq<Scored>, sorted: seq<Scored>, candidates: seq<string>, byId: map<string, Table>)
    requires forall s :: s in ranked <==> s.id in candidates && s.id in byId && s == Score(byId[s.id], s.id)
    requires Sorted(sorted, Better) && multiset(sorted) == multiset(ranked) && sorted != []
    ensures Picked(candidates, byId, sorted[0].id)
  {
    hide Less, DeclaresConformed;
    var best := sorted[0];
    assert best in multiset(ranked);
    forall c | c in candidates && c in byId && c != best.id
      ensures Better(best, Score(byId[c], c))
    {
      var s := Score(byId[c], c);
      assert s in multiset(sorted);
      var j :| 0 <= j < |sorted| && sorted[j] == s;
      assert !Better(s, best);
      LessTrichotomy(s.id, best.id);
    }
  }

  /** The choice depends only on which candidates there are, not on their order. */
  lemma PickIgnoresOrder(x: seq<string>, y: seq<string>, byId: map<string, Table>, a: string, b: string)
    requires (forall c :: c in x <==> c in y) && Picked(x, byId, a) && Picked(y, byId, b)
    ensures a == b
  {
    hide Less, DeclaresConformed;
    LessTrichotomy(a, b);
  }

  // ---- conformed tables ----

  /** The table is documented under this name elsewhere too, or says it is conformed. */
  predicate IsConformed(tables: seq<Table>, t: Table) {
    |IdsNamed(tables, t.name)| >= 2 || DeclaresConformed(t)
  }

  /** The other identifiers of the table's name, in byte order, each as often as it is filed. */
  function Others(ids: seq<string>, id: string): seq<string> {
    if ids == [] then [] else
      var n := |ids| - 1;
      if ids[n] == id then Others(ids[..n], id) else Others(ids[..n], id) + [ids[n]]
  }

  lemma {:induction false} OthersAre(ids: seq<string>, id: string)
    ensures multiset(Others(ids, id)) == multiset(ids)[id := 0]
  {
    if ids != [] {
      var n := |ids| - 1;
      OthersAre(ids[..n], id);
      assert ids == ids[..n] + [ids[n]];
    }
  }

  lemma {:induction false} OthersWithin(ids: seq<string>, id: string, x: string)
    ensures x in Others(ids, id) ==> x in ids
  {
    if ids != [] {
      OthersWithin(ids[..|ids| - 1], id, x);
    }
  }

  lemma {:induction false} OthersSorted(ids: seq<string>, id: string)
    requires Sorted(ids, Less)
    ensures Sorted(Others(ids, id), Less)
  {
    hide Less;
    if ids != [] {
      var n := |ids| - 1;
      OthersSorted(ids[..n], id);
      var rest := Others(ids[..n], id);
      forall i | 0 <= i < |rest|
        ensures !Less(ids[n], rest[i])
      {
        OthersWithin(ids[..n], id, rest[i]);
      }
    }
  }

  function Marked(tables: seq<Table>, reg: Registry, t: Table): Table {
    if IsConformed(tables, t) then
      var ids := if t.name in reg.byName then reg.byName[t.name] else [];
      t.(conformed := true, conformedIn := t.conformedIn + Others(ids, t.id))
    else t
  }

  function MarkedTables(tables: seq<Table>, reg: Registry): seq<Table> {
    seq(|tables|, i requires 0 <= i < |tables| => Marked(tables, reg, tables[i]))
  }

  function ConformedPlaces(tables: seq<Table>, n: nat): set<nat>
    requires n <= |tables|
  {
    set i: nat | i < n && IsConformed(tables, tables[i])
  }

  /** The registry names a table conformed exactly when two documents carry its name or it says so itself. */
  lemma NamedTwice(tables: seq<Table>, reg: Registry, t: Table)
    requires RegistryOf(tables, reg) && t in tables
    ensures t.name in reg.byName && |reg.byName[t.name]| == |IdsNamed(tables, t.name)|
  {
    assert HasId(t, t.id);
    IdsNamedAre(tables, t.name, t.id);
    assert Filed(tables, reg.byName, t.name);
    assert |multiset(reg.byName[t.name])| == |multiset(IdsNamed(tables, t.name))|;
  }

  /** A conformed table is told every other instance of its name, in byte order, and nothing else. */
  lemma MarkedInstances(tables: seq<Table>, reg: Registry, t: Table)
    requires RegistryOf(tables, reg) && t in tables && IsConformed(tables, t) && t.conformedIn == []
    ensures var told := Marked(tables, reg, t).conformedIn;
      Sorted(told, Less) && multiset(told) == multiset(IdsNamed(tables, t.name))[t.id := 0]
  {
    hide Less, DeclaresConformed, IdsNamed, Others;
    NamedTwice(tables, reg, t);
    assert Filed(tables, reg.byName, t.name);
    var ids := reg.byName[t.name];
    OthersAre(ids, t.id);
    OthersSorted(ids, t.id);
    assert [] + Others(ids, t.id) == Others(ids, t.id);
  }

  /** A table is conformed exactly when another document carries its name or it says so itself. */
  lemma ConformedWhen(tables: seq<Table>, i: nat)
    requires i < |tables|
    ensures IsConformed(tables, tables[i])
       <==> DeclaresConformed(tables[i]) || exists j :: 0 <= j < |tables| && j != i && tables[j].name == tables[i].name
  {
    hide DeclaresConformed;
    var name := tables[i].name;
    NamedPlaces(tables, name);
    var places := PlacesNamed(tables, name);
    assert i in places;
    if j :| 0 <= j < |tables| && j != i && tables[j].name == name {
      assert {i, j} <= places && |{i, j}| == 2;
      Within({i, j}, places);
    } else {
      assert places == {i};
    }
  }

  lemma {:induction false} Within(a: set<nat>, b: set<nat>)
    requires a <= b
    ensures |a| <= |b|
  {
    assert b == a + (b - a);
  }

  function PlacesNamed(tables: seq<Table>, name: string): set<nat> {
    set i: nat | i < |tables| && tables[i].name == name
  }

  lemma {:induction false} NamedPlaces(tables: seq<Table>, name: string)
    ensures |IdsNamed(tables, name)| == |PlacesNamed(tables, name)|
  {
    if tables == [] {
      assert PlacesNamed(tables, name) == {};
    } else {
      var n := |tables| - 1;
      NamedPlaces(tables[..n], name);
      assert PlacesNamed(tables, name) == PlacesNamed(tables[..n], name) + if tables[n].name == name then {n} else {};
    }
  }

  /** A document says it is conformed in its domain's label or in its kind. */
  lemma SaysConformed(t: Table)
    ensures DeclaresConformed(t)
       <==> Contains(Lower(t.domainLabel), "conformed") || Contains(Lower(t.kindRaw), "conformed")
  {
    var a, b := Lower(t.domainLabel), Lower(t.kindRaw);
    assert Lower(t.domainLabel + " " + t.kindRaw) == a + " " + b;
    hide Lower;
    forall i: nat | StartsAt(a, "conformed", i)
      ensures StartsAt(a + " " + b, "conformed", i)
    {
    }
    forall i: nat | StartsAt(b, "conformed", i)
      ensures StartsAt(a + " " + b, "conformed", |a| + 1 + i)
    {
      assert (a + " " + b)[|a| + 1..] == b;
      assert (a + " " + b)[|a| + 1 + i..|a| + 1 + i + 9] == b[i..i + 9];
    }
    forall i: nat | StartsAt(a + " " + b, "conformed", i)
      ensures Contains(a, "conformed") || Contains(b, "conformed")
    {
      NotAcross(a, b, "conformed", i);
    }
  }

  lemma BlankAcross(a: string, b: string, from: nat, to: nat)
    requires from <= to <= |a| + 1 + |b|
    ensures from <= |a| < to ==> ' ' in (a + " " + b)[from..to]
  {
    if from <= |a| < to {
      assert (a + " " + b)[from..to][|a| - from] == ' ';
    }
  }

  lemma NotAcross(a: string, b: string, word: string, i: nat)
    requires ' ' !in word && word != "" && StartsAt(a + " " + b, word, i)
    ensures Contains(a, word) || Contains(b, word)
  {
    var s := a + " " + b;
    BlankAcross(a, b, i, i + |word|);
    if i + |word| <= |a| {
      assert s[i..i + |word|] == a[i..i + |word|];
      assert StartsAt(a, word, i);
    }
    if i > |a| {
      assert s[i..i + |word|] == b[i - |a| - 1..i - |a| - 1 + |word|];
      assert StartsAt(b, word, i - |a| - 1);
    }
  }
}
