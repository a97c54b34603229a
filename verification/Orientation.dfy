/** Which of the two names of a join is whose, by the columns both tables have. */
module Orientation {
  import opened Models

  function ColumnNames(t: Table): set<string> {
    set c | c in t.columns :: c.name
  }

  /** The columns of a join, the declaring table's first, and whether the columns settled it. */
  datatype Oriented = Oriented(ownerColumn: string, otherColumn: string, settled: bool)

  function OrientJoinKey(left: string, right: string, owner: set<string>, other: set<string>): Oriented {
    if left == "" || right == "" then Oriented(left, right, false)
    else if left == right then Oriented(left, right, true)
    else
      var leftOwner, rightOther, leftOther, rightOwner := left in owner, right in other, left in other, right in owner;
      if leftOwner && rightOther && !(leftOther && rightOwner) then Oriented(left, right, true)
      else if leftOther && rightOwner && !(leftOwner && rightOther) then Oriented(right, left, true)
      else if leftOwner && rightOther then Oriented(left, right, true)
      else if leftOwner then Oriented(left, right, true)
      else if rightOwner then Oriented(right, left, true)
      else Oriented(left, right, false)
  }

  /** a is a column of the one table and b of the other. */
  predicate Assigns(a: string, b: string, owner: set<string>, other: set<string>) {
    a in owner && b in other
  }

  /** The names are kept; whenever some reading fits both tables the one chosen does; and the columns settle two
      names exactly when they are equal or the declaring table documents one of them, which then comes first. The
      names change places exactly when only the other way fits, or none does and only the second is a column of the
      declaring table. */
  lemma OrientedFits(left: string, right: string, owner: set<string>, other: set<string>)
    ensures var o := OrientJoinKey(left, right, owner, other);
      && multiset{o.ownerColumn, o.otherColumn} == multiset{left, right}
      && (left != "" && right != "" && left != right
          && (Assigns(left, right, owner, other) || Assigns(right, left, owner, other))
          ==> Assigns(o.ownerColumn, o.otherColumn, owner, other))
      && (o.settled <==> left != "" && right != "" && (left == right || left in owner || right in owner))
      && (o.settled && left != right ==> o.ownerColumn in owner)
      && (o.ownerColumn == right && left != right <==>
            left != "" && right != "" && left != right
            && (if Assigns(left, right, owner, other) then false
                else Assigns(right, left, owner, other) || (left !in owner && right in owner)))
  {
  }

  /** A join seen from the side of many: its column, then the other's. */
  function FromMany(written: (string, string), many: set<string>, one: set<string>): (string, string) {
    var o := OrientJoinKey(written.0, written.1, many, one);
    (o.ownerColumn, o.otherColumn)
  }

  /** The same join declared by the other table, turned round. */
  function FromOne(written: (string, string), many: set<string>, one: set<string>): (string, string) {
    var o := OrientJoinKey(written.0, written.1, one, many);
    (o.otherColumn, o.ownerColumn)
  }

  predicate Determined(a: string, b: string, many: set<string>, one: set<string>) {
    a == b || (a != "" && b != "" && Assigns(a, b, many, one) != Assigns(b, a, many, one))
  }

  /** All four writings of a join, on either table and in either order, name the same columns exactly when the names
      are equal or just one assignment of them to the two tables fits; then that assignment is the one named. */
  lemma WritingsCollapse(a: string, b: string, many: set<string>, one: set<string>)
    ensures FromMany((a, b), many, one) == FromMany((b, a), many, one)
         == FromOne((a, b), many, one) == FromOne((b, a), many, one)
       <==> Determined(a, b, many, one)
    ensures a != b && Determined(a, b, many, one) ==>
      FromMany((a, b), many, one) == if Assigns(a, b, many, one) then (a, b) else (b, a)
  {
  }

  /** On one table alone, the order written is immaterial exactly when the names are equal, just one assignment fits,
      or none fits and the table documents just one of them. */
  lemma OrderImmaterial(a: string, b: string, owner: set<string>, other: set<string>)
    ensures FromMany((a, b), owner, other) == FromMany((b, a), owner, other)
       <==> Determined(a, b, owner, other)
            || (a != "" && b != "" && !Assigns(a, b, owner, other) && !Assigns(b, a, owner, other)
                && (a in owner) != (b in owner))
  {
  }

  /** Neither name is a column of either table, as the diagnostic of an unsettled join says. */
  predicate NamesNeither(left: string, right: string, owner: set<string>, other: set<string>) {
    left !in owner + other && right !in owner + other
  }

  /** Of a join left unsettled, the diagnostic is right exactly when neither side names a column of the other table
      and, where one side is missing, the side there is names no column of the declaring table either. */
  lemma UnmatchedMessage(left: string, right: string, owner: set<string>, other: set<string>)
    requires !OrientJoinKey(left, right, owner, other).settled
    ensures NamesNeither(left, right, owner, other)
       <==> left !in other && right !in other && (left == "" || right == "" ==> left !in owner && right !in owner)
  {
  }

  /** It can be wrong: "x" is a column of the other table, and the join stays unsettled all the same. */
  lemma UnmatchedMessageWrong()
    ensures !OrientJoinKey("x", "y", {}, {"x"}).settled && !NamesNeither("x", "y", {}, {"x"})
  {
    assert "x"[0] != "y"[0];
  }

  /** So it is of a key that is one column name, even one the declaring table documents: such a key is never
      settled. */
  lemma OneNameNeverSettled(name: string, owner: set<string>, other: set<string>)
    ensures !OrientJoinKey(name, "", owner, other).settled
    ensures name in owner ==> !NamesNeither(name, "", owner, other)
  {
  }
}
