/** Rows of markdown pipe tables, with backslash escapes. */
module TableRows {
  import opened Text

  /** The cells from here on, given the text of the current one and whether a backslash has just been read. */
  function Scan(s: string, cell: string, escaped: bool): (cells: seq<string>) {
    if s == "" then [TrimSpace(cell)]
    else if escaped then Scan(s[1..], cell + [s[0]], false)
    else if s[0] == '\\' then Scan(s[1..], cell, true)
    else if s[0] == '|' then [TrimSpace(cell)] + Scan(s[1..], "", false)
    else Scan(s[1..], cell + [s[0]], false)
  }

  function TrimPrefix(s: string, c: char): string {
    if s != "" && s[0] == c then s[1..] else s
  }

  function TrimSuffix(s: string, c: char): string {
    if s != "" && s[|s| - 1] == c then s[..|s| - 1] else s
  }

  /** What is between the outer pipes. */
  function Inner(line: string): string {
    TrimSuffix(TrimPrefix(TrimSpace(line), '|'), '|')
  }

  function Row(line: string): seq<string> {
    Scan(Inner(line), "", false)
  }

  /** Splits a row into trimmed cells; a backslash takes the next character as it is. */
  method SplitRow(line: string) returns (cells: seq<string>)
    ensures cells == Row(line)
  {
    hide TrimSpace;
    var text := Inner(line);
    cells := [];
    var cell, escaped := "", false;
    for i := 0 to |text|
      invariant cells + Scan(text[i..], cell, escaped) == Scan(text, "", false)
    {
      var c := text[i];
      ghost var rest := text[i..];
      assert rest[0] == c && rest[1..] == text[i + 1..];
      if escaped {
        cell, escaped := cell + [c], false;
      } else if c == '\\' {
        escaped := true;
      } else if c == '|' {
        assert cells + ([TrimSpace(cell)] + Scan(rest[1..], "", false))
          == (cells + [TrimSpace(cell)]) + Scan(rest[1..], "", false);
        cells, cell := cells + [TrimSpace(cell)], "";
      } else {
        cell := cell + [c];
      }
    }
    cells := cells + [TrimSpace(cell)];
  }

  // ---- writing rows ----

  function Escaped(cell: string): string {
    if cell == "" then "" else
      (if cell[0] == '\\' || cell[0] == '|' then ['\\', cell[0]] else [cell[0]]) + Escaped(cell[1..])
  }

  function Padded(cell: string): string {
    " " + Escaped(cell) + " "
  }

  /** Every cell with its blanks and the pipe that closes it. */
  function Closed(cells: seq<string>): string {
    if cells == [] then "" else Padded(cells[0]) + (['|'] + Closed(cells[1..]))
  }

  /** A row with outer pipes, its cells joined by " | ". */
  function Printed(cells: seq<string>): string {
    "|" + Closed(cells)
  }

  lemma ScanStep(c: char, t: string, cell: string, escaped: bool)
    ensures Scan([c] + t, cell, escaped)
         == if escaped then Scan(t, cell + [c], false)
            else if c == '\\' then Scan(t, cell, true)
            else if c == '|' then [TrimSpace(cell)] + Scan(t, "", false)
            else Scan(t, cell + [c], false)
  {
    hide TrimSpace;
    assert ([c] + t)[1..] == t;
  }

  lemma {:induction false} ScanEscaped(cell: string, rest: string, before: string)
    ensures Scan(Escaped(cell) + rest, before, false) == Scan(rest, before + cell, false)
    decreases |cell|
  {
    if cell == "" {
      assert Escaped(cell) + rest == rest && before + cell == before;
    } else {
      var c, tail := cell[0], Escaped(cell[1..]) + rest;
      hide *;
      EscapedMore(cell, rest);
      ScanEscaped(cell[1..], rest, before + [c]);
      OneOn(before, cell);
      if c == '\\' || c == '|' {
        ScanStep('\\', [c] + tail, before, false);
        ScanStep(c, tail, before, true);
      } else {
        ScanStep(c, tail, before, false);
      }
    }
  }

  lemma OneOn(before: string, cell: string)
    requires cell != ""
    ensures before + [cell[0]] + cell[1..] == before + cell
  {
  }

  lemma EscapedMore(cell: string, rest: string)
    requires cell != ""
    ensures Escaped(cell) + rest
         == if cell[0] == '\\' || cell[0] == '|' then ['\\'] + ([cell[0]] + (Escaped(cell[1..]) + rest))
                                    else [cell[0]] + (Escaped(cell[1..]) + rest)
  {
  }

  lemma TrimPadded(cell: string)
    ensures Trimmed(cell) ==> TrimSpace(" " + cell + " ") == cell
  {
    if Trimmed(cell) {
      if cell == "" {
        var lo, hi := TrimSpaceSlice("  ");
        assert Blank("  ") && " " + cell + " " == "  ";
      } else {
        var s := " " + cell + " ";
        assert s[1..] == cell + " ";
        assert (cell + " ")[..|cell|] == cell;
        assert TrimLeft(s) == TrimLeft(s[1..]) == cell + " ";
        assert TrimRight(cell + " ") == TrimRight(cell) == cell;
      }
    }
  }

  /** Reading back what is between the first pipe and the last. */
  lemma {:induction false} ScanClosed(cells: seq<string>)
    requires cells != [] && forall i | 0 <= i < |cells| :: Trimmed(cells[i])
    ensures Scan(TrimSuffix(Closed(cells), '|'), "", false) == cells
  {
    hide *;
    var c := cells[0];
    TrimPadded(c);
    ClosedMore(cells);
    if |cells| == 1 {
      ScanPadded(c, "");
      ScanEnd(" " + c + " ");
      assert cells == [c];
    } else {
      var t := TrimSuffix(Closed(cells[1..]), '|');
      ScanPadded(c, ['|'] + t);
      ScanStep('|', t, " " + c + " ", false);
      ScanClosed(cells[1..]);
      assert cells == [c] + cells[1..];
    }
  }

  lemma ScanEnd(cell: string)
    ensures Scan("", cell, false) == [TrimSpace(cell)]
  {
  }

  lemma ClosedMore(cells: seq<string>)
    requires cells != []
    ensures TrimSuffix(Closed(cells), '|')
         == Padded(cells[0]) + if |cells| == 1 then "" else ['|'] + TrimSuffix(Closed(cells[1..]), '|')
  {
    hide Padded;
    var s, rest := Padded(cells[0]), Closed(cells[1..]);
    assert Closed(cells) == s + (['|'] + rest);
    hide *;
    SuffixDropped(s, ['|'] + rest);
    if |cells| == 1 {
      NothingClosed();
      assert ['|'] + "" == "|";
    } else {
      ClosedEnds(cells[1..]);
      SuffixDropped(['|'], rest);
    }
  }

  lemma NothingClosed()
    ensures Closed([]) == "" && TrimSuffix("|", '|') == "" && forall s: string :: s + "" == s
  {
  }

  lemma SuffixDropped(s: string, t: string)
    requires t != ""
    ensures TrimSuffix(s + t, '|') == s + TrimSuffix(t, '|')
  {
    assert (s + t)[|s + t| - 1] == t[|t| - 1];
  }

  lemma ClosedEnds(cells: seq<string>)
    requires cells != []
    ensures Closed(cells) != "" && Closed(cells)[|Closed(cells)| - 1] == '|'
    decreases |cells|
  {
    if |cells| > 1 {
      ClosedEnds(cells[1..]);
    }
  }

  /** A padded cell is read up to what follows it. */
  lemma ScanPadded(c: string, rest: string)
    ensures Scan(Padded(c) + rest, "", false) == Scan(rest, " " + c + " ", false)
  {
    hide Scan, Escaped, TrimSpace;
    assert Padded(c) + rest == [' '] + (Escaped(c) + ([' '] + rest));
    assert "" + [' '] == " " && " " + c + [' '] == " " + c + " ";
    ScanStep(' ', Escaped(c) + ([' '] + rest), "", false);
    ScanEscaped(c, [' '] + rest, " ");
    ScanStep(' ', rest, " " + c, false);
  }

  lemma InnerPrinted(cells: seq<string>)
    requires cells != []
    ensures Inner(Printed(cells)) == TrimSuffix(Closed(cells), '|')
  {
    ClosedEnds(cells);
    var s := Printed(cells);
    assert s[|s| - 1] == '|' && s[1..] == Closed(cells);
    TrimmedIsFixed(s);
  }

  lemma {:induction false} ScanTrims(s: string, cell: string, escaped: bool)
    ensures Scan(s, cell, escaped) != []
    ensures forall i | 0 <= i < |Scan(s, cell, escaped)| :: Trimmed(Scan(s, cell, escaped)[i])
    decreases |s|
  {
    hide TrimSpace, Trimmed;
    CellTrimmed(cell);
    if s != "" {
      ScanTrims(s[1..], cell + [s[0]], false);
      ScanTrims(s[1..], cell, true);
      ScanTrims(s[1..], "", false);
    }
  }

  lemma CellTrimmed(cell: string)
    ensures Trimmed(TrimSpace(cell))
  {
    var lo, hi := TrimSpaceSlice(cell);
  }

  /** Printing cells and splitting the row gives them back exactly when there are some and each is trimmed. */
  lemma PrintedRowRoundTrip(cells: seq<string>)
    ensures Row(Printed(cells)) == cells <==> cells != [] && forall i | 0 <= i < |cells| :: Trimmed(cells[i])
  {
    hide Trimmed, TrimSpace, Inner, Printed;
    ScanTrims(Inner(Printed(cells)), "", false);
    if cells != [] && forall i | 0 <= i < |cells| :: Trimmed(cells[i]) {
      InnerPrinted(cells);
      ScanClosed(cells);
    }
  }

  /** Whatever a row was written like, printing its cells writes a row with the same cells. */
  lemma RowPrintedAgain(line: string)
    ensures Row(Printed(Row(line))) == Row(line)
  {
    hide Trimmed, TrimSpace, Inner;
    ScanTrims(Inner(line), "", false);
    PrintedRowRoundTrip(Row(line));
  }
}
