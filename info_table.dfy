/**
 * The key/value parser behind the Info panel (ParseInfoToRows in
 * src/views/info/table.go): each line of the `show info desc` reply is cut
 * at every ':' and the pieces are trimmed into one table row.
 */
module InfoTable {
  import opened Wrappers
  import opened Text
  import opened Table

  /** Every piece with its surrounding white space removed. */
  function TrimAll(parts: seq<string>): (r: seq<string>)
    ensures |r| == |parts|
    ensures forall k :: 0 <= k < |r| ==> r[k] == TrimSpace(parts[k])
  {
    if parts == [] then [] else [TrimSpace(parts[0])] + TrimAll(parts[1..])
  }

  /** The row one line contributes: none for a blank line or a line without ':'. */
  function LineRow(line: string): (r: Option<Row>)
    ensures r.Some? <==> !AllSpace(line) && ':' in line
    ensures r.Some? ==> |r.value| == Count(line, ':') + 1 && |r.value| >= 2
  {
    CountPositive(line, ':');
    TrimSpaceEmpty(line);
    if TrimSpace(line) == "" then None
    else
      var parts := Split(line, ':');
      if |parts| < 2 then None else Some(TrimAll(parts))
  }

  /** Cell k of a line's row is piece k of the line, trimmed; so no cell starts or ends with white space. */
  lemma LineRowCells(line: string)
    requires LineRow(line).Some?
    ensures forall k :: 0 <= k < |LineRow(line).value| ==>
      LineRow(line).value[k] == TrimSpace(Split(line, ':')[k]) && Trimmed(LineRow(line).value[k])
  {
    var parts := Split(line, ':');
    var row := TrimAll(parts);
    assert LineRow(line) == Some(row);
    forall k | 0 <= k < |row|
      ensures row[k] == TrimSpace(parts[k]) && Trimmed(row[k])
    {
    }
  }

  /** The rows of a sequence of lines. */
  function RowsOf(lines: seq<string>): seq<Row>
  {
    Keep(lines, LineRow)
  }

  /** ParseInfoToRows as a value. */
  function InfoRows(info: string): seq<Row>
  {
    RowsOf(Split(info, '\n'))
  }

  /** ParseInfoToRows: the loop over the lines, filling each row cell by cell. */
  method ParseInfoToRows(info: string) returns (rows: seq<Row>)
    ensures rows == InfoRows(info)
  {
    var lines := Split(info, '\n');
    rows := [];
    for k := 0 to |lines|
      invariant rows == RowsOf(lines[..k])
    {
      RowsOfPrefix(lines, k);
      var line := lines[k];
      if TrimSpace(line) == "" {
        assert LineRow(line) == None;
        continue;
      }
      var parts := Split(line, ':');
      if |parts| < 2 {
        assert LineRow(line) == None;
        continue;
      }
      var trimmedParts := TrimParts(parts);
      assert LineRow(line) == Some(TrimAll(parts));
      rows := rows + [trimmedParts[..]];
    }
    assert lines[..|lines|] == lines;
  }

  /** The inner loop of ParseInfoToRows: a fresh array of the trimmed pieces. */
  method TrimParts(parts: seq<string>) returns (trimmedParts: array<string>)
    ensures fresh(trimmedParts)
    ensures trimmedParts[..] == TrimAll(parts)
  {
    trimmedParts := new string[|parts|];
    for i := 0 to |parts|
      invariant forall j :: 0 <= j < i ==> trimmedParts[j] == TrimSpace(parts[j])
    {
      trimmedParts[i] := TrimSpace(parts[i]);
    }
  }

  /** One more line adds exactly that line's rows. */
  lemma RowsOfPrefix(lines: seq<string>, k: nat)
    requires k < |lines|
    ensures RowsOf(lines[..k + 1]) == RowsOf(lines[..k]) + Emitted(LineRow(lines[k]))
  {
    assert lines[..k + 1][..k] == lines[..k];
  }

  // ---------------------------------------------------------------------
  // Properties

  /** Never more rows than lines; each row has at least two clean cells and is the row of one of the lines. */
  lemma RowsOfShape(lines: seq<string>)
    ensures |RowsOf(lines)| <= |lines|
    ensures forall r :: r in RowsOf(lines) ==>
      |r| >= 2 && (forall k :: 0 <= k < |r| ==> Trimmed(r[k])) &&
      exists line :: line in lines && LineRow(line) == Some(r)
  {
    KeepShape(lines, LineRow);
    forall r | r in RowsOf(lines)
      ensures |r| >= 2 && forall k :: 0 <= k < |r| ==> Trimmed(r[k])
    {
      var line :| line in lines && LineRow(line) == Some(r);
      LineRowCells(line);
    }
  }

  /** Lines that give no row (blank, or without ':') may be dropped without changing the rows. */
  lemma RowsOfSkipsSilentLines(a: seq<string>, line: string, b: seq<string>)
    requires AllSpace(line) || ':' !in line
    ensures RowsOf(a + [line] + b) == RowsOf(a + b)
  {
    assert LineRow(line) == None;
    KeepSkip(a, line, b, LineRow);
    KeepAppend(a, b, LineRow);
  }

  /** A reply of one line without a newline gives that line's row, if any. */
  lemma InfoRowsOneLine(line: string)
    requires '\n' !in line
    ensures InfoRows(line) == Emitted(LineRow(line))
  {
    SplitWithoutSep(line, '\n');
    assert [line][..0] == [];
  }

  /** Joining two replies with a newline concatenates their rows. */
  lemma InfoRowsConcat(a: string, b: string)
    ensures InfoRows(a + "\n" + b) == InfoRows(a) + InfoRows(b)
  {
    SplitConcat(a, b, '\n');
    KeepAppend(Split(a, '\n'), Split(b, '\n'), LineRow);
  }

  /** A trailing newline adds no row. */
  lemma InfoRowsTrailingNewline(info: string)
    ensures InfoRows(info + "\n") == InfoRows(info)
  {
    InfoRowsConcat(info, "");
    assert info + "\n" + "" == info + "\n";
    InfoRowsOneLine("");
  }

  /** A line with pieces p (at least two, none holding ':') joined by ':' gives the trimmed pieces. */
  lemma LineRowOfPieces(p: seq<string>)
    requires |p| >= 2 && forall k :: 0 <= k < |p| ==> ':' !in p[k]
    ensures LineRow(Join(p, ':')) == Some(TrimAll(p))
  {
    var line := Join(p, ':');
    SplitJoin(p, ':');
    CountPositive(line, ':');
    assert !IsSpace(':');
  }
}
