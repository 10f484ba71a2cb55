/**
 * The parts of the bubbles table and viewport components that the client
 * sets: which columns the table shows, its rows and height, and the size and
 * content of the viewport. Cursor, styles and rendering are not modelled.
 */
module Table {
  import opened Wrappers

  /** A table row: one cell per column. */
  type Row = seq<string>

  /** The column set a table was created with. */
  datatype Columns = StatsColumns | InfoColumns

  datatype TableState = TableState(columns: Columns, rows: seq<Row>, height: int)

  datatype ViewportState = ViewportState(width: int, height: int, content: string)

  /** Every table starts 20 lines high. */
  const DefaultHeight := 20

  /** stats.InitializeTable: the ten stats columns, no rows. */
  function NewStatsTable(): TableState
  {
    TableState(StatsColumns, [], DefaultHeight)
  }

  /** info.InitializeTable: Name, Value and Description columns, no rows. */
  function NewInfoTable(): TableState
  {
    TableState(InfoColumns, [], DefaultHeight)
  }

  // ---------------------------------------------------------------------
  // Building rows line by line

  /** The rows that rowOf gives for a sequence of lines, in line order, lines without a row left out. */
  function Keep(lines: seq<string>, rowOf: string -> Option<Row>): seq<Row>
  {
    if lines == [] then [] else Keep(lines[..|lines| - 1], rowOf) + Emitted(rowOf(lines[|lines| - 1]))
  }

  /** A row, or nothing. */
  function Emitted(r: Option<Row>): seq<Row>
  {
    match r
    case Some(row) => [row]
    case None => []
  }

  /** The rows of two runs of lines are the rows of the first, then those of the second. */
  lemma {:induction false} KeepAppend(a: seq<string>, b: seq<string>, rowOf: string -> Option<Row>)
    ensures Keep(a + b, rowOf) == Keep(a, rowOf) + Keep(b, rowOf)
  {
    if b != [] {
      var c := a + b;
      assert c[..|c| - 1] == a + b[..|b| - 1];
      assert c[|c| - 1] == b[|b| - 1];
      KeepAppend(a, b[..|b| - 1], rowOf);
      calc {
        Keep(c, rowOf);
        Keep(a + b[..|b| - 1], rowOf) + Emitted(rowOf(b[|b| - 1]));
        Keep(a, rowOf) + Keep(b[..|b| - 1], rowOf) + Emitted(rowOf(b[|b| - 1]));
      }
    } else {
      assert a + b == a;
    }
  }

  /** A line without a row may be dropped without changing the rows. */
  lemma KeepSkip(a: seq<string>, line: string, b: seq<string>, rowOf: string -> Option<Row>)
    requires rowOf(line) == None
    ensures Keep(a + [line] + b, rowOf) == Keep(a, rowOf) + Keep(b, rowOf)
  {
    KeepAppend(a + [line], b, rowOf);
    assert (a + [line])[..|a|] == a;
  }

  /** Lines none of which has a row give no rows. */
  lemma {:induction false} KeepNone(lines: seq<string>, rowOf: string -> Option<Row>)
    requires forall k :: 0 <= k < |lines| ==> rowOf(lines[k]) == None
    ensures Keep(lines, rowOf) == []
  {
    if lines != [] {
      KeepNone(lines[..|lines| - 1], rowOf);
    }
  }

  /** Lines that all have a row give one row each, in order. */
  lemma {:induction false} KeepAll(lines: seq<string>, rowOf: string -> Option<Row>)
    requires forall k :: 0 <= k < |lines| ==> rowOf(lines[k]).Some?
    ensures |Keep(lines, rowOf)| == |lines|
    ensures forall k :: 0 <= k < |lines| ==> Keep(lines, rowOf)[k] == rowOf(lines[k]).value
  {
    if lines != [] {
      var init := lines[..|lines| - 1];
      assert forall k :: 0 <= k < |init| ==> init[k] == lines[k];
      KeepAll(init, rowOf);
    }
  }

  /** Never more rows than lines, and every row is the row of one of the lines. */
  lemma {:induction false} KeepShape(lines: seq<string>, rowOf: string -> Option<Row>)
    ensures |Keep(lines, rowOf)| <= |lines|
    ensures forall r :: r in Keep(lines, rowOf) ==> exists line :: line in lines && rowOf(line) == Some(r)
  {
    if lines != [] {
      var init := lines[..|lines| - 1];
      KeepShape(init, rowOf);
      forall r | r in Keep(lines, rowOf)
        ensures exists line :: line in lines && rowOf(line) == Some(r)
      {
        if r in Keep(init, rowOf) {
          var line :| line in init && rowOf(line) == Some(r);
          assert line in lines;
        } else {
          assert rowOf(lines[|lines| - 1]) == Some(r);
        }
      }
    }
  }
}
