/**
 * The `show stat` reply of HAProxy's admin socket turned into table rows
 * (fetchStats in src/main.go). The reply is CSV: a header line, then one
 * record per proxy or server; the client keeps ten of its columns.
 */
module StatsCsv {
  import opened Wrappers
  import opened Text
  import opened Table
  import Format
  import opened Socket

  /** Records with fewer fields than this are dropped. */
  const MinFields := 80

  // Positions of the kept fields in a record, per section 9.1 "CSV format"
  // of the HAProxy management guide.
  const PxName := 0
  const SvName := 1
  const Scur := 4
  const Smax := 5
  const Stot := 7
  const Bin := 8
  const Bout := 9
  const Econ := 13
  const Status := 17
  const Weight := 18

  /** A line with enough fields to be a record. */
  predicate Wide(line: string)
  {
    |Split(line, ',')| >= MinFields
  }

  /**
   * The ten cells shown for one record, given its two byte counts already
   * rendered: name, server, status, current, maximum and total sessions,
   * bytes in and out, errors and weight.
   */
  function Cells(fields: seq<string>, bytesIn: string, bytesOut: string): Row
    requires |fields| >= MinFields
  {
    [ fields[PxName], fields[SvName], fields[Status], fields[Scur], fields[Smax], fields[Stot],
      bytesIn, bytesOut, fields[Econ], fields[Weight] ]
  }

  /** The row of a record: its ten cells, with the byte counts rendered by formatBytes. */
  function Project(fields: seq<string>): Row
    requires |fields| >= MinFields
  {
    Cells(fields, Format.FormatBytesText(fields[Bin]), Format.FormatBytesText(fields[Bout]))
  }

  // ---------------------------------------------------------------------
  // What the loop computes, stated without the loop

  /** The lines that are not exactly empty, in order. */
  function NonEmpty(lines: seq<string>): seq<string>
  {
    if lines == [] then []
    else
      var last := lines[|lines| - 1];
      NonEmpty(lines[..|lines| - 1]) + (if last == "" then [] else [last])
  }

  /** The non-empty lines after the first one, which is the header. */
  function DataLines(lines: seq<string>): seq<string>
  {
    var ne := NonEmpty(lines);
    if ne == [] then [] else ne[1..]
  }

  /** The row of a wide line; none for a narrow one. */
  function RecordRow(line: string): Option<Row>
  {
    var fields := Split(line, ',');
    if |fields| >= MinFields then Some(Project(fields)) else None
  }

  /** The rows of the wide lines, in order; the others are dropped. */
  function Records(lines: seq<string>): seq<Row>
  {
    Keep(lines, RecordRow)
  }

  /** The rows fetchStats returns for a complete reply. */
  function StatsRows(lines: seq<string>): seq<Row>
  {
    Records(DataLines(lines))
  }

  // ---------------------------------------------------------------------
  // fetchStats

  /**
   * The message fetchStats returns: the dial error, the read error, or the
   * rows. A read error discards every row read before it.
   */
  function StatsResult(reply: Reply): (r: Result<seq<Row>, string>)
    ensures r.Success? <==> reply.Response? && reply.readError.None?
    ensures r.Failure? ==> r.error == (if reply.DialFailed? then reply.reason else reply.readError.value)
  {
    match reply
    case DialFailed(reason) => Failure(reason)
    case Response(lines, readError) =>
      if readError.Some? then Failure(readError.value) else Success(StatsRows(lines))
  }

  /** The request fetchStats writes, if it could connect. */
  const ShowStat := "show stat\n"

  /**
   * fetchStats: send `show stat`, then read the reply line by line: skip
   * empty lines, drop the first remaining one as the header, drop records
   * with fewer than 80 fields and keep ten columns of the others.
   */
  method FetchStats(reply: Reply) returns (request: string, result: Result<seq<Row>, string>)
    ensures request == (if reply.DialFailed? then "" else ShowStat)
    ensures result == StatsResult(reply)
  {
    if reply.DialFailed? {
      return "", Failure(reply.reason);
    }
    request := ShowStat;
    var lines := reply.lines;
    var rows: seq<Row> := [];
    var first := true;
    for k := 0 to |lines|
      invariant first <==> NonEmpty(lines[..k]) == []
      invariant rows == Records(DataLines(lines[..k]))
    {
      DataLinesSnoc(lines, k);
      var line := lines[k];
      if line == "" {
        continue;
      }
      if first {
        first := false;
        continue;
      }
      var fields := Split(line, ',');
      RecordsSnoc(DataLines(lines[..k]), line);
      if |fields| < MinFields {
        assert RecordRow(line) == None;
        continue;
      }
      var row := [ fields[0], fields[1], fields[17], fields[4], fields[5], fields[7],
                   Format.FormatBytesText(fields[8]), Format.FormatBytesText(fields[9]),
                   fields[13], fields[18] ];
      assert RecordRow(line) == Some(row);
      rows := rows + [row];
    }
    assert lines[..|lines|] == lines;
    if reply.readError.Some? {
      return request, Failure(reply.readError.value);
    }
    result := Success(rows);
  }

  /** One more line adds its row, if it has one. */
  lemma RecordsSnoc(lines: seq<string>, line: string)
    ensures Records(lines + [line]) == Records(lines) + Emitted(RecordRow(line))
  {
    assert (lines + [line])[..|lines|] == lines;
  }

  /** One more line: an empty line changes nothing, the first non-empty one is the header, later ones are data. */
  lemma DataLinesSnoc(lines: seq<string>, k: nat)
    requires k < |lines|
    ensures NonEmpty(lines[..k + 1]) == NonEmpty(lines[..k]) + (if lines[k] == "" then [] else [lines[k]])
    ensures DataLines(lines[..k + 1]) ==
      if lines[k] == "" || NonEmpty(lines[..k]) == [] then DataLines(lines[..k])
      else DataLines(lines[..k]) + [lines[k]]
  {
    assert lines[..k + 1][..k] == lines[..k];
    var ne := NonEmpty(lines[..k]);
    if lines[k] != "" && ne != [] {
      assert (ne + [lines[k]])[1..] == ne[1..] + [lines[k]];
    }
  }

  // ---------------------------------------------------------------------
  // Properties

  lemma {:induction false} NonEmptyAppend(a: seq<string>, b: seq<string>)
    ensures NonEmpty(a + b) == NonEmpty(a) + NonEmpty(b)
  {
    if b == [] {
      assert a + b == a;
    } else {
      assert (a + b)[..|a + b| - 1] == a + b[..|b| - 1];
      NonEmptyAppend(a, b[..|b| - 1]);
    }
  }

  /** Lines that are exactly empty are skipped: they never count as the header and never give a row. */
  lemma EmptyLineSkipped(a: seq<string>, b: seq<string>)
    ensures StatsRows(a + [""] + b) == StatsRows(a + b)
  {
    NonEmptyAppend(a + [""], b);
    NonEmptyAppend(a, [""]);
    NonEmptyAppend(a, b);
    assert [""][..0] == [];
    assert NonEmpty([""]) == [];
    assert NonEmpty(a + [""] + b) == NonEmpty(a + b);
  }

  /**
   * After any number of empty lines, the first non-empty line is dropped
   * whatever it holds; every later line gives its row if it is wide enough.
   */
  lemma HeaderSkipped(blanks: seq<string>, header: string, rest: seq<string>)
    requires forall k :: 0 <= k < |blanks| ==> blanks[k] == ""
    requires header != ""
    ensures StatsRows(blanks + [header] + rest) == Records(NonEmpty(rest))
  {
    NonEmptyBlanks(blanks);
    NonEmptyAppend(blanks + [header], rest);
    NonEmptyAppend(blanks, [header]);
    assert [header][..0] == [];
    assert NonEmpty([header]) == [header];
    assert NonEmpty(blanks + [header] + rest) == [header] + NonEmpty(rest);
  }

  lemma {:induction false} NonEmptyBlanks(blanks: seq<string>)
    requires forall k :: 0 <= k < |blanks| ==> blanks[k] == ""
    ensures NonEmpty(blanks) == []
  {
    if blanks != [] {
      NonEmptyBlanks(blanks[..|blanks| - 1]);
    }
  }

  /** A record with fewer than 80 fields gives no row and does not disturb the order of the others. */
  lemma NarrowRecordDropped(a: seq<string>, line: string, b: seq<string>)
    requires !Wide(line)
    ensures Records(a + [line] + b) == Records(a) + Records(b)
  {
    assert RecordRow(line) == None;
    KeepSkip(a, line, b, RecordRow);
  }

  /** r is the row shown for line. */
  predicate RowOf(line: string, r: Row)
  {
    var f := Split(line, ',');
    |f| >= MinFields && r == Project(f)
  }

  /** A row has ten cells: fields 0, 1, 17, 4, 5 and 7, the two byte counts, then fields 13 and 18. */
  lemma CellsLayout(fields: seq<string>, bytesIn: string, bytesOut: string)
    requires |fields| >= MinFields
    ensures var r := Cells(fields, bytesIn, bytesOut);
      && |r| == 10
      && r[0] == fields[0] && r[1] == fields[1] && r[2] == fields[17] && r[3] == fields[4]
      && r[4] == fields[5] && r[5] == fields[7] && r[6] == bytesIn && r[7] == bytesOut
      && r[8] == fields[13] && r[9] == fields[18]
  {
  }

  /** Each row of a reply comes from a non-empty data line with at least 80 fields; never more rows than data lines. */
  lemma StatsRowsShape(lines: seq<string>)
    ensures |StatsRows(lines)| <= |DataLines(lines)|
    ensures forall r :: r in StatsRows(lines) ==>
      exists line :: line in DataLines(lines) && line != "" && RowOf(line, r)
  {
    KeepShape(DataLines(lines), RecordRow);
    NonEmptyHasNoEmpty(lines);
    forall r | r in StatsRows(lines)
      ensures exists line :: line in DataLines(lines) && line != "" && RowOf(line, r)
    {
      var line :| line in DataLines(lines) && RecordRow(line) == Some(r);
      assert RowOf(line, r);
    }
  }

  /**
   * A header followed by wide, non-empty records gives exactly one row per
   * record, in order, whatever the header holds.
   */
  lemma AllWideRows(header: string, rest: seq<string>)
    requires header != ""
    requires forall k :: 0 <= k < |rest| ==> rest[k] != "" && Wide(rest[k])
    ensures |StatsRows([header] + rest)| == |rest|
    ensures forall k :: 0 <= k < |rest| ==> RowOf(rest[k], StatsRows([header] + rest)[k])
  {
    HeaderThenRecords(header, rest);
    assert StatsRows([header] + rest) == Records(rest);
    KeepAll(rest, RecordRow);
    forall k | 0 <= k < |rest|
      ensures RowOf(rest[k], Records(rest)[k])
    {
      assert Wide(rest[k]);
    }
  }

  lemma HeaderThenRecords(header: string, rest: seq<string>)
    requires header != ""
    requires forall k :: 0 <= k < |rest| ==> rest[k] != ""
    ensures DataLines([header] + rest) == rest
  {
    NonEmptyAppend([header], rest);
    assert [header][..0] == [];
    assert NonEmpty([header]) == [header];
    NonEmptyKeepsAll(rest);
  }

  /** Lines none of which is empty pass the non-empty filter unchanged. */
  lemma {:induction false} NonEmptyKeepsAll(lines: seq<string>)
    requires forall k :: 0 <= k < |lines| ==> lines[k] != ""
    ensures NonEmpty(lines) == lines
  {
    if lines != [] {
      var init := lines[..|lines| - 1];
      assert forall k :: 0 <= k < |init| ==> init[k] == lines[k];
      NonEmptyKeepsAll(init);
      assert init + [lines[|lines| - 1]] == lines;
    }
  }

  lemma NonEmptyHasNoEmpty(lines: seq<string>)
    ensures forall line :: line in DataLines(lines) ==> line != ""
  {
    NoEmptyLeft(lines);
    forall line | line in DataLines(lines)
      ensures line != ""
    {
      assert line in NonEmpty(lines);
    }
  }

  lemma {:induction false} NoEmptyLeft(lines: seq<string>)
    ensures forall line :: line in NonEmpty(lines) ==> line != "" && line in lines
  {
    if lines != [] {
      NoEmptyLeft(lines[..|lines| - 1]);
    }
  }

  /** A reply none of whose lines has 80 fields gives no row at all. */
  lemma NarrowReplyNoRows(lines: seq<string>)
    requires forall k :: 0 <= k < |lines| ==> !Wide(lines[k])
    ensures StatsRows(lines) == []
  {
    NoEmptyLeft(lines);
    var data := DataLines(lines);
    forall k | 0 <= k < |data|
      ensures RecordRow(data[k]) == None
    {
      assert data[k] in NonEmpty(lines);
      var i :| 0 <= i < |lines| && lines[i] == data[k];
      assert !Wide(lines[i]);
    }
    KeepNone(data, RecordRow);
  }

  /** The four-line reply of the fetchStats test (a header and three records of four fields) gives no row. */
  lemma MockReplyNoRows()
    ensures StatsRows(["# pxname,svname,status,weight", "backend1,FRONTEND,OPEN,",
                       "backend1,server1,UP,100", "backend1,BACKEND,UP,"]) == []
  {
    var lines := ["# pxname,svname,status,weight", "backend1,FRONTEND,OPEN,",
                  "backend1,server1,UP,100", "backend1,BACKEND,UP,"];
    forall k | 0 <= k < |lines|
      ensures !Wide(lines[k])
    {
      CountBound(lines[k], ',');
    }
    NarrowReplyNoRows(lines);
  }

  lemma {:induction false} CountBound(s: string, c: char)
    ensures Count(s, c) <= |s|
  {
    if s != [] {
      CountBound(s[1..], c);
    }
  }
}
