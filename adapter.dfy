/**
 * The admin-socket commands of src/adapter.go: the text of each server
 * command, the fixed `show` queries behind the text panels, and
 * execCommand, which sends one command and collects the reply.
 */
module Adapter {
  import opened Wrappers
  import opened Text
  import opened Decimal
  import opened Table
  import opened Socket
  import opened Tabs
  import StatsCsv
  import InfoTable

  /** The server commands the Stats tab can send. */
  datatype AdminCommand =
    | DisableServer(backend: string, server: string)
    | EnableServer(backend: string, server: string)
    | SetServerWeight(backend: string, server: string, weight: int)

  const DisablePrefix := "disable server "
  const EnablePrefix := "enable server "
  const SetPrefix := "set server "
  const WeightInfix := " weight "

  /** The command line, as fmt.Sprintf writes it with %s and %d. */
  function CommandText(c: AdminCommand): string
  {
    match c
    case DisableServer(b, s) => DisablePrefix + b + "/" + s
    case EnableServer(b, s) => EnablePrefix + b + "/" + s
    case SetServerWeight(b, s, w) => SetPrefix + b + "/" + s + WeightInfix + IntToDecimal(w)
  }

  /** Reading a command line back: the inverse of CommandText where names allow it. */
  function ParseCommand(text: string): (c: Option<AdminCommand>)
  {
    if StartsWith(text, DisablePrefix) then
      var p := SplitFirst(text[|DisablePrefix|..], '/');
      if |p| == 2 then Some(DisableServer(p[0], p[1])) else None
    else if StartsWith(text, EnablePrefix) then
      var p := SplitFirst(text[|EnablePrefix|..], '/');
      if |p| == 2 then Some(EnableServer(p[0], p[1])) else None
    else if StartsWith(text, SetPrefix) then
      var p := SplitFirst(text[|SetPrefix|..], '/');
      if |p| != 2 then None
      else
        var q := SplitFirst(p[1], ' ');
        if |q| != 2 || !StartsWith(q[1], "weight ") then None
        else
          match ParseInt(q[1][7..])
          case Some(w) => Some(SetServerWeight(p[0], q[0], w))
          case None => None
    else None
  }

  /** Names that keep a command line unambiguous: no '/' in the backend, no blank in a weighted server. */
  predicate Unambiguous(c: AdminCommand)
  {
    '/' !in c.backend && (c.SetServerWeight? ==> ' ' !in c.server)
  }

  lemma StartsWithConcat(prefix: string, rest: string)
    ensures StartsWith(prefix + rest, prefix)
    ensures (prefix + rest)[|prefix|..] == rest
  {
  }

  /** The command line determines the command: parsing it gives the command back. */
  lemma ParseCommandText(c: AdminCommand)
    requires Unambiguous(c)
    ensures ParseCommand(CommandText(c)) == Some(c)
  {
    match c
    case DisableServer(b, s) => ParseDisable(b, s);
    case EnableServer(b, s) => ParseEnable(b, s);
    case SetServerWeight(b, s, w) => ParseSetWeight(b, s, w);
  }

  lemma ParseDisable(b: string, s: string)
    requires '/' !in b
    ensures ParseCommand(CommandText(DisableServer(b, s))) == Some(DisableServer(b, s))
  {
    assert CommandText(DisableServer(b, s)) == DisablePrefix + (b + "/" + s);
    StartsWithConcat(DisablePrefix, b + "/" + s);
    SplitFirstOf(b, s, '/');
  }

  lemma ParseEnable(b: string, s: string)
    requires '/' !in b
    ensures ParseCommand(CommandText(EnableServer(b, s))) == Some(EnableServer(b, s))
  {
    var text := CommandText(EnableServer(b, s));
    assert text == EnablePrefix + (b + "/" + s);
    assert !StartsWith(text, DisablePrefix) by {
      assert text[0] != DisablePrefix[0];
    }
    StartsWithConcat(EnablePrefix, b + "/" + s);
    SplitFirstOf(b, s, '/');
  }

  lemma ParseSetWeight(b: string, s: string, w: int)
    requires '/' !in b && ' ' !in s
    ensures ParseCommand(CommandText(SetServerWeight(b, s, w))) == Some(SetServerWeight(b, s, w))
  {
    var text := CommandText(SetServerWeight(b, s, w));
    var n := IntToDecimal(w);
    var tail := s + " " + ("weight " + n);
    assert text == SetPrefix + (b + "/" + tail);
    assert !StartsWith(text, DisablePrefix) by {
      assert text[0] != DisablePrefix[0];
    }
    assert !StartsWith(text, EnablePrefix) by {
      assert text[0] != EnablePrefix[0];
    }
    StartsWithConcat(SetPrefix, b + "/" + tail);
    SplitFirstOf(b, tail, '/');
    SplitFirstOf(s, "weight " + n, ' ');
    StartsWithConcat("weight ", n);
  }

  lemma SplitFirstOf(a: string, b: string, sep: char)
    requires sep !in a
    ensures SplitFirst(a + [sep] + b, sep) == [a, b]
  {
    var parts := SplitFirst(a + [sep] + b, sep);
    assert sep in a + [sep] + b by {
      assert (a + [sep] + b)[|a|] == sep;
    }
    CutUnique(parts[0], parts[1], a, b, sep);
  }

  /** Two commands with unambiguous names never share a command line. */
  lemma CommandTextInjective(c: AdminCommand, d: AdminCommand)
    requires Unambiguous(c) && Unambiguous(d)
    requires CommandText(c) == CommandText(d)
    ensures c == d
  {
    ParseCommandText(c);
    ParseCommandText(d);
  }

  // ---------------------------------------------------------------------
  // execCommand

  /** The reply text: every line read, each followed by a newline. */
  function ReplyText(lines: seq<string>): string
  {
    if lines == [] then "" else ReplyText(lines[..|lines| - 1]) + lines[|lines| - 1] + "\n"
  }

  /** What execCommand returns for a reply; a read error ends the reply without being reported. */
  function ExecResult(reply: Reply): (text: string)
    ensures reply.DialFailed? ==> StartsWith(text, "Error: ")
  {
    match reply
    case DialFailed(reason) => "Error: " + reason
    case Response(lines, _) => ReplyText(lines)
  }

  /**
   * execCommand: write the command and a newline, then append each line
   * read, with its newline. A failed dial becomes text, never an error.
   */
  method ExecCommand(command: string, reply: Reply) returns (request: string, text: string)
    ensures request == (if reply.DialFailed? then "" else command + "\n")
    ensures text == ExecResult(reply)
  {
    if reply.DialFailed? {
      return "", "Error: " + reply.reason;
    }
    request := command + "\n";
    var lines := reply.lines;
    var result := "";
    for k := 0 to |lines|
      invariant result == ReplyText(lines[..k])
    {
      assert lines[..k + 1][..k] == lines[..k];
      result := result + (lines[k] + "\n");
    }
    assert lines[..|lines|] == lines;
    text := result;
  }

  /** A reply text is its first line, a newline, then the text of the other lines. */
  lemma {:induction false} ReplyTextCons(lines: seq<string>)
    requires lines != []
    ensures ReplyText(lines) == lines[0] + "\n" + ReplyText(lines[1..])
  {
    if |lines| > 1 {
      var init := lines[..|lines| - 1];
      ReplyTextCons(init);
      assert init[1..] == lines[1..][..|lines| - 2];
    }
  }

  /** Cutting a reply text at its newlines gives the lines back, plus the empty piece after the last newline. */
  lemma {:induction false} SplitReplyText(lines: seq<string>)
    requires forall k :: 0 <= k < |lines| ==> '\n' !in lines[k]
    ensures Split(ReplyText(lines), '\n') == lines + [""]
  {
    if lines != [] {
      ReplyTextCons(lines);
      SplitReplyText(lines[1..]);
      SplitConcat(lines[0], ReplyText(lines[1..]), '\n');
      SplitWithoutSep(lines[0], '\n');
      assert lines == [lines[0]] + lines[1..];
    }
  }

  /** The info table built from a reply text has one row per line that has one. */
  lemma InfoRowsOfReply(lines: seq<string>)
    requires forall k :: 0 <= k < |lines| ==> '\n' !in lines[k]
    ensures InfoTable.InfoRows(ReplyText(lines)) == InfoTable.RowsOf(lines)
  {
    SplitReplyText(lines);
    KeepAppend(lines, [""], InfoTable.LineRow);
    assert InfoTable.LineRow("") == None;
    assert [""][..0] == [];
  }

  // ---------------------------------------------------------------------
  // The fetchers and the server commands

  /** The panels that have a `show` query of their own. */
  predicate Queried(p: Panel)
  {
    p == Info || p == Errors || p == Pools || p == Sessions
  }

  /** The query behind each text panel. */
  function ShowCommand(p: Panel): (q: string)
    requires Queried(p)
    ensures StartsWith(q, "show ")
  {
    match p
    case Info => "show info desc"
    case Errors => "show errors"
    case Pools => "show pools"
    case Sessions => "show sess"
  }

  /** fetchInfo, fetchErrors, fetchPools, fetchSessions: the query's reply, unchanged, for panel p. */
  method FetchPanel(p: Panel, reply: Reply) returns (request: string, panel: Panel, text: string)
    requires Queried(p)
    ensures request == (if reply.DialFailed? then "" else ShowCommand(p) + "\n")
    ensures panel == p && text == ExecResult(reply)
  {
    request, text := ExecCommand(ShowCommand(p), reply);
    panel := p;
  }

  /**
   * disableServer, enableServer, setServerWeight: send the command, ignore
   * its reply, then fetch the stats; the message is that fetch's result.
   */
  method RunServerCommand(c: AdminCommand, commandReply: Reply, statsReply: Reply)
    returns (requests: seq<string>, result: Result<seq<Row>, string>)
    ensures requests ==
      (if commandReply.DialFailed? then [] else [CommandText(c) + "\n"]) +
      (if statsReply.DialFailed? then [] else [StatsCsv.ShowStat])
    ensures result == StatsCsv.StatsResult(statsReply)
  {
    var sent, _ := ExecCommand(CommandText(c), commandReply);
    var statsSent;
    statsSent, result := StatsCsv.FetchStats(statsReply);
    requests := (if sent == "" then [] else [sent]) + (if statsSent == "" then [] else [statsSent]);
  }
}
