/**
 * The root main.go: the first snapshot of the client, with five tabs and
 * no status message. Its fetchStats rewrites the status column through a
 * branch on UP and DOWN, its parseInfoToRows cuts each line at the first
 * ':' only, and its Update applies every stats reply and moves between
 * tabs without rebuilding the table or fetching anything.
 */
module RootMain {
  import opened Wrappers
  import opened Text
  import opened Table
  import opened Tabs
  import opened Socket
  import opened Adapter
  import opened Messages
  import StatsCsv
  import InfoTable
  import Format

  // ---------------------------------------------------------------------
  // fetchStats

  /**
   * fetchStats with the status branch: UP stays UP, DOWN stays DOWN and
   * anything else is kept as it is, so the rows are exactly those of the
   * later version in src/main.go.
   */
  method FetchStats(reply: Reply) returns (request: string, result: Result<seq<Row>, string>)
    ensures request == (if reply.DialFailed? then "" else StatsCsv.ShowStat)
    ensures result == StatsCsv.StatsResult(reply)
  {
    if reply.DialFailed? {
      return "", Failure(reply.reason);
    }
    request := StatsCsv.ShowStat;
    var lines := reply.lines;
    var rows: seq<Row> := [];
    var first := true;
    for k := 0 to |lines|
      invariant first <==> StatsCsv.NonEmpty(lines[..k]) == []
      invariant rows == StatsCsv.Records(StatsCsv.DataLines(lines[..k]))
    {
      StatsCsv.DataLinesSnoc(lines, k);
      var line := lines[k];
      if line == "" {
        continue;
      }
      if first {
        first := false;
        continue;
      }
      var fields := Split(line, ',');
      StatsCsv.RecordsSnoc(StatsCsv.DataLines(lines[..k]), line);
      if |fields| < 80 {
        assert StatsCsv.RecordRow(line) == None;
        continue;
      }
      var status: string;
      if fields[17] == "UP" {
        status := "UP";
      } else if fields[17] == "DOWN" {
        status := "DOWN";
      } else {
        status := fields[17];
      }
      var row := [ fields[0], fields[1], status, fields[4], fields[5], fields[7],
                   Format.FormatBytesText(fields[8]), Format.FormatBytesText(fields[9]),
                   fields[13], fields[18] ];
      assert StatsCsv.RecordRow(line) == Some(row);
      rows := rows + [row];
    }
    assert lines[..|lines|] == lines;
    if reply.readError.Some? {
      return request, Failure(reply.readError.value);
    }
    result := Success(rows);
  }

  // ---------------------------------------------------------------------
  // parseInfoToRows, first-colon variant

  /** The row of one line: its text before and after the first ':', trimmed; none for a blank line or a line without ':'. */
  function FirstColonRow(line: string): (r: Option<Row>)
    ensures r.Some? <==> !AllSpace(line) && ':' in line
    ensures r.Some? ==> |r.value| == 2
  {
    TrimSpaceEmpty(line);
    if TrimSpace(line) == "" then None
    else
      var parts := SplitFirst(line, ':');
      if |parts| < 2 then None else Some([TrimSpace(parts[0]), TrimSpace(parts[1])])
  }

  /** The rows of a reply. */
  function FirstColonRows(info: string): seq<Row>
  {
    Keep(Split(info, '\n'), FirstColonRow)
  }

  /** parseInfoToRows: the loop over the lines, with a key and a value per row. */
  method ParseInfoToRows(info: string) returns (rows: seq<Row>)
    ensures rows == FirstColonRows(info)
  {
    var lines := Split(info, '\n');
    rows := [];
    for k := 0 to |lines|
      invariant rows == Keep(lines[..k], FirstColonRow)
    {
      assert lines[..k + 1][..k] == lines[..k];
      var line := lines[k];
      if TrimSpace(line) == "" {
        continue;
      }
      var parts := SplitFirst(line, ':');
      if |parts| < 2 {
        continue;
      }
      var key := TrimSpace(parts[0]);
      var value := TrimSpace(parts[1]);
      rows := rows + [[key, value]];
    }
    assert lines[..|lines|] == lines;
  }

  /**
   * The key is the trimmed text before the first ':' and the value the
   * trimmed text after it, which may hold further colons.
   */
  lemma FirstColonRowCut(line: string)
    requires !AllSpace(line) && ':' in line
    ensures var i := IndexOf(line, ':');
      FirstColonRow(line) == Some([TrimSpace(line[..i]), TrimSpace(line[i + 1..])])
  {
    var parts := SplitFirst(line, ':');
    IndexOfCut(parts[0], parts[1], ':');
    var i := IndexOf(line, ':');
    assert line[..i] == parts[0];
    assert line[i + 1..] == parts[1];
  }

  /** A key without ':' and any value, colons and all, make one two-cell row. */
  lemma KeyValueLine(key: string, value: string)
    requires ':' !in key
    ensures FirstColonRow(key + ":" + value) == Some([TrimSpace(key), TrimSpace(value)])
  {
    var line := key + ":" + value;
    assert line == key + [':'] + value;
    assert line[|key|] == ':' && !IsSpace(':');
    var parts := SplitFirst(line, ':');
    CutUnique(parts[0], parts[1], key, value, ':');
  }

  /**
   * The two parsers agree on which lines give a row and on the key; the
   * value of this one is the trimmed rest of the line, where the other
   * splits that rest further at each ':'.
   */
  lemma FirstColonVersusSplitAll(line: string)
    requires !AllSpace(line) && ':' in line
    ensures InfoTable.LineRow(line).Some? && FirstColonRow(line).Some?
    ensures FirstColonRow(line).value[0] == InfoTable.LineRow(line).value[0]
    ensures FirstColonRow(line).value[1] == TrimSpace(Join(Split(line, ':')[1..], ':'))
  {
    SplitFirstIsSplitHead(line, ':');
  }

  /** On a line with exactly one ':' the two parsers give the same row. */
  lemma OneColonAgrees(line: string)
    requires Count(line, ':') == 1
    ensures FirstColonRow(line) == InfoTable.LineRow(line)
  {
    CountPositive(line, ':');
    if !AllSpace(line) {
      var parts := SplitFirst(line, ':');
      var p0, p1 := parts[0], parts[1];
      SplitConcat(p0, p1, ':');
      SplitWithoutSep(p0, ':');
      assert Split(line, ':') == [p0] + Split(p1, ':');
      assert |Split(p1, ':')| == 1;
      CountPositive(p1, ':');
      SplitWithoutSep(p1, ':');
      assert Split(line, ':') == [p0, p1];
      assert InfoTable.TrimAll([p0, p1]) == [TrimSpace(p0), TrimSpace(p1)];
      assert FirstColonRow(line) == Some([TrimSpace(p0), TrimSpace(p1)]);
    }
  }

  // ---------------------------------------------------------------------
  // Init and Update

  /** The fields of the root model record that Update uses. */
  datatype RootState = RootState(
    table: TableState,
    viewport: ViewportState,
    activeTab: int,
    tabs: seq<string>,
    info: string,
    errors: string,
    pools: string,
    sessions: string,
    err: Option<string>,
    lastFetch: int,
    width: int,
    height: int)

  /** The number of tabs. */
  const TabCount := 5

  predicate Valid(s: RootState)
  {
    0 <= s.activeTab < TabCount
  }

  datatype Transition = Transition(state: RootState, effect: Effect)

  const TabLabels := ["Stats", "Info", "Errors", "Memory", "Sessions"]

  /** The model main starts with: the ten-column stats table, 20 lines high, and an 80 by 20 viewport. */
  function Initial(): (s: RootState)
    ensures Valid(s) && |s.tabs| == TabCount && s.activeTab == StatsTab
    ensures s.table == NewStatsTable() && s.err == None
  {
    RootState(NewStatsTable(), ViewportState(80, 20, ""), StatsTab, TabLabels,
              "", "", "", "", None, 0, 0, 0)
  }

  /** Init: one immediate fetch of each of the five panels with a tab. */
  function Init(): (effects: seq<Effect>)
    ensures |effects| == 5
    ensures forall k :: 0 <= k < |effects| ==> effects[k].FetchNow?
  {
    [FetchNow(Stats), FetchNow(Info), FetchNow(Errors), FetchNow(Pools), FetchNow(Sessions)]
  }

  /** Every panel with a tab is fetched once at start-up, and no other. */
  lemma InitFetchesTabPanels(p: Panel)
    ensures FetchNow(p) in Init() <==> p != Certs && p != Threads
  {
    var effects := Init();
    match p
    case Stats => assert effects[0] == FetchNow(p);
    case Info => assert effects[1] == FetchNow(p);
    case Errors => assert effects[2] == FetchNow(p);
    case Pools => assert effects[3] == FetchNow(p);
    case Sessions => assert effects[4] == FetchNow(p);
    case Certs =>
    case Threads =>
  }

  /** Where an unhandled message goes: the table on Stats, the viewport on every other tab. */
  function ComponentFor(t: int): Component
  {
    if t == StatsTab then TableComponent else ViewportComponent
  }

  /** The panels whose replies this Update stores. */
  predicate Stored(p: TextPanel)
  {
    p == Info || p == Errors || p == Pools || p == Sessions
  }

  /** A text reply: stored and fetched again for the four text panels, passed on otherwise. */
  function StoreText(s: RootState, p: TextPanel, text: string): Transition
  {
    if p == Info then Transition(s.(info := text), FetchAfter5s(p))
    else if p == Errors then Transition(s.(errors := text), FetchAfter5s(p))
    else if p == Pools then Transition(s.(pools := text), FetchAfter5s(p))
    else if p == Sessions then Transition(s.(sessions := text), FetchAfter5s(p))
    else Transition(s, Forward(ComponentFor(s.activeTab)))
  }

  /** A key press: quit, move between tabs, or a server command; everything else is passed on. */
  function KeyStep(s: RootState, k: string, env: Env): Transition
    requires Valid(s)
  {
    if IsQuitKey(k) then Transition(s, Quit)
    else if IsNextKey(k) then Transition(s.(activeTab := NextTab(s.activeTab, TabCount)), NoCmd)
    else if IsPrevKey(k) then Transition(s.(activeTab := PrevTab(s.activeTab, TabCount)), NoCmd)
    else if IsCommandKey(k) && ServerCommand(k, s.activeTab, env.selected).Some? then
      Transition(s, RunCommand(ServerCommand(k, s.activeTab, env.selected).value))
    else Transition(s, Forward(ComponentFor(s.activeTab)))
  }

  /** One call of Update. The clear message does not exist in this version and is passed on like any unknown message. */
  function Step(s: RootState, e: Event, env: Env): (r: Transition)
    requires Valid(s)
    ensures Valid(r.state) && r.state.tabs == s.tabs
    ensures s.err.Some? ==> r.state.err.Some?
  {
    match e
    case WindowSize(w, h) =>
      var paneHeight := h - HeaderHeight - FooterHeight;
      Transition(s.(width := w, height := h,
                    viewport := s.viewport.(height := paneHeight, width := w - 4),
                    table := s.table.(height := paneHeight)), NoCmd)
    case FetchFailed(reason) =>
      Transition(s.(err := Some(reason)), FetchAfter5s(Stats))
    case StatsFetched(rows) =>
      Transition(s.(lastFetch := env.now, table := s.table.(rows := rows)), FetchAfter5s(Stats))
    case PanelText(p, text) => StoreText(s, p, text)
    case ClearMessage => Transition(s, Forward(ComponentFor(s.activeTab)))
    case KeyPress(k) => KeyStep(s, k, env)
  }

  // ---------------------------------------------------------------------
  // What Update promises

  /** Every stats reply replaces the rows and stamps the time, whichever tab shows. */
  lemma StatsAlwaysApplied(s: RootState, rows: seq<Row>, env: Env)
    requires Valid(s)
    ensures var r := Step(s, StatsFetched(rows), env);
      && r.state.table.rows == rows && r.state.lastFetch == env.now
      && r.state.activeTab == s.activeTab && r.effect == FetchAfter5s(Stats)
  {
  }

  /** A failed fetch records its error, changes nothing else and schedules the next stats fetch in five seconds. */
  lemma FetchFailedRetries(s: RootState, reason: string, env: Env)
    requires Valid(s)
    ensures var r := Step(s, FetchFailed(reason), env);
      && r.state == s.(err := Some(reason))
      && r.effect == FetchAfter5s(Stats)
  {
  }

  /**
   * The tab keys change the active tab and nothing else, and start no fetch.
   * They cycle through five tabs, as many as this version has labels.
   */
  lemma TabKeysOnlyMove(s: RootState, k: string, env: Env)
    requires Valid(s) && (IsNextKey(k) || IsPrevKey(k))
    ensures var r := Step(s, KeyPress(k), env);
      && r.state.(activeTab := s.activeTab) == s
      && r.state.activeTab == (if IsNextKey(k) then (s.activeTab + 1) % 5 else (s.activeTab - 1 + 5) % 5)
      && r.effect == NoCmd
  {
    assert !IsQuitKey(k);
  }

  /**
   * The command keys obey the same guard as in the later versions: a
   * command exactly on the Stats tab for a row naming a server, and the
   * model unchanged either way.
   */
  lemma CommandKeys(s: RootState, k: string, env: Env)
    requires Valid(s) && IsCommandKey(k)
    ensures var r := Step(s, KeyPress(k), env);
      && r.state == s
      && (r.effect.RunCommand? <==> s.activeTab == StatsTab && NamesServer(env.selected))
      && (r.effect.RunCommand? ==> r.effect.command == ServerCommand(k, StatsTab, env.selected).value)
  {
    assert !IsQuitKey(k) && !IsNextKey(k) && !IsPrevKey(k);
  }

  /** A text reply is stored for the four text panels only, and the info text is not parsed into rows. */
  lemma TextReplies(s: RootState, p: TextPanel, text: string, env: Env)
    requires Valid(s)
    ensures var r := Step(s, PanelText(p, text), env);
      && r.state.table == s.table && r.state.activeTab == s.activeTab
      && (Stored(p) ==> r.effect == FetchAfter5s(p))
      && (p == Info ==> r.state.info == text)
      && (!Stored(p) ==> r == Transition(s, Forward(ComponentFor(s.activeTab))))
  {
  }

  /** The model after n presses of key k. */
  function Presses(s: RootState, k: string, n: nat, env: Env): (r: RootState)
    requires Valid(s)
    ensures Valid(r)
  {
    if n == 0 then s else Step(Presses(s, k, n - 1, env), KeyPress(k), env).state
  }

  /** n presses of tab move n tabs on, wrapping around after the fifth. */
  lemma {:induction false} PressesAdvance(s: RootState, n: nat, env: Env)
    requires Valid(s)
    ensures Presses(s, "tab", n, env).activeTab == Advance(s.activeTab, TabCount, n)
  {
    if n > 0 {
      PressesAdvance(s, n - 1, env);
      TabKeysOnlyMove(Presses(s, "tab", n - 1, env), "tab", env);
    }
  }

  /** Five presses of tab come back to the starting tab. */
  lemma FiveTabsCycle(s: RootState, env: Env)
    requires Valid(s)
    ensures Presses(s, "tab", 5, env).activeTab == s.activeTab
  {
    PressesAdvance(s, 5, env);
    FullCycle(s.activeTab, TabCount);
  }

  /** The model record, updated in place. */
  class Model {
    var table: TableState
    var viewport: ViewportState
    var activeTab: int
    const tabs: seq<string>
    var info: string
    var errors: string
    var pools: string
    var sessions: string
    var err: Option<string>
    var lastFetch: int
    var width: int
    var height: int

    function State(): RootState
      reads this
    {
      RootState(table, viewport, activeTab, tabs, info, errors, pools, sessions, err,
                lastFetch, width, height)
    }

    /** The model main builds. */
    constructor ()
      ensures State() == Initial()
    {
      table := NewStatsTable();
      viewport := ViewportState(80, 20, "");
      tabs := TabLabels;
      activeTab := StatsTab;
      info, errors, pools, sessions := "", "", "", "";
      err := None;
      lastFetch := 0;
      width, height := 0, 0;
    }

    /** Update: handle one message, changing the fields as Step says. */
    method Update(e: Event, env: Env) returns (effect: Effect)
      requires Valid(State())
      modifies this
      ensures State() == Step(old(State()), e, env).state
      ensures effect == Step(old(State()), e, env).effect
    {
      match e {
        case WindowSize(w, h) =>
          width := w;
          height := h;
          viewport := viewport.(height := height - HeaderHeight - FooterHeight, width := width - 4);
          table := table.(height := height - HeaderHeight - FooterHeight);
          return NoCmd;
        case FetchFailed(reason) =>
          err := Some(reason);
          return FetchAfter5s(Stats);
        case StatsFetched(rows) =>
          lastFetch := env.now;
          table := table.(rows := rows);
          return FetchAfter5s(Stats);
        case PanelText(p, text) =>
          if p == Info {
            info := text;
          } else if p == Errors {
            errors := text;
          } else if p == Pools {
            pools := text;
          } else if p == Sessions {
            sessions := text;
          } else {
            return Forward(ComponentFor(activeTab));
          }
          return FetchAfter5s(p);
        case ClearMessage =>
        case KeyPress(k) =>
          if IsQuitKey(k) {
            return Quit;
          } else if IsNextKey(k) {
            activeTab := (activeTab + 1) % 5;
            return NoCmd;
          } else if IsPrevKey(k) {
            activeTab := (activeTab - 1 + 5) % 5;
            return NoCmd;
          } else if IsCommandKey(k) {
            var command := ServerCommand(k, activeTab, env.selected);
            if command.Some? {
              return RunCommand(command.value);
            }
          }
      }
      effect := Forward(ComponentFor(activeTab));
    }
  }
}
