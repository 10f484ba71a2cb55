/**
 * The model of src/model.go: Init and Update over the model record of
 * src/main.go, plus the threads text that src/model.go stores (its field,
 * threadsMsg, fetchCerts and fetchThreads are declared outside the files
 * modelled here). Step states what one call of Update does
 * to the fields and which command it returns; the Model class performs the
 * same update field by field and is proved to agree with Step.
 */
module ModelUpdate {
  import opened Wrappers
  import opened Table
  import opened Tabs
  import opened Adapter
  import opened Messages
  import InfoTable

  /** The fields of the model record that Init and Update use. */
  datatype ModelState = ModelState(
    table: TableState,
    message: string,
    viewport: ViewportState,
    activeTab: int,
    tabs: seq<string>,
    info: string,
    errors: string,
    pools: string,
    sessions: string,
    certs: string,
    threads: string,
    err: Option<string>,
    lastFetch: int,
    width: int,
    height: int)

  /** The active tab is one of the tabs. */
  predicate Valid(s: ModelState)
  {
    0 <= s.activeTab < |s.tabs|
  }

  /** The model after one message, and the command returned with it. */
  datatype Transition = Transition(state: ModelState, effect: Effect)

  /** The tab labels main gives the model. */
  const TabLabels := ["Stats", "Info", "Errors", "Memory", "Sessions", "Certs"]

  /** The model main starts the program with: the stats table, an 80 by 20 viewport, the Stats tab. */
  function Initial(): (s: ModelState)
    ensures Valid(s) && |s.tabs| == 6 && s.activeTab == StatsTab
    ensures s.table == NewStatsTable() && s.err == None
  {
    ModelState(NewStatsTable(), "", ViewportState(80, 20, ""), StatsTab, TabLabels,
               "", "", "", "", "", "", None, 0, 0, 0)
  }

  /** Init: one immediate fetch of every panel, and nothing else. */
  function Init(): (effects: seq<Effect>)
    ensures |effects| == 7
    ensures forall k :: 0 <= k < |effects| ==> effects[k].FetchNow?
  {
    [FetchNow(Stats), FetchNow(Info), FetchNow(Errors), FetchNow(Pools),
     FetchNow(Sessions), FetchNow(Certs), FetchNow(Threads)]
  }

  /** Every panel is fetched once at start-up. */
  lemma InitFetchesEveryPanel(p: Panel)
    ensures FetchNow(p) in Init()
  {
    var effects := Init();
    match p
    case Stats => assert effects[0] == FetchNow(p);
    case Info => assert effects[1] == FetchNow(p);
    case Errors => assert effects[2] == FetchNow(p);
    case Pools => assert effects[3] == FetchNow(p);
    case Sessions => assert effects[4] == FetchNow(p);
    case Certs => assert effects[5] == FetchNow(p);
    case Threads => assert effects[6] == FetchNow(p);
  }

  /** Where a message nobody handled goes: the table on Stats and Info, the viewport elsewhere. */
  function ComponentFor(t: int): Component
  {
    if t == StatsTab || t == InfoTab then TableComponent else ViewportComponent
  }

  /** The stored text of a text panel. */
  function TextOf(s: ModelState, p: TextPanel): string
  {
    if p == Info then s.info
    else if p == Errors then s.errors
    else if p == Pools then s.pools
    else if p == Sessions then s.sessions
    else if p == Certs then s.certs
    else s.threads
  }

  /** The model with a new text for panel p. */
  function WithText(s: ModelState, p: TextPanel, text: string): (r: ModelState)
    ensures r.table == s.table && r.activeTab == s.activeTab && r.err == s.err
  {
    if p == Info then s.(info := text)
    else if p == Errors then s.(errors := text)
    else if p == Pools then s.(pools := text)
    else if p == Sessions then s.(sessions := text)
    else if p == Certs then s.(certs := text)
    else s.(threads := text)
  }

  /**
   * Moving to tab t. Info gets a fresh info table holding the parsed info
   * text, and the viewport shows that text. Stats gets a fresh stats table
   * that keeps the rows shown so far, and a stats fetch when coming from
   * another tab. Any other tab: the shift+tab keys pass the key on to the
   * viewport, the tab keys do not.
   */
  function EnterTab(s: ModelState, t: int, forward: bool): Transition
    requires 0 <= t < |s.tabs|
  {
    var previousTab := s.activeTab;
    var s1 := s.(activeTab := t);
    if t == InfoTab then
      Transition(s1.(table := NewInfoTable().(rows := InfoTable.InfoRows(s.info)),
                     viewport := s.viewport.(content := s.info)), NoCmd)
    else if t == StatsTab then
      var oldRows := s.table.rows;
      var table := if |oldRows| > 0 then NewStatsTable().(rows := oldRows) else NewStatsTable();
      Transition(s1.(table := table), if previousTab != StatsTab then FetchNow(Stats) else NoCmd)
    else
      Transition(s1, if forward then NoCmd else Forward(ViewportComponent))
  }

  /**
   * A text panel's reply: the text is stored, the info table is refilled when
   * the reply is the info text and the Info tab is showing, and the same
   * panel is fetched again in five seconds.
   */
  function StoreText(s: ModelState, p: TextPanel, text: string): Transition
  {
    var table := if p == Info && s.activeTab == InfoTab then s.table.(rows := InfoTable.InfoRows(text)) else s.table;
    Transition(WithText(s, p, text).(table := table), FetchAfter5s(p))
  }

  /** A key press. */
  function KeyStep(s: ModelState, k: string, env: Env): Transition
    requires Valid(s)
  {
    if IsQuitKey(k) then Transition(s, Quit)
    else if IsCommandKey(k) && ServerCommand(k, s.activeTab, env.selected).Some? then
      Transition(s, RunCommand(ServerCommand(k, s.activeTab, env.selected).value))
    else if IsNextKey(k) then EnterTab(s, NextTab(s.activeTab, |s.tabs|), true)
    else if IsPrevKey(k) then EnterTab(s, PrevTab(s.activeTab, |s.tabs|), false)
    else if IsCopyKey(k) && s.activeTab == InfoTab && |env.selected| >= 2 then
      if env.copyError.Some? then Transition(s.(err := env.copyError), Forward(TableComponent))
      else Transition(s.(message := CopiedMessage), ClearAfter2s)
    else Transition(s, Forward(ComponentFor(s.activeTab)))
  }

  /** One call of Update. */
  function Step(s: ModelState, e: Event, env: Env): (r: Transition)
    requires Valid(s)
    ensures Valid(r.state) && r.state.tabs == s.tabs
    ensures s.err.Some? ==> r.state.err.Some?
  {
    match e
    case WindowSize(w, h) =>
      var paneHeight := h - HeaderHeight - FooterHeight;
      Transition(s.(width := w, height := h,
                    viewport := s.viewport.(height := paneHeight, width := w - 4),
                    table := s.table.(height := paneHeight)), NoCmd)
    case FetchFailed(reason) =>
      Transition(s.(err := Some(reason)), FetchAfter5s(Stats))
    case StatsFetched(rows) =>
      if s.activeTab == StatsTab then
        Transition(s.(lastFetch := env.now, table := s.table.(rows := rows)), FetchAfter5s(Stats))
      else Transition(s, FetchAfter5s(Stats))
    case PanelText(p, text) => StoreText(s, p, text)
    case ClearMessage => Transition(s.(message := ""), NoCmd)
    case KeyPress(k) => KeyStep(s, k, env)
  }

  /** The text Update hands to the clipboard: the second cell of the selected info row, on y. */
  function Copied(s: ModelState, e: Event, env: Env): Option<string>
  {
    if e.KeyPress? && IsCopyKey(e.key) && s.activeTab == InfoTab && |env.selected| >= 2
    then Some(env.selected[1]) else None
  }

  // ---------------------------------------------------------------------
  // What Update promises

  /**
   * The error field changes in exactly two ways: a failed fetch records its
   * reason, and a failed clipboard copy records the clipboard's error.
   */
  lemma ErrUpdates(s: ModelState, e: Event, env: Env)
    requires Valid(s)
    ensures Step(s, e, env).state.err ==
      if e.FetchFailed? then Some(e.reason)
      else if Copied(s, e, env).Some? && env.copyError.Some? then env.copyError
      else s.err
    ensures e.FetchFailed? ==> Step(s, e, env).effect == FetchAfter5s(Stats)
  {
    if e.KeyPress? {
      var k := e.key;
      if IsCommandKey(k) || IsNextKey(k) || IsPrevKey(k) {
        assert !IsCopyKey(k);
      }
    }
  }

  /**
   * A stats reply fills the table only while the Stats tab shows, and then
   * stamps the fetch time; either way the next fetch is five seconds away.
   */
  lemma StatsReplyGated(s: ModelState, rows: seq<Row>, env: Env)
    requires Valid(s)
    ensures var r := Step(s, StatsFetched(rows), env);
      && r.effect == FetchAfter5s(Stats)
      && (s.activeTab == StatsTab ==> r.state.table.rows == rows && r.state.lastFetch == env.now)
      && (s.activeTab != StatsTab ==> r.state == s)
  {
  }

  /** Storing a panel's text replaces that text and no other, whatever the table. */
  lemma WithTextOf(s: ModelState, p: TextPanel, text: string, q: TextPanel, table: TableState)
    ensures TextOf(WithText(s, p, text).(table := table), q) == if q == p then text else TextOf(s, q)
  {
  }

  /**
   * A text reply replaces the text of its own panel and of no other, keeps
   * the tab and the error, and schedules the next fetch of the same panel.
   */
  lemma TextReplyStored(s: ModelState, p: TextPanel, text: string, env: Env)
    requires Valid(s)
    ensures var r := Step(s, PanelText(p, text), env);
      && (forall q: TextPanel :: TextOf(r.state, q) == if q == p then text else TextOf(s, q))
      && r.state.activeTab == s.activeTab && r.state.err == s.err
      && r.effect == FetchAfter5s(p)
  {
    var r := StoreText(s, p, text);
    assert Step(s, PanelText(p, text), env) == r;
    forall q: TextPanel
      ensures TextOf(r.state, q) == if q == p then text else TextOf(s, q)
    {
      WithTextOf(s, p, text, q, r.state.table);
    }
  }

  /** The table is refilled from a text reply only for the info text on the Info tab. */
  lemma TextReplyRows(s: ModelState, p: TextPanel, text: string, env: Env)
    requires Valid(s)
    ensures Step(s, PanelText(p, text), env).state.table.rows ==
      if p == Info && s.activeTab == InfoTab then InfoTable.InfoRows(text) else s.table.rows
  {
  }

  /** The quit keys end the program and change nothing. */
  lemma QuitKeys(s: ModelState, k: string, env: Env)
    requires Valid(s) && IsQuitKey(k)
    ensures Step(s, KeyPress(k), env) == Transition(s, Quit)
  {
  }

  /**
   * A command key never changes the model. It runs the server command for
   * the selected row exactly when the Stats tab shows and the row names a
   * server; otherwise the key goes on to the table or the viewport.
   */
  lemma CommandKeys(s: ModelState, k: string, env: Env)
    requires Valid(s) && IsCommandKey(k)
    ensures var r := Step(s, KeyPress(k), env);
      && r.state == s
      && (r.effect.RunCommand? <==> s.activeTab == StatsTab && NamesServer(env.selected))
      && (!r.effect.RunCommand? ==> r.effect == Forward(ComponentFor(s.activeTab)))
  {
    assert !IsQuitKey(k) && !IsNextKey(k) && !IsPrevKey(k) && !IsCopyKey(k);
  }

  /** The tab keys move one tab on, the shift+tab keys one tab back, both wrapping around. */
  lemma TabKeysMove(s: ModelState, k: string, env: Env)
    requires Valid(s) && (IsNextKey(k) || IsPrevKey(k))
    ensures Step(s, KeyPress(k), env).state.activeTab ==
      if IsNextKey(k) then NextTab(s.activeTab, |s.tabs|) else PrevTab(s.activeTab, |s.tabs|)
  {
    assert !IsQuitKey(k) && !IsCommandKey(k);
  }

  /** tab followed by shift+tab comes back to the tab that was showing. */
  lemma NextThenPrev(s: ModelState, env: Env, env2: Env)
    requires Valid(s)
    ensures Step(Step(s, KeyPress("tab"), env).state, KeyPress("shift+tab"), env2).state.activeTab == s.activeTab
  {
    var s1 := Step(s, KeyPress("tab"), env).state;
    TabKeysMove(s, "tab", env);
    TabKeysMove(s1, "shift+tab", env2);
    PrevNextInverse(s.activeTab, |s.tabs|);
  }

  /**
   * Arriving on the Info tab: a fresh info table holding the rows parsed
   * from the stored info text, the same text in the viewport, no command.
   */
  lemma EnterInfo(s: ModelState, t: int, forward: bool)
    requires 0 <= t < |s.tabs| && t == InfoTab
    ensures var r := EnterTab(s, t, forward);
      && r.state.table == TableState(InfoColumns, InfoTable.InfoRows(s.info), DefaultHeight)
      && r.state.viewport.content == s.info
      && r.effect == NoCmd
  {
  }

  /**
   * Arriving on the Stats tab: a fresh stats table that keeps whatever rows
   * the table held, and a stats fetch at once unless Stats was already
   * showing.
   */
  lemma EnterStats(s: ModelState, t: int, forward: bool)
    requires 0 <= t < |s.tabs| && t == StatsTab
    ensures var r := EnterTab(s, t, forward);
      && r.state.table == TableState(StatsColumns, s.table.rows, DefaultHeight)
      && (r.effect == FetchNow(Stats) <==> s.activeTab != StatsTab)
      && (r.effect != FetchNow(Stats) ==> r.effect == NoCmd)
  {
  }

  /**
   * Going back from Info to Stats puts the info rows into the stats table:
   * until the stats reply arrives the stats columns show name/value pairs.
   */
  lemma InfoRowsCarriedToStats(s: ModelState, env: Env)
    requires Valid(s) && s.activeTab == InfoTab
    ensures var r := Step(s, KeyPress("shift+tab"), env);
      && r.state.activeTab == StatsTab
      && r.state.table.columns == StatsColumns
      && r.state.table.rows == s.table.rows
  {
    TabKeysMove(s, "shift+tab", env);
  }

  /** Arriving on a tab without a table changes only the active tab. */
  lemma EnterTextTab(s: ModelState, t: int, forward: bool)
    requires 0 <= t < |s.tabs| && t != InfoTab && t != StatsTab
    ensures var r := EnterTab(s, t, forward);
      && r.state == s.(activeTab := t)
      && r.effect == (if forward then NoCmd else Forward(ViewportComponent))
  {
  }

  /**
   * y on the Info tab with a row selected copies the row's value. On success
   * the confirmation shows until the clear message two seconds later, which
   * leaves the model as it was apart from the message.
   */
  lemma CopyThenClear(s: ModelState, env: Env, env2: Env)
    requires Valid(s) && s.activeTab == InfoTab && |env.selected| >= 2 && env.copyError == None
    ensures var r := Step(s, KeyPress("y"), env);
      && Copied(s, KeyPress("y"), env) == Some(env.selected[1])
      && r.state.message == CopiedMessage && r.effect == ClearAfter2s
      && Step(r.state, ClearMessage, env2).state == s.(message := "")
  {
  }

  /** y copies nothing off the Info tab or without a selected row, and then changes nothing. */
  lemma CopyNeedsInfoRow(s: ModelState, env: Env)
    requires Valid(s) && (s.activeTab != InfoTab || |env.selected| < 2)
    ensures Copied(s, KeyPress("y"), env) == None
    ensures Step(s, KeyPress("y"), env) == Transition(s, Forward(ComponentFor(s.activeTab)))
  {
  }

  /** A window resize sizes the table and the viewport to the window less the header and footer, and keeps their contents. */
  lemma ResizeKeepsContent(s: ModelState, w: int, h: int, env: Env)
    requires Valid(s)
    ensures var r := Step(s, WindowSize(w, h), env);
      && r.state.table.height == h - 6 && r.state.viewport.height == h - 6 && r.state.viewport.width == w - 4
      && r.state.table.rows == s.table.rows && r.state.table.columns == s.table.columns
      && r.state.viewport.content == s.viewport.content
      && r.state.activeTab == s.activeTab && r.effect == NoCmd
  {
  }

  /** The model record, updated in place. */
  class Model {
    var table: TableState
    var message: string
    var viewport: ViewportState
    var activeTab: int
    const tabs: seq<string>
    var info: string
    var errors: string
    var pools: string
    var sessions: string
    var certs: string
    var threads: string
    var err: Option<string>
    var lastFetch: int
    var width: int
    var height: int

    function State(): ModelState
      reads this
    {
      ModelState(table, message, viewport, activeTab, tabs, info, errors, pools, sessions,
                 certs, threads, err, lastFetch, width, height)
    }

    /** The model main builds. */
    constructor ()
      ensures State() == Initial()
    {
      table := NewStatsTable();
      message := "";
      viewport := ViewportState(80, 20, "");
      tabs := TabLabels;
      activeTab := StatsTab;
      info, errors, pools, sessions, certs, threads := "", "", "", "", "", "";
      err := None;
      lastFetch := 0;
      width, height := 0, 0;
    }

    /** Update: handle one message, changing the fields as Step says. */
    method Update(e: Event, env: Env) returns (effect: Effect, copied: Option<string>)
      requires Valid(State())
      modifies this
      ensures State() == Step(old(State()), e, env).state
      ensures effect == Step(old(State()), e, env).effect
      ensures copied == Copied(old(State()), e, env)
    {
      copied := None;
      match e {
        case WindowSize(w, h) =>
          width := w;
          height := h;
          viewport := viewport.(height := height - HeaderHeight - FooterHeight, width := width - 4);
          table := table.(height := height - HeaderHeight - FooterHeight);
          return NoCmd, copied;
        case FetchFailed(reason) =>
          err := Some(reason);
          return FetchAfter5s(Stats), copied;
        case StatsFetched(rows) =>
          if activeTab == StatsTab {
            lastFetch := env.now;
            table := table.(rows := rows);
          }
          return FetchAfter5s(Stats), copied;
        case PanelText(p, text) =>
          effect := SetText(p, text);
        case ClearMessage =>
          message := "";
          return NoCmd, copied;
        case KeyPress(k) =>
          effect, copied := PressKey(k, env);
      }
    }

    /** The handling of a text panel's reply. */
    method SetText(p: TextPanel, text: string) returns (effect: Effect)
      modifies this
      ensures State() == StoreText(old(State()), p, text).state
      ensures effect == StoreText(old(State()), p, text).effect
    {
      if p == Info {
        info := text;
        if activeTab == InfoTab {
          var rows := InfoTable.ParseInfoToRows(info);
          table := table.(rows := rows);
        }
      } else if p == Errors {
        errors := text;
      } else if p == Pools {
        pools := text;
      } else if p == Sessions {
        sessions := text;
      } else if p == Certs {
        certs := text;
      } else {
        threads := text;
      }
      return FetchAfter5s(p);
    }

    /** The handling of a key press. */
    method PressKey(k: string, env: Env) returns (effect: Effect, copied: Option<string>)
      requires Valid(State())
      modifies this
      ensures State() == KeyStep(old(State()), k, env).state
      ensures effect == KeyStep(old(State()), k, env).effect
      ensures copied == Copied(old(State()), KeyPress(k), env)
    {
      copied := None;
      if IsQuitKey(k) {
        return Quit, copied;
      } else if IsCommandKey(k) {
        var command := ServerCommand(k, activeTab, env.selected);
        if command.Some? {
          return RunCommand(command.value), copied;
        }
      } else if IsNextKey(k) {
        effect := SwitchTab(NextTab(activeTab, |tabs|), true);
        return effect, copied;
      } else if IsPrevKey(k) {
        effect := SwitchTab(PrevTab(activeTab, |tabs|), false);
        return effect, copied;
      } else if IsCopyKey(k) {
        if activeTab == InfoTab && |env.selected| >= 2 {
          var value := env.selected[1];
          copied := Some(value);
          if env.copyError.Some? {
            err := env.copyError;
          } else {
            message := CopiedMessage;
            return ClearAfter2s, copied;
          }
        }
      }
      effect := Forward(ComponentFor(activeTab));
    }

    /**
     * The tab keys: make t the active tab and rebuild the table it shows.
     * Returning to Stats from another tab fetches the stats at once; the
     * shift+tab keys pass the key on to the viewport when t is a text tab.
     */
    method SwitchTab(t: int, forward: bool) returns (effect: Effect)
      requires 0 <= t < |tabs|
      modifies this
      ensures State() == EnterTab(old(State()), t, forward).state
      ensures effect == EnterTab(old(State()), t, forward).effect
    {
      var previousTab := activeTab;
      activeTab := t;
      if activeTab == InfoTab {
        table := NewInfoTable();
        var rows := InfoTable.ParseInfoToRows(info);
        table := table.(rows := rows);
        viewport := viewport.(content := info);
        return NoCmd;
      } else if activeTab == StatsTab {
        var oldRows := table.rows;
        table := NewStatsTable();
        if |oldRows| > 0 {
          table := table.(rows := oldRows);
        }
        if previousTab != StatsTab {
          return FetchNow(Stats);
        }
        return NoCmd;
      }
      effect := if forward then NoCmd else Forward(ComponentFor(activeTab));
    }
  }
}
