/**
 * The older Update of src/update.go, over the model record declared in
 * src/main.go (six tab labels, five text panels, no threads text). It
 * differs from src/model.go in two ways: the tab keys cycle through five
 * tabs whatever the number of labels, and the certificates and threads
 * replies have no case of their own, so they are passed on like any other
 * unhandled message. Like ModelUpdate and RootMain, this module keeps its
 * own StoreText, EnterTab and ComponentFor, so that it reads as its file
 * does, even where two of the files agree.
 */
module LegacyUpdate {
  import opened Wrappers
  import opened Table
  import opened Tabs
  import opened Adapter
  import opened Messages
  import InfoTable

  /** The fields of the model record of src/main.go that Update uses. */
  datatype LegacyState = LegacyState(
    table: TableState,
    message: string,
    viewport: ViewportState,
    activeTab: int,
    tabs: seq<string>,
    info: string,
    errors: string,
    pools: string,
    certs: string,
    sessions: string,
    err: Option<string>,
    lastFetch: int,
    width: int,
    height: int)

  /** The number of tabs the tab keys cycle through. */
  const TabCount := 5

  /** The active tab is one of the five the tab keys reach. */
  predicate Valid(s: LegacyState)
  {
    0 <= s.activeTab < TabCount
  }

  datatype Transition = Transition(state: LegacyState, effect: Effect)

  /** The tab labels main gives the model. */
  const TabLabels := ["Stats", "Info", "Errors", "Memory", "Sessions", "Certs"]

  /** The model main starts the program with. */
  function Initial(): (s: LegacyState)
    ensures Valid(s) && |s.tabs| == 6 && s.activeTab == StatsTab
    ensures s.table == NewStatsTable() && s.err == None
  {
    LegacyState(NewStatsTable(), "", ViewportState(80, 20, ""), StatsTab, TabLabels,
                "", "", "", "", "", None, 0, 0, 0)
  }

  /** Where a message nobody handled goes: the table on Stats and Info, the viewport elsewhere. */
  function ComponentFor(t: int): Component
  {
    if t == StatsTab || t == InfoTab then TableComponent else ViewportComponent
  }

  /** The panels whose replies this Update stores. */
  predicate Stored(p: TextPanel)
  {
    p == Info || p == Errors || p == Pools || p == Sessions
  }

  /** Moving to tab t, as in src/model.go. */
  function EnterTab(s: LegacyState, t: int, forward: bool): Transition
  {
    var previousTab := s.activeTab;
    var s1 := s.(activeTab := t);
    if t == InfoTab then
      Transition(s1.(table := NewInfoTable().(rows := InfoTable.InfoRows(s.info)),
                     viewport := s.viewport.(content := s.info)), NoCmd)
    else if t == StatsTab then
      var oldRows := s.table.rows;
      var table := if |oldRows| > 0 then NewStatsTable().(rows := oldRows) else NewStatsTable();
      Transition(s1.(table := table), if previousTab != StatsTab then FetchNow(Stats) else NoCmd)
    else
      Transition(s1, if forward then NoCmd else Forward(ViewportComponent))
  }

  /** A text reply: stored for four panels, passed on for certificates and threads. */
  function StoreText(s: LegacyState, p: TextPanel, text: string): Transition
  {
    if p == Info then
      var s1 := s.(info := text);
      if s.activeTab == InfoTab then
        Transition(s1.(table := s1.table.(rows := InfoTable.InfoRows(text))), FetchAfter5s(p))
      else Transition(s1, FetchAfter5s(p))
    else if p == Errors then Transition(s.(errors := text), FetchAfter5s(p))
    else if p == Pools then Transition(s.(pools := text), FetchAfter5s(p))
    else if p == Sessions then Transition(s.(sessions := text), FetchAfter5s(p))
    else Transition(s, Forward(ComponentFor(s.activeTab)))
  }

  /** A key press. */
  function KeyStep(s: LegacyState, k: string, env: Env): Transition
    requires Valid(s)
  {
    if IsQuitKey(k) then Transition(s, Quit)
    else if IsCommandKey(k) && ServerCommand(k, s.activeTab, env.selected).Some? then
      Transition(s, RunCommand(ServerCommand(k, s.activeTab, env.selected).value))
    else if IsNextKey(k) then EnterTab(s, NextTab(s.activeTab, TabCount), true)
    else if IsPrevKey(k) then EnterTab(s, PrevTab(s.activeTab, TabCount), false)
    else if IsCopyKey(k) && s.activeTab == InfoTab && |env.selected| >= 2 then
      if env.copyError.Some? then Transition(s.(err := env.copyError), Forward(TableComponent))
      else Transition(s.(message := CopiedMessage), ClearAfter2s)
    else Transition(s, Forward(ComponentFor(s.activeTab)))
  }

  /** One call of Update. */
  function Step(s: LegacyState, e: Event, env: Env): (r: Transition)
    requires Valid(s)
    ensures Valid(r.state) && r.state.tabs == s.tabs
    ensures s.err.Some? ==> r.state.err.Some?
  {
    match e
    case WindowSize(w, h) =>
      var paneHeight := h - HeaderHeight - FooterHeight;
      Transition(s.(width := w, height := h,
                    viewport := s.viewport.(height := paneHeight, width := w - 4),
                    table := s.table.(height := paneHeight)), NoCmd)
    case FetchFailed(reason) =>
      Transition(s.(err := Some(reason)), FetchAfter5s(Stats))
    case StatsFetched(rows) =>
      if s.activeTab == StatsTab then
        Transition(s.(lastFetch := env.now, table := s.table.(rows := rows)), FetchAfter5s(Stats))
      else Transition(s, FetchAfter5s(Stats))
    case PanelText(p, text) => StoreText(s, p, text)
    case ClearMessage => Transition(s.(message := ""), NoCmd)
    case KeyPress(k) => KeyStep(s, k, env)
  }

  /** The text Update hands to the clipboard: the second cell of the selected info row, on y. */
  function Copied(s: LegacyState, e: Event, env: Env): Option<string>
  {
    if e.KeyPress? && IsCopyKey(e.key) && s.activeTab == InfoTab && |env.selected| >= 2
    then Some(env.selected[1]) else None
  }

  // ---------------------------------------------------------------------
  // What Update promises

  /**
   * The tab keys cycle through the first five tabs only: the last label,
   * Certs, is never the active tab, however many keys are pressed. The
   * proof is short because Valid already bounds activeTab by TabCount;
   * the content is that TabCount is 5 while Initial() holds six labels.
   */
  lemma CertsTabUnreachable(s: LegacyState, keys: seq<string>, env: Env)
    requires Valid(s)
    ensures Keys(s, keys, env).activeTab != CertsTab
  {
    KeysValid(s, keys, env);
  }

  /** The model after a run of key presses. */
  function Keys(s: LegacyState, keys: seq<string>, env: Env): LegacyState
    requires Valid(s)
    decreases |keys|
  {
    if keys == [] then s else Keys(Step(s, KeyPress(keys[0]), env).state, keys[1..], env)
  }

  lemma {:induction false} KeysValid(s: LegacyState, keys: seq<string>, env: Env)
    requires Valid(s)
    ensures Valid(Keys(s, keys, env))
    decreases |keys|
  {
    if keys != [] {
      KeysValid(Step(s, KeyPress(keys[0]), env).state, keys[1..], env);
    }
  }

  /** The tab keys move one tab on or back among five, wrapping around, although Initial() holds six labels. */
  lemma TabKeysModFive(s: LegacyState, k: string, env: Env)
    requires Valid(s) && (IsNextKey(k) || IsPrevKey(k))
    ensures Step(s, KeyPress(k), env).state.activeTab ==
      if IsNextKey(k) then (s.activeTab + 1) % 5 else (s.activeTab - 1 + 5) % 5
  {
    TabKeyEntersTab(s, k, env);
    var t := if IsNextKey(k) then NextTab(s.activeTab, TabCount) else PrevTab(s.activeTab, TabCount);
    assert EnterTab(s, t, IsNextKey(k)).state.activeTab == t;
  }

  /** A tab key is the move to the next or the previous of the five tabs. */
  lemma TabKeyEntersTab(s: LegacyState, k: string, env: Env)
    requires Valid(s) && (IsNextKey(k) || IsPrevKey(k))
    ensures Step(s, KeyPress(k), env) ==
      EnterTab(s, if IsNextKey(k) then NextTab(s.activeTab, TabCount) else PrevTab(s.activeTab, TabCount), IsNextKey(k))
  {
    assert !IsQuitKey(k) && !IsCommandKey(k);
    assert IsNextKey(k) ==> !IsPrevKey(k);
  }

  /** A failed fetch records its error, changes nothing else and schedules the next stats fetch in five seconds. */
  lemma FetchFailedRetries(s: LegacyState, reason: string, env: Env)
    requires Valid(s)
    ensures var r := Step(s, FetchFailed(reason), env);
      && r.state == s.(err := Some(reason))
      && r.effect == FetchAfter5s(Stats)
  {
  }

  /** A resize sets the sizes and keeps the tab, the texts and the rows. */
  lemma ResizeKeepsContent(s: LegacyState, w: int, h: int, env: Env)
    requires Valid(s)
    ensures var r := Step(s, WindowSize(w, h), env);
      && r.state.width == w && r.state.height == h
      && r.state.table.height == h - 6 && r.state.viewport.height == h - 6 && r.state.viewport.width == w - 4
      && r.state.table.rows == s.table.rows && r.state.table.columns == s.table.columns
      && r.state.viewport.content == s.viewport.content
      && r.state.(width := s.width, height := s.height, table := s.table, viewport := s.viewport) == s
      && r.effect == NoCmd
  {
  }

  /** The clear message empties the message and changes nothing else. */
  lemma ClearMessageOnly(s: LegacyState, env: Env)
    requires Valid(s)
    ensures var r := Step(s, ClearMessage, env);
      r.state.message == "" && r.state.(message := s.message) == s && r.effect == NoCmd
  {
  }

  /** Arriving on the Info tab rebuilds the info table from the stored text, shows that text and fetches nothing. */
  lemma EnterInfo(s: LegacyState, k: string, env: Env)
    requires Valid(s) && (IsNextKey(k) || IsPrevKey(k))
    requires Step(s, KeyPress(k), env).state.activeTab == InfoTab
    ensures var r := Step(s, KeyPress(k), env);
      && r.state.table == TableState(InfoColumns, InfoTable.InfoRows(s.info), DefaultHeight)
      && r.state.viewport.content == s.info
      && r.effect == NoCmd
  {
    TabKeyEntersTab(s, k, env);
  }

  /**
   * Arriving on the Stats tab from another tab keeps the rows in a fresh
   * stats table and fetches the stats at once, exactly once.
   */
  lemma EnterStats(s: LegacyState, k: string, env: Env)
    requires Valid(s) && (IsNextKey(k) || IsPrevKey(k))
    requires Step(s, KeyPress(k), env).state.activeTab == StatsTab
    ensures var r := Step(s, KeyPress(k), env);
      && r.state.table == TableState(StatsColumns, s.table.rows, DefaultHeight)
      && r.effect == FetchNow(Stats)
  {
    TabKeyEntersTab(s, k, env);
    assert s.activeTab != StatsTab;
  }

  /**
   * y on the Info tab with a row of at least two cells copies the second
   * cell: success shows the confirmation and clears it two seconds later,
   * failure records the clipboard's error.
   */
  lemma CopyKey(s: LegacyState, env: Env)
    requires Valid(s) && s.activeTab == InfoTab && |env.selected| >= 2
    ensures var r := Step(s, KeyPress("y"), env);
      && Copied(s, KeyPress("y"), env) == Some(env.selected[1])
      && (env.copyError.None? ==> r.state == s.(message := CopiedMessage) && r.effect == ClearAfter2s)
      && (env.copyError.Some? ==> r.state == s.(err := env.copyError) && r.effect == Forward(TableComponent))
  {
  }

  /** The quit keys end the program and change nothing. */
  lemma QuitKeys(s: LegacyState, k: string, env: Env)
    requires Valid(s) && IsQuitKey(k)
    ensures Step(s, KeyPress(k), env) == Transition(s, Quit)
  {
  }

  /**
   * The info, errors, pools and sessions replies are stored and fetched
   * again in five seconds; certificates and threads replies are not stored:
   * the model stays as it was and the message is passed on.
   */
  lemma TextReplies(s: LegacyState, p: TextPanel, text: string, env: Env)
    requires Valid(s)
    ensures var r := Step(s, PanelText(p, text), env);
      && (Stored(p) ==> StoredText(r.state, p) == text && r.effect == FetchAfter5s(p))
      && (!Stored(p) ==> r == Transition(s, Forward(ComponentFor(s.activeTab))))
  {
  }

  /** The text kept for a stored panel. */
  function StoredText(s: LegacyState, p: TextPanel): string
    requires Stored(p)
  {
    if p == Info then s.info else if p == Errors then s.errors
    else if p == Pools then s.pools else s.sessions
  }

  /** The model record, updated in place. */
  class Model {
    var table: TableState
    var message: string
    var viewport: ViewportState
    var activeTab: int
    const tabs: seq<string>
    var info: string
    var errors: string
    var pools: string
    var certs: string
    var sessions: string
    var err: Option<string>
    var lastFetch: int
    var width: int
    var height: int

    function State(): LegacyState
      reads this
    {
      LegacyState(table, message, viewport, activeTab, tabs, info, errors, pools, certs,
                  sessions, err, lastFetch, width, height)
    }

    /** The model main builds. */
    constructor ()
      ensures State() == Initial()
    {
      table := NewStatsTable();
      message := "";
      viewport := ViewportState(80, 20, "");
      tabs := TabLabels;
      activeTab := StatsTab;
      info, errors, pools, certs, sessions := "", "", "", "", "";
      err := None;
      lastFetch := 0;
      width, height := 0, 0;
    }

    /** Update: handle one message, changing the fields as Step says. */
    method Update(e: Event, env: Env) returns (effect: Effect, copied: Option<string>)
      requires Valid(State())
      modifies this
      ensures State() == Step(old(State()), e, env).state
      ensures effect == Step(old(State()), e, env).effect
      ensures copied == Copied(old(State()), e, env)
    {
      copied := None;
      match e {
        case WindowSize(w, h) =>
          width := w;
          height := h;
          viewport := viewport.(height := height - HeaderHeight - FooterHeight, width := width - 4);
          table := table.(height := height - HeaderHeight - FooterHeight);
          return NoCmd, copied;
        case FetchFailed(reason) =>
          err := Some(reason);
          return FetchAfter5s(Stats), copied;
        case StatsFetched(rows) =>
          if activeTab == StatsTab {
            lastFetch := env.now;
            table := table.(rows := rows);
          }
          return FetchAfter5s(Stats), copied;
        case PanelText(p, text) =>
          effect := SetText(p, text);
        case ClearMessage =>
          message := "";
          return NoCmd, copied;
        case KeyPress(k) =>
          effect, copied := PressKey(k, env);
      }
    }

    /** The handling of a text reply. */
    method SetText(p: TextPanel, text: string) returns (effect: Effect)
      modifies this
      ensures State() == StoreText(old(State()), p, text).state
      ensures effect == StoreText(old(State()), p, text).effect
    {
      if p == Info {
        info := text;
        if activeTab == InfoTab {
          var rows := InfoTable.ParseInfoToRows(info);
          table := table.(rows := rows);
        }
      } else if p == Errors {
        errors := text;
      } else if p == Pools {
        pools := text;
      } else if p == Sessions {
        sessions := text;
      } else {
        return Forward(ComponentFor(activeTab));
      }
      return FetchAfter5s(p);
    }

    /** The handling of a key press. */
    method PressKey(k: string, env: Env) returns (effect: Effect, copied: Option<string>)
      requires Valid(State())
      modifies this
      ensures State() == KeyStep(old(State()), k, env).state
      ensures effect == KeyStep(old(State()), k, env).effect
      ensures copied == Copied(old(State()), KeyPress(k), env)
    {
      copied := None;
      if IsQuitKey(k) {
        return Quit, copied;
      } else if IsCommandKey(k) {
        var command := ServerCommand(k, activeTab, env.selected);
        if command.Some? {
          return RunCommand(command.value), copied;
        }
      } else if IsNextKey(k) {
        effect := SwitchTab((activeTab + 1) % 5, true);
        return effect, copied;
      } else if IsPrevKey(k) {
        effect := SwitchTab((activeTab - 1 + 5) % 5, false);
        return effect, copied;
      } else if IsCopyKey(k) {
        if activeTab == InfoTab && |env.selected| >= 2 {
          var value := env.selected[1];
          copied := Some(value);
          if env.copyError.Some? {
            err := env.copyError;
          } else {
            message := CopiedMessage;
            return ClearAfter2s, copied;
          }
        }
      }
      effect := Forward(ComponentFor(activeTab));
    }

    /** The tab keys: make t the active tab and rebuild the table it shows. */
    method SwitchTab(t: int, forward: bool) returns (effect: Effect)
      modifies this
      ensures State() == EnterTab(old(State()), t, forward).state
      ensures effect == EnterTab(old(State()), t, forward).effect
    {
      var previousTab := activeTab;
      activeTab := t;
      if activeTab == InfoTab {
        table := NewInfoTable();
        var rows := InfoTable.ParseInfoToRows(info);
        table := table.(rows := rows);
        viewport := viewport.(content := info);
        return NoCmd;
      } else if activeTab == StatsTab {
        var oldRows := table.rows;
        table := NewStatsTable();
        if |oldRows| > 0 {
          table := table.(rows := oldRows);
        }
        if previousTab != StatsTab {
          return FetchNow(Stats);
        }
        return NoCmd;
      }
      effect := if forward then NoCmd else Forward(ComponentFor(activeTab));
    }
  }
}
