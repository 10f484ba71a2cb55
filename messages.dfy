/**
 * The vocabulary shared by the three versions of Update: the messages the
 * Bubble Tea runtime delivers, the commands Update hands back (as values,
 * not closures), what Update reads from outside the model, and the guard on
 * the server commands of the Stats tab.
 */
module Messages {
  import opened Wrappers
  import opened Table
  import opened Tabs
  import opened Adapter

  /** A panel whose reply arrives as text (infoMsg, errorMsg, poolsMsg, sessionMsg, certsMsg, threadsMsg). */
  type TextPanel = p: Panel | p != Stats witness Info

  /** The messages Update handles. */
  datatype Event =
    | WindowSize(width: int, height: int)
    | FetchFailed(reason: string)
    | StatsFetched(rows: seq<Row>)
    | PanelText(panel: TextPanel, text: string)
    | ClearMessage
    | KeyPress(key: string)

  /** The two components a message can be passed on to. */
  datatype Component = TableComponent | ViewportComponent

  /** The command Update returns. */
  datatype Effect =
    | NoCmd
    | Quit
    | FetchNow(panel: Panel)
    | FetchAfter5s(panel: Panel)
    | ClearAfter2s
    | RunCommand(command: AdminCommand)
    | Forward(target: Component)

  /**
   * What Update reads besides the model: the clock, the row under the table
   * cursor (empty when there is none) and the outcome of a clipboard copy.
   */
  datatype Env = Env(now: int, selected: Row, copyError: Option<string>)

  predicate IsQuitKey(k: string) { k == "q" || k == "ctrl+c" || k == "esc" }
  predicate IsNextKey(k: string) { k == "tab" || k == "right" || k == "l" }
  predicate IsPrevKey(k: string) { k == "shift+tab" || k == "left" || k == "h" }
  predicate IsDisableKey(k: string) { k == "D" || k == "d" }
  predicate IsEnableKey(k: string) { k == "e" }
  predicate IsWeightKey(k: string) { k == "w" }
  predicate IsCommandKey(k: string) { IsDisableKey(k) || IsEnableKey(k) || IsWeightKey(k) }
  predicate IsCopyKey(k: string) { k == "y" }

  /** The weight the w key sets. */
  const KeyWeight := 100

  /** Window rows taken by the tab bar and the footer. */
  const HeaderHeight := 4
  const FooterHeight := 2

  const CopiedMessage := "✓ Copied to clipboard!"

  /** A row names a server (not a proxy's FRONTEND or BACKEND line) when its second cell says so. */
  predicate NamesServer(selected: Row)
  {
    |selected| >= 2 && selected[1] != "FRONTEND" && selected[1] != "BACKEND"
  }

  /**
   * The server command a command key asks for: only on the Stats tab, and
   * only for a selected row that names a server.
   */
  function ServerCommand(key: string, activeTab: int, selected: Row): (c: Option<AdminCommand>)
    requires IsCommandKey(key)
    ensures c.Some? <==> activeTab == StatsTab && NamesServer(selected)
    ensures c.Some? ==> c.value.backend == selected[0] && c.value.server == selected[1]
    ensures c.Some? ==> (c.value.DisableServer? <==> IsDisableKey(key))
    ensures c.Some? ==> (c.value.EnableServer? <==> IsEnableKey(key))
    ensures c.Some? ==> (c.value.SetServerWeight? <==> IsWeightKey(key))
    ensures c.Some? && c.value.SetServerWeight? ==> c.value.weight == 100
  {
    if activeTab == StatsTab && |selected| >= 2 then
      var backend, server := selected[0], selected[1];
      if server != "FRONTEND" && server != "BACKEND" then
        if IsDisableKey(key) then Some(DisableServer(backend, server))
        else if IsEnableKey(key) then Some(EnableServer(backend, server))
        else Some(SetServerWeight(backend, server, KeyWeight))
      else None
    else None
  }
}
