# lazyhap, modelled in Dafny

lazyhap is a terminal client for HAProxy's admin socket, built on Bubble Tea. It polls the socket every five seconds:

- `show stat` fills the statistics table;
- `show info desc`, `show errors`, `show pools` and `show sess` fill the text panels.

From the statistics table it can disable or enable a server or set its weight. From the info table it can copy a value to the clipboard.

This project models the parsing and formatting code and the three versions of `Update` that the repository carries:

- `src/model.go`: the newest, with six tab labels, seven panels and a status message.
- `src/update.go`: the same record, but the tab keys cycle through five tabs.
- `main.go` at the root: the first snapshot, with five tabs.

The modules follow the source files:

| module | file | source |
|---|---|---|
| `Wrappers` | wrappers.dfy | `Option` and `Result` |
| `Text` | text.dfy | the `strings` functions the parsers use: `TrimSpace`, `Split`, `SplitN(…, 2)`, joining |
| `Decimal` | decimal.dfy | `%d` rendering and reading back |
| `Format` | format.dfy | `src/utils.go`: `stringToInt` (`fmt.Sscanf` with `%d` into an `int64`), `formatBytes` (the exact `%.1f` of a `float64` quotient) and `truncate` |
| `Table` | table.dfy | table and viewport state; building rows line by line |
| `Socket` | socket.dfy | what one exchange over the socket yields: a dial error, or the reply's lines and an optional read error |
| `InfoTable` | info_table.dfy | `ParseInfoToRows` of `src/views/info/table.go`. `parseInfoToRows` in `src/main.go` is the same code. |
| `StatsCsv` | stats_csv.dfy | `fetchStats` of `src/main.go` |
| `Adapter` | adapter.dfy | `src/adapter.go`: the `show` queries, the server commands and `execCommand` |
| `Tabs`, `Messages` | tabs.dfy, messages.dfy | the panels, the tab numbering and cycling, the messages and commands of Bubble Tea, and the guard on the server commands |
| `ModelUpdate` | model_update.dfy | `Init` and `Update` of `src/model.go` |
| `LegacyUpdate` | legacy_update.dfy | `Update` of `src/update.go` |
| `RootMain` | root_main.dfy | `fetchStats`, `parseInfoToRows`, `Init` and `Update` of the root `main.go` |

Each `Update` is written twice:

- `Step` is a function from the model record, the message and the environment to the new record and the returned command. The environment is the clock, the selected table row and the outcome of a clipboard copy.
- The `Model` class has the record's fields. Its `Update` method changes them in place and is proved to agree with `Step`.

A returned command is a value (`Effect`), not a closure. Examples: fetch panel p now, fetch it after five seconds, run a server command, pass the message on to the table or the viewport.

The loops of `fetchStats`, `parseInfoToRows` and `formatBytes` are methods. Each is proved against a function stating what it computes.

Where the repository's versions differ, each module follows its own file:

- `src/model.go` cycles through `len(m.tabs)` tabs.
- `src/update.go` cycles through 5 tabs while giving the model six labels, so the Certs tab can never be reached (`LegacyUpdate.CertsTabUnreachable`). It also has no case for the certificates reply, which is passed on to the table or the viewport.
- The root `main.go` cuts each info line at its first `:` only. It applies every stats reply whatever the tab, and moves between tabs without rebuilding the table.

Behaviour of the code worth knowing:

- A failed clipboard copy is stored in `m.err`, the same field a failed stats fetch sets, and no message ever clears `m.err` (`ModelUpdate.ErrUpdates`, `ModelUpdate.Step`).
- In `src/model.go` and `src/update.go`, moving from the Info tab back to Stats keeps the rows the table holds, which are the info rows (`ModelUpdate.InfoRowsCarriedToStats`). The next stats reply replaces them.
- The repository's own `fetchStats` test sends a header and three records of four fields and expects three rows. The code drops every record with fewer than 80 fields, so that reply gives none (`StatsCsv.MockReplyNoRows`).

## Model

| member | source | states |
|---|---|---|
| Text.TrimSpace | src/views/info/table.go:39 | the result is empty or has no white space at either end |
| Text.TrimSpaceInfix | src/views/info/table.go:39 | the result is the infix of the input between an all-white-space prefix and an all-white-space suffix |
| Text.TrimSpaceEmpty | src/views/info/table.go:30 | trimming gives the empty string exactly when the input is all white space (the blank-line test) |
| Text.TrimSpaceIdempotent | src/views/info/table.go:39 | trimming twice is trimming once |
| Text.TrimLeftSuffix | src/views/info/table.go:39 | the left trim is a suffix of the input and what it removed is all white space |
| Text.TrimRightPrefix | src/views/info/table.go:39 | the right trim is a prefix of the input and what it removed is all white space |
| Text.Split | src/views/info/table.go:33 | one more piece than separators in the input; no piece holds the separator |
| Text.SplitJoin | src/views/info/table.go:33 | splitting pieces joined by a separator they do not contain gives the pieces back |
| Text.JoinSplit | src/views/info/table.go:33 | joining the pieces of a split with the separator gives the input back |
| Text.SplitConcat | src/views/info/table.go:28 | splitting a + sep + b gives the pieces of a followed by the pieces of b |
| Text.SplitWithoutSep | src/views/info/table.go:33-36 | a string without the separator splits into itself alone, so a line without ':' has fewer than two parts |
| Text.IndexOf | main.go:312 | the position of the first occurrence: it holds the character and nothing before it does |
| Text.SplitFirst | main.go:312 | SplitN(s, sep, 2): [s] without the separator, else a first piece free of it, the separator and the rest, which together rebuild s |
| Text.SplitFirstIsSplitHead | main.go:312 | the first piece of SplitN(…, 2) is the first piece of Split, and the second is the rest of Split joined back |
| Text.CutUnique | main.go:312 | a string cuts at the first separator in only one way |
| Text.IndexOfCut | main.go:312 | in a + sep + b with no separator in a, the first separator comes right after a |
| Decimal.NatToDecimal | src/utils.go:22 | `%d` of a natural number: digits whose value is the number, with no leading zero |
| Decimal.IntToDecimal | src/utils.go:22 | `%d` of an integer: a leading minus exactly for negative numbers, and reading the numeral back gives the integer |
| Decimal.IntToDecimalInjective | src/adapter.go:46 | different integers have different numerals |
| Format.SkipBlanks | src/utils.go:35 | the blanks the `%d` scan skips: a suffix of the input that starts with a newline, a non-space or nothing |
| Format.DigitPrefix | src/utils.go:35 | the longest prefix of digits: a prefix, all digits, followed by a non-digit or the end |
| Format.StringToInt | src/utils.go:33-37 | the result always fits in an int64 |
| Format.StringToIntDigits | src/utils.go:33-37 | digits followed by a non-digit read as their value when it fits in an int64, and as 0 when it does not |
| Format.StringToIntNegative | src/utils.go:33-37 | a minus sign and digits read as the negative value when it fits in an int64, and as 0 otherwise |
| Format.StringToIntReadsDecimal | src/utils.go:33-37 | the numeral of any int64, followed by any non-digit text, reads back as that number |
| Format.StringToIntRoundTrip | src/utils.go:33-37 | stringToInt inverts `%d` on every int64 |
| Format.StringToIntWithoutDigits | src/utils.go:33-37 | text without a digit, the empty string included, reads as 0 |
| Format.FormatBytes | src/utils.go:18-31 | the loop's result: below 1024, the number and " B"; from 1024 on, the quotient by the unit 1024^(e+1) with 1024^(e+1) <= b < 1024^(e+2), to one decimal, and that unit's letter |
| Format.StepsScale | src/utils.go:24-28 | dividing by 1024 until the quotient drops below 1024 selects the unit that brackets the number |
| Format.ExponentBound | src/utils.go:25-30 | for every int64 the unit index stays below 6, so "KMGTPE"[exp] never goes out of range |
| Format.Float64Exact | src/utils.go:30 | float64(b) is b for every integer below 2^53 |
| Format.FormatBytesBelowUnit | src/utils.go:21-23 | below 1024, negative numbers included, the number itself with " B" |
| Format.FormatBytesAboveUnit | src/utils.go:24-30 | from 1024 on, the rendering in the unit that brackets the number |
| Format.FormatBytesBelowUnitExample | src/utils.go:21-23 | "1023" shows as "1023 B" |
| Format.FormatBytesNonNumericExample | src/utils.go:18-23 | "abc" shows as "0 B" |
| Format.FormatBytesKiB | src/utils.go:18-31 | "1024" shows as "1.0 KB" |
| Format.FormatBytesAlmostMiB | src/utils.go:18-31 | "1048575" shows as "1024.0 KB": the letter follows the integer quotient, and the rounding of %.1f carries the figure to 1024.0 |
| Format.FormatBytesOneAndAHalfMiB | src/utils.go:18-31 | "1572864" shows as "1.5 MB" |
| Format.Truncate | src/utils.go:11-16 | a string that fits is returned unchanged; a longer one becomes exactly length characters: its first length - 3 and "..." |
| Table.KeepAppend | src/views/info/table.go:29-42 | the rows of two runs of lines are the rows of the first, then those of the second |
| Table.KeepShape | src/views/info/table.go:29-42 | never more rows than lines, and every row is the row of one of the lines |
| Table.KeepNone | src/main.go:69-101 | lines none of which gives a row give no rows |
| Table.KeepAll | src/main.go:69-101 | lines that all give a row give exactly one row each, the k-th row being the row of the k-th line |
| InfoTable.TrimAll | src/views/info/table.go:37-40 | as many cells as parts, cell k the trimmed part k |
| InfoTable.TrimParts | src/views/info/table.go:37-40 | a new array whose elements are the trimmed parts |
| InfoTable.LineRow | src/views/info/table.go:30-41 | a line gives a row exactly when it is not blank and holds a ':'; the row has one cell more than the line has colons, so at least two |
| InfoTable.LineRowCells | src/views/info/table.go:33-40 | cell k is the k-th ':' piece of the line, trimmed, so no cell starts or ends with white space |
| InfoTable.ParseInfoToRows | src/views/info/table.go:26-44 | the loop returns the rows of the lines of the text, in order |
| InfoTable.RowsOfPrefix | src/views/info/table.go:29-42 | each line adds its row, if it has one, after those of the earlier lines |
| InfoTable.RowsOfShape | src/views/info/table.go:26-44 | no more rows than lines; each row has at least two trimmed cells and is the row of one of the lines |
| InfoTable.RowsOfSkipsSilentLines | src/views/info/table.go:30-36 | a blank line or a line without ':' can be removed without changing the rows |
| InfoTable.InfoRowsOneLine | src/views/info/table.go:28 | a text without a newline gives the row of that one line, or none |
| InfoTable.InfoRowsConcat | src/views/info/table.go:28 | the rows of a + "\n" + b are the rows of a, then the rows of b |
| InfoTable.InfoRowsTrailingNewline | src/views/info/table.go:28-32 | a trailing newline changes nothing |
| InfoTable.LineRowOfPieces | src/views/info/table.go:33-41 | pieces free of ':' joined by ':' give back the pieces, trimmed |
| StatsCsv.FetchStats | src/main.go:56-108 | sends "show stat\n" once connected; the loop returns the rows of the complete reply, or the dial or read error |
| StatsCsv.StatsResult | src/main.go:56-108 | success exactly when the dial succeeds and the reading ends without error; otherwise that error, with every row read before it discarded |
| StatsCsv.RecordsSnoc | src/main.go:80-100 | one more data line adds its row, if it has one |
| StatsCsv.DataLinesSnoc | src/main.go:71-78 | an empty line changes nothing; the first non-empty line is the header; later ones are data lines |
| StatsCsv.NonEmptyAppend | src/main.go:71-73 | the non-empty lines of a + b are those of a, then those of b |
| StatsCsv.EmptyLineSkipped | src/main.go:71-73 | an empty line anywhere in the reply can be removed without changing the rows |
| StatsCsv.HeaderSkipped | src/main.go:75-78 | after any number of empty lines, the first line is dropped whatever it holds, and the remaining non-empty lines give the rows |
| StatsCsv.NarrowRecordDropped | src/main.go:80-83 | a record with fewer than 80 fields gives no row and does not disturb the others |
| StatsCsv.NarrowReplyNoRows | src/main.go:80-83 | a reply with no line of 80 fields gives no row at all |
| StatsCsv.MockReplyNoRows | src/main_test.go:81-104 | the test's reply, a header and three records of four fields, gives no row, where the test expects three |
| StatsCsv.CellsLayout | src/main.go:85-98 | a row has ten cells: fields 0, 1, 17, 4, 5 and 7, the two byte counts, then fields 13 and 18 |
| StatsCsv.StatsRowsShape | src/main.go:69-101 | no more rows than data lines, and each row comes from a non-empty data line of at least 80 fields |
| StatsCsv.HeaderThenRecords | src/main.go:71-78 | after a non-empty header, non-empty lines are all data lines, in order |
| StatsCsv.AllWideRows | src/main.go:69-101 | a header followed by N non-empty records of at least 80 fields gives exactly N rows, the k-th being the row of the k-th record, whatever the header holds |
| Adapter.ParseCommandText | src/adapter.go:28-50 | reading a command line back gives the command, for names that keep the line unambiguous |
| Adapter.ParseDisable | src/adapter.go:30 | "disable server b/s" reads back as the disable command when b has no '/' |
| Adapter.ParseEnable | src/adapter.go:38 | "enable server b/s" reads back as the enable command when b has no '/' |
| Adapter.ParseSetWeight | src/adapter.go:46 | "set server b/s weight w" reads back as the weight command when b has no '/' and s no blank |
| Adapter.CommandTextInjective | src/adapter.go:28-50 | two unambiguous commands with the same line are the same command |
| Adapter.ExecResult | src/adapter.go:56-60 | a dial failure gives a text that starts with "Error: " |
| Adapter.ExecCommand | src/adapter.go:56-72 | sends the command and a newline once connected; returns the error text or every reply line followed by a newline |
| Adapter.ReplyTextCons | src/adapter.go:65-71 | the collected text is the first line, a newline, then the text of the rest |
| Adapter.SplitReplyText | src/adapter.go:65-71 | splitting the collected text at newlines gives the reply's lines and one final empty piece |
| Adapter.InfoRowsOfReply | src/adapter.go:12-14 | the info table of a `show info desc` reply holds the rows of its lines |
| Adapter.ShowCommand | src/adapter.go:12-26 | each text panel's query is a `show` command |
| Adapter.FetchPanel | src/adapter.go:12-26 | fetchInfo, fetchErrors, fetchPools and fetchSessions send their query and hand the reply text, unchanged, to their panel |
| Adapter.RunServerCommand | src/adapter.go:28-50 | sends the command, then "show stat"; the message is the stats result, and the command's reply is ignored |
| Tabs.NextTab | src/model.go:141 | the next tab wraps from the last tab to the first |
| Tabs.PrevTab | src/model.go:163 | the previous tab wraps from the first tab to the last |
| Tabs.PrevNextInverse | src/model.go:139-182 | forward then back, or back then forward, returns to the same tab |
| Tabs.Advance | src/model.go:141 | any number of tab presses stays on a tab |
| Tabs.AdvanceWithoutWrap | src/model.go:141 | presses that do not pass the last tab move exactly that many places |
| Tabs.AdvanceSplit | src/model.go:141 | a + b presses are a presses followed by b presses |
| Tabs.FullCycle | src/model.go:141 | as many presses as tabs return to the starting tab |
| Messages.ServerCommand | src/model.go:106-138 | d, e and w give a command exactly on the Stats tab with a selected row naming a server. The row's first two cells are the backend and the server. The key picks disable, enable or weight 100. |
| ModelUpdate.Initial | src/main.go:142-148 | the program starts on the Stats tab, with six tab labels, the stats table and no error |
| ModelUpdate.Init | src/model.go:13-23 | Init asks for seven immediate fetches |
| ModelUpdate.InitFetchesEveryPanel | src/model.go:13-23 | every panel, certificates and threads included, is fetched at start |
| ModelUpdate.WithText | src/model.go:58-96 | storing a reply's text leaves the table, the active tab and the error alone |
| ModelUpdate.WithTextOf | src/model.go:58-96 | after storing a text for panel p, p's text is the new one and every other panel keeps its own |
| ModelUpdate.Step | src/model.go:25-212 | every message keeps the active tab among the tabs and the labels unchanged, and an error, once set, stays set |
| ModelUpdate.ErrUpdates | src/model.go:43-198 | the error changes only on a failed fetch, which records its reason and schedules the next stats fetch in five seconds, or on a failed clipboard copy of an info row |
| ModelUpdate.StatsReplyGated | src/model.go:49-56 | a stats reply fills the table and stamps the fetch time only on the Stats tab, and leaves the model alone elsewhere; the next fetch always follows in five seconds |
| ModelUpdate.TextReplyStored | src/model.go:58-96 | a text reply replaces its own panel's text and no other, keeps the tab and the error, and schedules that panel's next fetch |
| ModelUpdate.TextReplyRows | src/model.go:58-66 | only an info reply on the Info tab refills the table, with the info rows of the new text |
| ModelUpdate.QuitKeys | src/model.go:104-105 | q, ctrl+c and esc quit and change nothing |
| ModelUpdate.CommandKeys | src/model.go:106-209 | d, e and w leave the model unchanged and run a command exactly on the Stats tab with a server row; otherwise the key is passed on |
| ModelUpdate.TabKeysMove | src/model.go:139-182 | the tab keys move to the next or the previous of all the tabs, wrapping around |
| ModelUpdate.NextThenPrev | src/model.go:139-182 | tab then shift+tab returns to the starting tab |
| ModelUpdate.EnterInfo | src/model.go:142-147 | entering Info builds a fresh info table from the stored info text, shows that text in the viewport, and returns no command |
| ModelUpdate.EnterStats | src/model.go:148-159 | entering Stats builds a fresh stats table that keeps the current rows; it fetches at once exactly when it comes from another tab |
| ModelUpdate.InfoRowsCarriedToStats | src/model.go:161-182 | shift+tab from Info lands on Stats with the info table's rows under the stats columns |
| ModelUpdate.EnterTextTab | src/model.go:139-209 | entering any other tab changes only the tab; tab returns no command, shift+tab passes the key on to the viewport |
| ModelUpdate.CopyThenClear | src/model.go:98-198 | y on a selected info row copies its second cell and shows the message; the clear message two seconds later gives back the model with an empty message |
| ModelUpdate.CopyNeedsInfoRow | src/model.go:183-209 | outside the Info tab, or without a two-cell selection, y copies nothing and is passed on |
| ModelUpdate.ResizeKeepsContent | src/model.go:30-41 | a resize gives the table and viewport the window height minus 6 and the viewport the width minus 4, keeping rows, columns, text and tab |
| ModelUpdate.Model.constructor | src/main.go:142-148 | the new model is the initial record |
| ModelUpdate.Model.Update | src/model.go:25-212 | updates the fields in place to Step's record and returns Step's command and the text handed to the clipboard |
| ModelUpdate.Model.SetText | src/model.go:58-96 | the text replies, field by field |
| ModelUpdate.Model.PressKey | src/model.go:102-209 | the key presses, field by field |
| ModelUpdate.Model.SwitchTab | src/model.go:139-182 | the tab switch, field by field |
| LegacyUpdate.Initial | src/main.go:142-148 | the program starts on the Stats tab, with six tab labels, the stats table and no error |
| LegacyUpdate.Step | src/update.go:10-185 | every message keeps the active tab among the five and the labels unchanged, and an error, once set, stays set |
| LegacyUpdate.CertsTabUnreachable | src/update.go:112-155 | no run of key presses ever makes Certs, the sixth label, the active tab |
| LegacyUpdate.KeysValid | src/update.go:112-155 | any run of key presses keeps the active tab among the first five |
| LegacyUpdate.TabKeysModFive | src/update.go:114 | the tab keys move to (tab + 1) % 5 or (tab - 1 + 5) % 5 |
| LegacyUpdate.TabKeyEntersTab | src/update.go:112-155 | a tab key switches tabs as src/model.go does, among five tabs |
| LegacyUpdate.FetchFailedRetries | src/update.go:28-32 | a failed fetch records its reason, changes nothing else and schedules the next stats fetch in five seconds |
| LegacyUpdate.ResizeKeepsContent | src/update.go:15-26 | a resize changes only the sizes: heights minus 6, viewport width minus 4 |
| LegacyUpdate.ClearMessageOnly | src/update.go:71-73 | the clear message empties the status message and changes nothing else |
| LegacyUpdate.EnterInfo | src/update.go:115-120 | arriving on Info by a tab key builds the info table from the stored text and shows that text |
| LegacyUpdate.EnterStats | src/update.go:121-131 | arriving on Stats by a tab key keeps the rows in a fresh stats table and fetches at once |
| LegacyUpdate.CopyKey | src/update.go:156-171 | y on a selected info row copies its second cell; success shows the message and schedules its clearing, failure records the error and passes the key on |
| LegacyUpdate.QuitKeys | src/update.go:77-78 | q, ctrl+c and esc quit and change nothing |
| LegacyUpdate.TextReplies | src/update.go:43-182 | info, errors, pools and sessions replies are stored and refetched in five seconds; the certificates and threads replies are passed on untouched |
| LegacyUpdate.Model.constructor | src/main.go:142-148 | the new model is the initial record |
| LegacyUpdate.Model.Update | src/update.go:10-185 | updates the fields in place to Step's record and returns Step's command and the text handed to the clipboard |
| LegacyUpdate.Model.SetText | src/update.go:43-69 | the text replies, field by field |
| LegacyUpdate.Model.PressKey | src/update.go:75-182 | the key presses, field by field |
| LegacyUpdate.Model.SwitchTab | src/update.go:112-155 | the tab switch, field by field |
| RootMain.FetchStats | main.go:238-299 | the status branch keeps UP, DOWN and every other status as it is, so the loop returns exactly the rows of the later fetchStats |
| RootMain.FirstColonRow | main.go:305-320 | a line gives a row exactly when it is not blank and holds a ':'; the row has two cells |
| RootMain.ParseInfoToRows | main.go:301-324 | the loop returns the first-colon rows of the lines, in order |
| RootMain.FirstColonRowCut | main.go:312-318 | the two cells are the trimmed text before the first ':' and the trimmed text after it |
| RootMain.KeyValueLine | main.go:312-318 | "key:value" with no ':' in the key gives the trimmed key and the trimmed value, whatever colons the value holds |
| RootMain.FirstColonVersusSplitAll | main.go:312-318 | the first cell agrees with the all-colon split of src/main.go; the second is the rest of the line rejoined |
| RootMain.OneColonAgrees | main.go:301-324 | on lines with exactly one ':', both parsers give the same row |
| RootMain.Initial | main.go:474-480 | the program starts on the Stats tab, with five labels, the stats table and no error |
| RootMain.Init | main.go:59-67 | Init asks for five immediate fetches |
| RootMain.InitFetchesTabPanels | main.go:59-67 | exactly the five panels with a tab are fetched at start |
| RootMain.Step | main.go:69-180 | every message keeps the active tab among the five and the labels unchanged, and an error, once set, stays set |
| RootMain.FetchFailedRetries | main.go:87-91 | a failed fetch records its reason, changes nothing else and schedules the next stats fetch in five seconds |
| RootMain.StatsAlwaysApplied | main.go:93-98 | a stats reply fills the table and stamps the fetch time whatever the tab |
| RootMain.TabKeysOnlyMove | main.go:128-133 | the tab keys change the tab by one modulo 5 and nothing else, and return no command |
| RootMain.CommandKeys | main.go:134-177 | d, e and w leave the model unchanged and run the command of Messages.ServerCommand exactly on the Stats tab with a server row |
| RootMain.TextReplies | main.go:100-177 | text replies leave the table and tab alone; the four stored kinds schedule their refetch; the others are passed on |
| RootMain.Presses | main.go:128-130 | any number of presses of one key keeps the model valid |
| RootMain.PressesAdvance | main.go:128-130 | n presses of tab land n tabs further, wrapping among five |
| RootMain.FiveTabsCycle | main.go:128-130 | five presses of tab return to the starting tab |
| RootMain.Model.constructor | main.go:474-480 | the new model is the initial record |
| RootMain.Model.Update | main.go:69-180 | updates the fields in place to Step's record and returns Step's command |

## Left out

- Socket I/O is not modelled. Each exchange is a `Socket.Reply` value: the dial error, or the lines the scanner returns and the error it stops with. Scanner token limits and partial writes are not modelled.
- Timers, the clock and Bubble Tea's runtime are not modelled. A returned command is a value naming what it would do. `tea.Batch` of the forwarded component's own command is `Forward(component)`.
- The bubbles table and viewport components are reduced to their columns, rows, height, width and content. Their own `Update`, cursor movement and rendering are not modelled. The row under the cursor is an input of `Update`.
- `copyToClipboard`, the `View` functions, styles and `main`'s argument parsing are not modelled. The clipboard outcome is an input.
- `fetchCerts`, `fetchThreads` and the `threadsMsg` type are not part of this model's sources. Their replies are text messages like the others.
- `initializeInfoTable` and `initializeStatsTable`, called by `src/update.go`, are not part of this model's sources. They are taken to be the `InitializeTable` functions of `src/views`.
- Go strings are byte sequences. They are modelled as sequences of characters.
- White space for `TrimSpace` and the `%d` scan is the ASCII set. Unicode's other spaces (U+0085, U+00A0, U+2000 and the like) are not treated as white space.
- Format.Truncate: requires length >= 3 when the string is longer than length, because a negative slice bound panics in Go.
- StatsCsv.Project: has no contract of its own. `StatsCsv.CellsLayout` states the layout of its cells, and the `Format` lemmas state the byte cells.
- `fetchStats`'s commented-out `truncate` calls and the root `main.go`'s `styleStatus` are not modelled: neither reaches a row.
- Example renderings of literal multi-line info texts are not stated. They only instantiate `InfoTable.InfoRowsConcat` and `InfoTable.LineRow`.

## Findings

| source | as written | input that shows it | evidently intended | confidence | as-written member | corrected member |
|---|---|---|---|---|---|---|
| src/update.go:114 | the tab keys cycle with `% 5`, while the model is given six labels and a Certs tab | any run of tab presses from the Stats tab: the sixth label, Certs, never becomes active | cycle through `len(m.tabs)` tabs, as src/model.go:141 does | medium, not executed | LegacyUpdate.CertsTabUnreachable | ModelUpdate.TabKeysMove |
