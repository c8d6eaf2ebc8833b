# A verified model of GtkHx

GtkHx is a client for Hotline servers. This project models, in Dafny, the parts of its C
code that parse, print, round, or keep an invariant across callbacks, and proves what they
promise. A `string` stands for the bytes of a C string, one `char` per byte; `Option` stands
for a pointer that may be NULL or a call that may fail.

What C code changes in place is a class with the same fields, or a method over an array,
and is proved equal to a function on values; the properties are then proved of that function,
over every input, every run or every reachable state.

| files | what they model |
|---|---|
| `Wrappers`, `Text`, `Files`, `Decimal` | `Option`, character classes, file rows, decimal numerals and the C library's reading of integers |
| `DockTree`, `DockParser` | the legacy dock-layout expression, its format and its recursive-descent parser |
| `Json`, `DockImport`, `DockImportProofs`, `DockImportCases`, `DockImporter`, `DockWritten` | the import of a legacy layout as JSON, the text it is written as, and an RFC 8259 reader that undoes it |
| `DockStore`, `DockKeeper`, `DockMigration` | what the main window keeps, its key file, the debounced save, and a legacy layout measured by the window's size |
| `HumanSize`, `HumanSizeProofs`, `HumanReadable` | the byte-count formatter |
| `ChatHistory`, `ChatHistoryProofs`, `ChatHistoryRuns`, `ChatHistoryOrder`, `ChatHistoryServed` | chat history: batches, Load-older clicks, live lines, clears, the server asked, and connections that close |
| `RemoteListing`, `RemoteProtocol` | listings of remote panes: requests, answers, the watchdog, the pending table |
| `LocalListing` | listings of a local pane, read by workers |
| `HostPort`, `HotlineUrl`, `HotlineUrlCases`, `HotlineUrlParser` | `host:port` text and `hotline://` addresses |
| `Commands` | the slash-command index and look-up |
| `Themes`, `ThemeCases`, `ThemePicker` | the theme list and the file the loader opens |

Where the code and its comments disagree, or the code does what its comments do not say, the
model follows the code:

- The comment at src/chat.c:1087-1117 says the sentinel stays on top of the history block and
  the block stays chronological. The anchor never moves, so this holds for the first page that
  has anything in it and for no later one. `ChatHistoryOrder.BlockOrdered` and `SentinelOnTop`
  give the exact conditions, and `SecondPageLandsBelow` a run where messages 3, 4 and then
  1, 2 stand as 3, 4, 1, 2.
- The comment at src/files_remote_provider.c:331-334 says the pending table makes the newer of
  two requests win. The table alone lets the first reply win (`RemoteProtocol.FirstReplyWins`);
  the newer request wins because the receiver forgets the older one
  (rust/crates/hxhandlers/src/recv/files.rs:167-178, `RemoteProtocol.ReplyIsNewest`).
- The comment at src/chat.c:1237-1240 says the receive path unsticks `loading`. A connection that
  goes while an older page is awaited breaks that latch: it lets the request go
  (src/network.c:190) and leaves `loading` set with nothing on its way
  (`ChatHistoryServed.CloseBreaksLatch`). Then clicks do nothing, and the next connection's
  history is taken for an older page: it stands without dividers and, since a connect clears the
  rows (src/network.c:354), turned round above its own sentinel (`StuckStays`, `StuckEnds`,
  `ReconnectRows`). Along every run in which a click needs the sentinel's row, no other step breaks
  it (`OnlyGoingBreaks`). A login's batch that arrives while a page is awaited would, being taken
  for that page (src/chat.c:975-986), but that needs a click in a view with no sentinel
  (`LatchKept`, `LoginBreaksLatch`), which src/chat.c:1115-1117 says does not happen.
- A clear (src/chat.c:2107-2120) leaves the cursor and the anchor as they are. Until the next
  first batch, older pages stand newest first (`ChatHistoryOrder.ClearedOrdered`), and what was
  cleared is asked for by no "Load older" again (`ChatHistoryServed.PageIsUnseen`). With nothing on
  its way, no older page at all is asked for before the next connection (`ClearEndsPaging`).
- A legacy layout that loads is not a change and is not saved (src/dock_layout.c:258-260), and its
  dividers are measured by a window size that the user and a quit rewrite (src/toolbar.c:197-215,
  src/gtkhx.c:661-675). Until something else is saved, the dividers may come up elsewhere at the
  next start: `DockKeeper.ShutdownLosesNothing` and `DockMigration.ImportsAgreeIff` say exactly
  when, and `DockMigration.ResizeMovesDivider` gives a file.
- A save that fails is not tried again before the next change (src/dock_layout.c:112, 120-122;
  `DockKeeper.FailedWriteForgets`).
- `human_readable`'s tie at an odd base (src/human_readable.c:158-159) is misread by a turn in
  general (`HumanSize.TurnExact`), but a run that starts from a whole number never comes to it.
  What does break the loop is the 32-bit product at a base above 429496729
  (`HumanSizeProofs.ExactIffNarrow`). Given a positive unit, the code does not round at one half
  but at 0.55, and in the widest units not at all (`HumanSizeProofs.WholeIsNearestIff`,
  `WideUnitCuts`). The branch at src/human_readable.c:180-185
  never runs (`HumanReadable.RoundWhole`).

`g_ascii_isspace` does not take the vertical tab; `isspace` and the integer readers do.

## Model

| member | source | states |
|---|---|---|
| DockTree.ParsesExactly | src/dock_layout_parse.c:57-253 | for every text and every tree, the parser returns the tree if and only if the tree is well formed and the text is its tokens with white space anywhere around them |
| DockTree.ParseUndoesPrint | src/dock_layout_parse.h:18-32 | a well-formed tree of any depth, printed with any white space before, between and after its tokens, parses to exactly that tree |
| DockTree.PrintUndoesParse | src/dock_layout_parse.c:239-253 | an accepted text is consumed whole, its tree is well formed, and without white space it is the tree printed |
| DockTree.PrintIsInjective | src/dock_layout_parse.h:18-32 | two well-formed trees that print alike are the same |
| DockTree.PrintIsWritten | src/dock_layout_parse.h:18-32 | what is printed is the expression as documented: `h(A,B)` side by side, `v(A,B)` one above the other, `L[id1,*id2:role]` with the star before the page in front |
| DockTree.WrittenParses | src/dock_layout_parse.h:18-32 | that expression of a well-formed tree parses to the tree |
| DockTree.IdsAre | src/dock_layout_parse.c:124-140 | an id is any text but the empty one without `,`, `]`, `:`, `*` or white space |
| DockTree.RolesAre | src/dock_layout_parse.c:160-174 | a role is any text but the empty one without `]` or white space |
| Text.SpacesAre | src/dock_layout_parse.c:57-63 | white space is a tab, a line or form feed, a carriage return or a space |
| Text.HexValueIs | src/hotline_url.c:47 | the sixteen hexadecimal digits in either case, and no other character |
| Text.LowerIs | src/hotline_url.c:71 | the twenty-six capitals have their small letters, and any other character stays |
| DockTree.LeafAccepted | src/dock_layout_parse.c:90-181 | every spacing of a well-formed leaf is read as that leaf, up to its bracket |
| DockTree.LeafSound | src/dock_layout_parse.c:90-181 | a leaf that is read is well formed (ids non-empty and free of separators, at most one mark, a role that is not empty) and its tokens are what was read |
| DockTree.NodeSound | src/dock_layout_parse.c:183-237 | a node that is read, at any depth, is well formed and its tokens are what was read |
| DockParser.Cursor.SkipWs | src/dock_layout_parse.c:57-63 | the cursor moves past exactly the white space before it |
| DockParser.Cursor.MatchChar | src/dock_layout_parse.c:65-74 | a character is taken if it is next after white space, and only white space otherwise |
| DockParser.Cursor.MatchPrefix | src/dock_layout_parse.c:76-86 | a prefix is taken if it is next after white space |
| DockParser.Cursor.ReadIds | src/dock_layout_parse.c:104-158 | the id loop gives the ids and the mark that the grammar's reading gives, and fails where it fails |
| DockParser.Cursor.ReadRole | src/dock_layout_parse.c:160-174 | the role, none, or a failure on an empty one |
| DockParser.Cursor.ReadLeaf | src/dock_layout_parse.c:90-181 | the leaf of the grammar's reading, with the cursor where that leaves off |
| DockParser.Cursor.ReadSplit | src/dock_layout_parse.c:183-216 | the split of the grammar's reading |
| DockParser.Cursor.ReadNode | src/dock_layout_parse.c:218-237 | the node of the grammar's reading; the recursion ends because the text left shrinks |
| DockParser.ParseTreeText | src/dock_layout_parse.c:239-253 | NULL gives NULL; any other text gives the tree it spells, if it spells one |
| Json.CharsRead | src/dock_layout_parse.c:257-272 | a reader by section 7 of RFC 8259 undoes the escaping of every byte string |
| Json.ReadUndoesEmit | src/dock_layout_parse.c:303-458 | a reader by RFC 8259 recovers every value that is written, at any depth |
| DockImporter.JsonString | src/dock_layout_parse.c:257-272 | appends the quoted, escaped string and nothing else |
| DockImporter.NumberSplits | src/dock_layout_parse.c:276-290 | the splits of a tree are entered in post-order, from the number given on |
| DockImporter.LeafJson | src/dock_layout_parse.c:307-336 | appends the JSON of the leaf with its kept tabs, its front page and its slot |
| DockImporter.NodeJson | src/dock_layout_parse.c:303-359 | appends the JSON of the whole subtree, each split measured in its own box |
| DockImporter.FloatingIds | src/dock_layout_parse.c:382-385 | the ids of the undocked windows |
| DockImporter.StripClosed | src/dock_layout_parse.c:391-397 | the closed ids stripped, and whether any is left to write |
| DockImporter.ClosedIds | src/dock_layout_parse.c:411-424 | appends the closed ids that are neither empty nor left out |
| DockImporter.FloatingWindows | src/dock_layout_parse.c:426-449 | appends a window for each undocked id but "files", with its size when it has one |
| DockImporter.ImportLegacy | src/dock_layout_parse.c:361-458 | NULL exactly for a tree that does not parse; otherwise a text that a JSON reader turns back into exactly the layout meant |
| DockWritten.DocIsWritten | tests/unit/test_dock_layout_parse.c:430-474 | the JSON text of every layout, key by key: "row" or "col", the two shares, the kids; tabs, the front page unless it is the first, the slot; the envelope's closed panels and windows |
| DockWritten.ImportIsWritten | src/dock_layout_parse.c:303-458 | an import's text is that |
| DockImportProofs.ImportReadsBack | src/dock_layout_parse.c:303-458 | the JSON of an import reads back as the tree, shares, tabs, front pages, slots, closed panels and sized windows it was written from; every share is in 50..950 thousandths |
| DockImportProofs.ImportConserves | src/dock_layout_parse.c:294-336 | each leaf keeps its ids in order but "files" and the undocked; every id is counted: none is lost, none added, and each undocked one gets its window |
| DockImportProofs.ActiveNames | src/dock_layout_parse.c:307-328 | the front page written names the id selected before, whenever that is kept |
| DockImportProofs.KeptCounts | src/dock_layout_parse.c:294-324 | a kept id occurs as often as it did and a left-out one not at all |
| DockImportProofs.DividersInPostOrder | src/dock_layout_parse.c:276-290 | the i-th split in post-order has the i-th divider, a split past the list has none, and no two splits share one |
| DockImportProofs.ShareRounds | src/dock_layout_parse.c:339-347 | a divider is kept to half a thousandth of its extent, moved to a twentieth from the edge when nearer, and put in the middle when there is none |
| DockImportProofs.LayoutMeasured | src/dock_layout_parse.c:338-356 | every divider is measured against the box of its own split, at every depth |
| DockImportCases.WindowMeasures | src/dock_layout_parse.c:388-389 | the whole is measured in a box as wide and high as the window, or 1100 wide or 700 high when its width or height is not positive |
| DockImportCases.OneSplitShare | src/dock_layout_parse.c:338-347 | one divider at `p` pixels is that part of the window's width side by side and of its height one above the other, to half a thousandth, no nearer an edge than a twentieth, and in the middle without a number |
| DockImportCases.HeightForVertical | src/dock_layout_parse.c:340-341 | at 350 in a window 1000 by 700: 0.5 one above the other and 0.35 side by side; in one of no size, 140 and 220 are 0.2 |
| DockImportCases.DividerOf | src/dock_layout_parse.c:276-290 | the i-th split in post-order is at its number, and at 0 past the list |
| DockImportCases.PositionReads | src/dock_layout_parse.c:285-287 | a number is read from the start of its field and 0 where there is none |
| DockImportCases.ClosedPanels | src/dock_layout_parse.c:391-424 | the closed panels written are the list's ids in order, stripped, without empty ones, "files" and the undocked; the envelope and its two lists are there exactly when needed |
| DockImportCases.WindowsAre | src/dock_layout_parse.c:426-449 | each undocked id but "files" has its window, in order, with the size it was listed with |
| DockImportCases.SizeExactly | src/dock_layout_parse.c:442-446 | a size is two positive numbers with a comma between them, whatever follows, and nothing else |
| DockImportProofs.BoxesPartition | src/dock_layout_parse.c:338-356 | every leaf gets a box with room in it, and each point of the window is in exactly one |
| DockImportProofs.BoxesArea | src/dock_layout_parse.c:338-356 | the areas of the leaves' boxes add up to the window's |
| DockImportProofs.ShareTextReads | src/dock_layout_parse.c:345-351 | a share's decimal text is a JSON number and reads back exactly |
| DockStore.LoadUndoesSave | src/dock_layout.c:65-117 | loading what was saved gives back the memory if and only if a file can hold it: no hidden id is empty or has a semicolon, and every window name can be a key |
| DockStore.BareReadsBack | src/dock_layout.c:84-98 | the hidden ids joined and split again are the same set if and only if none is empty or has a semicolon |
| DockStore.RisingIsOne | src/dock_layout.c:85-87 | a set of ids has one sorted list, so the text saved does not depend on the hash order |
| DockStore.LoadedIsClean | src/dock_layout.c:160-190 | what any file loads as can be saved again |
| DockStore.SizeReadsBack | src/dock_layout.c:325-351 | a window size kept comes back when both sides are positive, and not otherwise |
| DockStore.SavedKeys | src/dock_layout.c:65-117 | each flag is saved as true under its own key and only when on, the layout and the hidden ids under theirs, and no legacy key |
| DockStore.LoadedFlags | src/dock_layout.c:159-173 | a flag is on when its own key says `true` or `1`, white space after it aside; a file's layout is used before its tree |
| DockStore.HiddenText | src/dock_layout.c:84-98 | hidden ids are joined by semicolons |
| DockStore.SortedBy | src/dock_layout.c:85-87 | ids are sorted by their first character that differs, a shorter one before its continuations |
| DockStore.SizeKept | src/dock_layout.c:343-351 | a size is kept as two numbers with a comma between them |
| DockKeeper.ChangesAre | src/dock_layout.c:145-351 | each setter changes its own part of the memory, as it says, and no other |
| DockKeeper.StepsAre | src/dock_layout.c:102-367 | a load imports a legacy file at the window's size of the moment, a save or a shutdown writes and disarms, a change arms, a resize only resizes, and a start without a file is blank |
| DockKeeper.RunKeeps | src/dock_layout.c:102-272 | over any run of clean changes, timer firings, loads, resizes and shutdowns, whichever writes fail, the file read at the size a legacy layout was last measured by gives the memory as of the last successful write or later load; a file once written needs no size, and one never written is as it was |
| DockKeeper.NextStartIff | src/dock_layout.c:195-272 | at any moment of any such run, a process started in a window of any size has that memory if and only if a save was written, the first file is missing or settled (a layout, no tree, or a tree that does not parse), or its imports agree at the two sizes |
| DockKeeper.ShutdownLosesNothing | src/dock_layout.c:358-367 | from any file, legacy or not, through any run whose writes succeed and a shutdown: nothing is left to save, and the next process, in a window of any size, starts with the memory the first one ended with if and only if a save was written, the first file is missing or settled, or its imports agree at the two sizes |
| DockKeeper.SaveKeepsIff | src/dock_layout.c:102-132 | a save that is written can be loaded back, at any size of the window, if and only if the memory is clean |
| DockKeeper.QuietKeepsFile | src/dock_layout.c:134-143 | with no save to come, nothing but a change brings another write, not even the shutdown |
| DockKeeper.FailedWriteForgets | src/dock_layout.c:111-123 | after a write that fails, and until another change, the next process starts as if the change had not been made |
| DockMigration.ImportsAgreeIff | src/dock_layout.c:220-222 | the imports of a tree at two sizes of the window are the same text if and only if every split has the same share at both |
| DockMigration.FileImports | src/dock_layout.c:195-233 | a legacy file's layout is the import of its `tree`, `sizes`, `closed` and undocked pairs |
| DockMigration.NoTreeNoImport | src/dock_layout.c:207-210 | a file without a tree, or with one that does not parse, imports as nothing, and any other as something |
| DockMigration.ResizeMovesDivider | src/dock_layout.c:258-260 | two panes with a divider at 300 pixels, started 1000 wide, resized to 2000 and quit: the next process does not have the memory this one had |
| DockMigration.TwoPanesDisagree | src/dock_layout.c:220-222 | that divider is at 300 thousandths in the one window and at 150 in the other |
| DockMigration.MigrationHolds | src/dock_layout.c:192-272 | over any run in which the dock asks to keep nothing else, once a save was written a process started in a window of any size has the layout as it was last imported, and so has this one |
| DockKeeper.Dock.SaveNow | src/dock_layout.c:102-132 | the timer is off, and the file is the memory saved or, when the write fails, as it was |
| DockKeeper.Dock.KeepLayout | src/dock_layout.c:145-151 | the layout is replaced, a save is to come, and the file is as it was |
| DockKeeper.Dock.SetPanelActionsHidden | src/dock_layout.c:285-297 | the id is in the set or out of it, and a save is to come |
| DockKeeper.Dock.SetToolbarVisible | src/dock_layout.c:305-310 | the flag is set and a save is to come |
| DockKeeper.Dock.SetPaneTitlesVisible | src/dock_layout.c:318-323 | the flag is set and a save is to come |
| DockKeeper.Dock.SetWindowSize | src/dock_layout.c:343-351 | the size is kept under its name and a save is to come |
| DockKeeper.Dock.Sort | src/dock_layout.c:86-87 | whatever order the table gives its keys in, the one sorted list of them |
| DockKeeper.Dock.Join | src/dock_layout.c:88-95 | the ids with a semicolon before each that something precedes |
| DockKeeper.Dock.Split | src/dock_layout.c:181-189 | the fields that are not empty, as a set |
| DockKeeper.Dock.LoadChrome | src/dock_layout.c:160-190 | the flags, sizes and hidden ids are the file's; the layout is untouched |
| DockKeeper.Dock.ImportLegacyFile | src/dock_layout.c:195-233 | NULL without a tree that parses, and otherwise the text of the import of the file's four entries |
| DockKeeper.Dock.LoadFile | src/dock_layout.c:235-272 | a missing file changes nothing; any other replaces the memory by what it holds, its layout imported if it is a legacy one |
| DockKeeper.Dock.ShutDown | src/dock_layout.c:358-367 | a save that was to come is tried, and none is left |
| HumanSize.TurnExact | src/human_readable.c:82-86 | a turn of the loop keeps the summary of the exact quotient if and only if it is not at an odd base's tie |
| HumanSize.ScaleExact | src/human_readable.c:150-161 | the whole loop keeps it: amt, tenths and rounding say exactly what n over the power of the base is, for every base up to 429496729 |
| HumanSize.ReadableIsNearest | src/human_readable.c:150-192 | the text is the number in the largest unit it reaches, to the nearest tenth with ties to even, and below the base the number itself |
| HumanSizeProofs.NearestIsNearest | src/human_readable.c:163-175 | the rounding used is the nearest: at most half away, and even when exactly half |
| HumanSizeProofs.SizeReadsBack | src/human_readable.c:163-192 | the text, its letter taken as 1 for k, 2 for M up to 8 for Y, reads back as the value shown, which is within half a tenth of its unit |
| HumanSizeProofs.UnitLetter | src/human_readable.c:38-163 | a number that reaches the k-th power of the base and no higher is printed as the nearest tenths of it with the k-th letter of kMGTPEZY |
| HumanSizeProofs.KilobytesOfTheTests | tests/unit/test_human_readable.c:39-65 | 1, 1024, 1500 and 8500 print as 1, 1.0k, 1.5k and 8.3k |
| HumanSizeProofs.MegabytesOfTheTests | tests/unit/test_human_readable.c:82-83 | 1048576 and 1572864 print as 1.0M and 1.5M |
| HumanSizeProofs.GigabytesOfTheTests | tests/unit/test_human_readable.c:94-96 | 1073741824 and 4294967295 print as 1.0G and 4.0G |
| HumanSizeProofs.ShownMonotone | src/human_readable.c:150-192 | a bigger size never shows as a smaller one, across units too |
| HumanSizeProofs.SizeFits | src/human_readable.c:195-199 | a 64-bit size needs at most seven characters, no unit above exa, and no more than 1024 before the point |
| HumanSizeProofs.WholeRule | src/human_readable.c:139-146 | in a unit given outright, of any size, the code rounds up when the tenths it keeps in 32 bits pass 5.5, and at exactly 5.5 to the even number |
| HumanSizeProofs.WholeIsNearestIff | src/human_readable.c:177-178 | that is the nearest whole number if and only if the remainder is not in the gap: due to go up, with kept tenths short of 5.5, or at it over an even number |
| HumanSizeProofs.WideUnitCuts | src/human_readable.c:140-145 | in a unit from 780903145 up the code never rounds up |
| HumanSizeProofs.GapExample | src/human_readable.c:177-178 | 510 in units of 1000 prints as 0 though 1 is nearer |
| HumanSizeProofs.SmallerUnit | src/human_readable.c:101-104 | an output unit that the input unit holds m times gives m for each |
| HumanSizeProofs.LargerUnit | src/human_readable.c:139-146 | one that holds the input unit d times gives the quotient by d, rounded as above |
| HumanSizeProofs.BaseOne | src/human_readable.c:150-161 | in powers of one every number but 0 is printed as it is with the last letter |
| HumanSizeProofs.ExactIffNarrow | src/human_readable.c:154-155 | the loop is exact for every 64-bit number if and only if the base is at most 429496729, where ten times a remainder fits 32 bits |
| HumanSizeProofs.WideRunFails | src/human_readable.c:154-155 | for every wider base but one, the run of twice the base less one is not exact |
| HumanSizeProofs.NextBaseFails | src/human_readable.c:154-155 | at that one base, a run of two turns is not exact |
| HumanReadable.ScaleDown | src/human_readable.c:150-161 | the loop gives the summary and the power its specification gives |
| HumanReadable.IntoUnits | src/human_readable.c:99-146 | the conversion of units, and none exactly when it overflows 64 bits |
| HumanReadable.OverflowShows | src/human_readable.c:102-106 | dividing the product again gives the number back if and only if the product fits 64 bits |
| HumanReadable.OverflowsIff | src/human_readable.c:101-106 | the conversion overflows exactly when the number times the units in one is 2^64 or more |
| HumanReadable.PutDigits | src/human_readable.c:188-190 | the digits stand just before what was there, and the rest of the buffer is as it was |
| HumanReadable.PutTenths | src/human_readable.c:163-174 | suffix, tenth and point stand in the buffer, and with the digits of what is left they are the abbreviated text |
| HumanReadable.RoundWhole | src/human_readable.c:177-186 | the final rounding; its inner branch is never taken |
| HumanReadable.Format | src/human_readable.c:71-193 | the text is in the buffer from the pointer returned to the terminator, and the bytes before are untouched; none exactly when the conversion overflows |
| HumanReadable.SizeText | src/human_readable.c:195-199 | the nearest text in powers of 1024, in the last eight bytes |
| ChatHistory.Output.OutputBatch | src/chat.c:962-1195 | a batch leaves exactly the rows, marks, cursor and latch its specification gives |
| ChatHistory.Output.LoadMore | src/chat.c:1219-1283 | a click leaves exactly the state its specification gives: nothing while loading or when nothing was sent |
| ChatHistory.Output.LowerCursor | src/chat.c:995-1007 | the cursor loop passes over missing entries and zero ids and keeps the lowest |
| ChatHistory.Output.RenderEntries | src/chat.c:1129-1178 | one row per entry, in order, above the anchor or at the end, or each above the one before at the head when the anchor's row is gone |
| ChatHistory.Output.ClearView | src/chat.c:2107-2120 | the rows go; cursor, latch and marks stay as they are |
| ChatHistoryProofs.RowTells | src/chat.c:1137-1177 | by bits 2, 1 and 0 of the flags, the first that is set: a removed message is "[message removed]" and nothing of itself, the server's is "*** " and the message, an action "* ", nick and message, all without a gutter; a plain one has <nick> in the gutter and the message as its text |
| ChatHistoryProofs.PresentAre | src/chat.c:1130-1134 | every entry that is there is drawn, in order, and a missing one passed over |
| ChatHistoryProofs.StepTells | src/chat.c:984-1010 | a batch ends the wait and keeps has_more, a click waits only when it was sent and none is awaited, a clear takes the rows alone |
| ChatHistoryProofs.InitialRows | src/chat.c:1073-1191 | the first batch: the sentinel, then the block between its dividers, at the end |
| ChatHistoryProofs.OlderRows | src/chat.c:1118-1178 | an older page lands contiguous and in order just above the anchor, its sentinel just above it, and what earlier pages put there stays above both |
| ChatHistoryProofs.StaleRows | src/chat.c:1050-1178 | an older page whose anchor a clear took away: newest first at the head, its sentinel under it |
| ChatHistoryProofs.UnanchoredRows | src/chat.c:1050-1178 | a page asked for before any batch: the sentinel at the head, the page at the end |
| ChatHistoryProofs.EmptyRows | src/chat.c:1012-1028 | an empty batch with nothing to come only takes the sentinel or loading row away |
| ChatHistoryProofs.ClickRows | src/chat.c:1252-1282 | a click swaps the sentinel for a loading row just above the anchor and moves nothing else |
| ChatHistoryProofs.RunInv | src/chat.c:962-1283 | over every run, clears too, marks are distinct, a row the anchor names is an opening divider, and `load_older_ent` names the only sentinel or loading row; without a clear, rows named stay there |
| ChatHistoryProofs.RunHasOneMarker | src/chat.c:1012-1020 | from an empty view on there is one sentinel or loading row while the one named is there and none otherwise, the loading one exactly while a page is awaited; without a clear the row named is there |
| ChatHistoryRuns.StepInserts | src/chat.c:962-1283 | every step but a clear inserts one contiguous piece among the rows that are not the sentinel, just above the anchor, at the head without it, or at the end |
| ChatHistoryRuns.RunKeepsOrder | src/chat.c:962-1283 | over every run without a clear the rows already drawn keep their relative order |
| ChatHistoryRuns.RunBlock | src/chat.c:1118-1178 | over every run of older pages, clicks and lines, the block above the anchor is the pages in the order they came |
| ChatHistoryRuns.RunHead | src/chat.c:1050-1178 | over every such run whose anchor a clear took away, the pages stand from the last to the first, each newest first, above what was there |
| ChatHistoryOrder.BlockOrdered | src/chat.c:1087-1117 | that block is chronological if and only if at most one page had anything in it |
| ChatHistoryOrder.ClearedOrdered | src/chat.c:2107-2120 | after a clear, what such a run shows is chronological if and only if no page had more than one message |
| ChatHistoryOrder.SecondPageLandsBelow | src/chat.c:1087-1117 | a run where messages 3, 4 and then 1, 2 stand as 3, 4, 1, 2 |
| ChatHistoryOrder.TwoPages | src/chat.c:1118-1178 | of any two pages each asked for by a click, the second stands below the first |
| ChatHistoryOrder.SentinelOnTop | src/chat.c:1118-1127 | a page's sentinel is on top of the block if and only if every page before it was empty |
| ChatHistoryOrder.LoadingUnderBlock | src/chat.c:1270-1282 | the loading row stands below the whole block |
| ChatHistoryOrder.RunShows | src/chat.c:1129-1178 | over every run, what is shown is exactly what was received since the last clear, each entry as often as it came |
| ChatHistoryOrder.RunCursor | src/chat.c:988-1007 | over every run the cursor is the lowest non-zero id received, and 0 before there is one |
| ChatHistoryServed.LatchKept | src/chat.c:1237-1252 | in any state, a step keeps `loading` true exactly while one older page is unanswered if and only if it is neither a login's batch nor the connection going while one is awaited |
| ChatHistoryServed.LoginBreaksLatch | src/chat.c:975-986 | a click before the login is answered, in a view with no sentinel to click, leaves after the answer a page unanswered with `loading` off; no run has such a click |
| ChatHistoryServed.RunEarly | src/rcv.c:66-69 | over every run with one fetch a connection, connects that clear the view and clicks that need the sentinel's row: while the login's fetch is to come or unanswered nothing else is asked for, and the view has only lines |
| ChatHistoryServed.OnlyGoingBreaks | src/chat.c:1237-1252 | along every such run from the start, a step from a right latch leaves it right if and only if it is not the connection going while an older page is awaited |
| ChatHistoryServed.ClearEndsPaging | src/chat.c:2107-2120 | after a clear with nothing on its way, no run asks for an older page before the next connection |
| ChatHistoryServed.CloseBreaksLatch | src/network.c:190 | from the start: a connection, its fetch, a first batch with more to come, a click on its sentinel and the connection closing leave `loading` set with nothing unanswered |
| ChatHistoryServed.StuckStays | src/chat.c:1237-1242 | from there over every run without a reply the latch stays, no older page is asked for, and a click does nothing |
| ChatHistoryServed.StuckEnds | src/chat.c:975-986 | the next reply can only be a login's; it lands as an older page, with no divider, and the latch is right again |
| ChatHistoryServed.ReconnectRows | src/network.c:349-354 | a new connection shows its history framed by dividers in order under its sentinel if no page was awaited on the old one, and turned round, without dividers and above the sentinel if one was |
| ChatHistoryServed.LatchedKept | src/chat.c:1237-1252 | that an older page on its way is the only one and covered by `loading` is kept by connections going and clears, and by every step if and only if it is not a login's batch while one is on its way |
| ChatHistoryServed.RunSound | src/chat.c:962-1283 | over every run, with connections that come and go and clears at any time, in which the server sends messages with ids other than 0, none twice in a page, and answers a cursor only with lower ids: an older page on its way is the only one and was asked for at the cursor as it stands, the cursor is no higher than any id shown, and no message is shown twice |
| ChatHistoryServed.PageLowersCursor | src/chat.c:1248-1252 | along such a run every page with a message in it strictly lowers the cursor |
| ChatHistoryServed.PageIsUnseen | src/chat.c:1248-1252 | along such a run a page before a cursor has no message ever received, so what was cleared does not come back |
| ChatHistoryServed.CursorIsLowestShown | src/chat.c:988-1007 | over every run, with any server, the cursor is the lowest id shown if and only if the lowest id ever received was received since the last clear |
| RemoteListing.RemoteProvider.SendFileList | src/files_remote_provider.c:268-292 | one reference for the table however often it is asked, the provider in the table, its watchdog armed; nothing when the server cannot be asked |
| RemoteListing.RemoteProvider.ListTimeout | src/files_remote_provider.c:239-262 | out of the table with no rows and the error set, told once; the reference let go last |
| RemoteListing.RemoteProvider.HandleFileList | src/files_remote_provider.c:299-343 | a reply that is waited for replaces rows and path and clears the error; any other changes nothing |
| RemoteListing.RemoteProvider.HandleFileListError | src/files_remote_provider.c:357-389 | a refusal that is waited for empties the rows and sets error and path; any other changes nothing |
| RemoteListing.RemoteProvider.ResetToRoot | src/files_remote_provider.c:399-417 | no rows, no error, the root; the table and the watchdog as they were |
| RemoteListing.RemoteProvider.Unref | src/files_remote_provider.c:117-132 | the last reference finalizes: the watchdog off and the rows gone |
| RemoteListing.PendingTable.Insert | src/files_remote_provider.c:281-283 | inserting a provider that is there lets its older reference go |
| RemoteListing.PendingTable.Remove | src/files_remote_provider.c:317-318 | the provider is out and the table's reference to it is let go, if it was there |
| RemoteProtocol.StepInv | src/files_remote_provider.c:117-417 | every step keeps, for every provider: in the table exactly while its watchdog is armed, its references exactly its owners', the table's and the receiver's |
| RemoteProtocol.NeverGoneWhileArmed | src/files_remote_provider.c:239-292 | in every reachable state a provider whose watchdog can go off is alive and in the table, and an error shows no rows |
| RemoteProtocol.RowsAreOfThePath | src/files_remote_provider.c:299-417 | in every reachable state the rows are none, or those of the reply whose path is the current one |
| RemoteProtocol.WaitEnds | src/files_remote_provider.c:239-389 | a wait ends by a reply, a refusal or the watchdog and by nothing else, each of them ends it, and the panel is told once |
| RemoteProtocol.WaitCanEnd | src/files_remote_provider.c:239-262 | a provider that waits can always be resolved by its watchdog |
| RemoteProtocol.LateAnswerDropped | src/files_remote_provider.c:309-316 | a reply or refusal nothing waits for changes nothing shown |
| RemoteProtocol.ReplyIsNewest | rust/crates/hxhandlers/src/recv/files.rs:167-178 | a reply that is taken is of the newest listing that went out, in whatever order the server answers |
| RemoteProtocol.RefusalIsNewest | src/files_remote_provider.c:357-389 | a refusal that ends a wait leaves the error, no rows, and the path of the newest listing that went out, told once |
| RemoteProtocol.ErrorIsLastEnd | src/files_remote_provider.c:239-417 | in every reachable state the error is on exactly when the last wait to end, since any reset, ended by a refusal or the watchdog |
| RemoteProtocol.SendAsks | src/files_remote_provider.c:268-292 | a listing that goes out is waited for, with the watchdog armed, and is the only one of its provider awaited, for the path asked, the root for none |
| RemoteProtocol.NormalIs | rust/crates/hxmodel/src/files/remote_listing.rs:72-81 | an empty path is the root, and any other itself |
| RemoteProtocol.UnavailableAsksNothing | src/files_remote_provider.c:268-275 | a server that cannot be asked is not asked |
| RemoteProtocol.RootShows | src/files_remote_provider.c:399-417 | a reset shows the empty root without an error and tells so, and a wait goes on |
| RemoteProtocol.OpenShows | src/files_remote_provider.c:141-204 | a new pane is the root, unread, without an error |
| RemoteProtocol.OthersUntouched | src/files_remote_provider.c:104-106 | no action on one provider touches another |
| RemoteProtocol.FirstReplyWins | src/files_remote_provider.c:331-334 | the table alone keeps the first of two replies, whichever request it answers |
| LocalListing.LocalProvider.Navigate | src/files_local_provider.c:179-190 | an empty path is nothing; any other is pending and the newest request |
| LocalListing.LocalProvider.Reload | src/files_local_provider.c:192-200 | the folder asked for is listed, or the current one when none is |
| LocalListing.LocalProvider.EndListing | rust/crates/gtkhx-ui/src/files/local.rs:131-175 | only the newest request shows rows, moves the path and signals; an overtaken one does none of these |
| LocalListing.LocalProvider.OnListDone | src/files_local_provider.c:161-171 | the path moves when the folder was listed, and nothing is pending |
| LocalListing.RunInv | src/files_local_provider.c:150-200 | in every reachable state a pending path is the path of the newest request, which is still being read |
| LocalListing.PathIsShown | src/files_local_provider.c:157-171 | over every run the current path is the folder whose rows are shown |
| LocalListing.NavigationSurvives | src/files_local_provider.c:192-200 | reloads never cancel a navigation |
| LocalListing.NavigationLands | src/files_local_provider.c:161-200 | after a navigation and any reloads the next listing to count is the folder asked for; unread, the pane is as it was |
| LocalListing.PaneStarts | src/files_local_provider.c:65-130 | a new pane shows nothing of the folder it starts at, with nothing asked for |
| LocalListing.AskReads | src/files_local_provider.c:179-200 | a navigation reads the folder asked for and a reload the one asked for or else the current one, under a number of its own |
| LocalListing.LandingTells | rust/crates/gtkhx-ui/src/files/local.rs:131-175 | a folder read is told, after an error when read in part; an unreadable one tells an error alone and a failed worker nothing; one overtaken does nothing |
| HostPort.ParsesExactly | src/host_port.c:17-94 | the parser accepts the four forms, a host alone or in brackets with a port or without, and nothing else |
| HostPort.ParseUndoesJoin | src/host_port.c:96-108 | what is printed is parsed back, host and port, if and only if the port is not 0 and the host's brackets cannot be taken for the printer's |
| HostPort.PortsAre | src/host_port.c:68-83 | a port is 1 to 65535 in digits, white space or a plus before them and nothing after, and no other text |
| HostPort.JoinIs | src/host_port.c:96-108 | the port follows a colon, and a host with a colon is in brackets |
| Decimal.ScanIntExactly | src/host_port.c:75 | an integer reader takes white space, a sign or none and one or more digits, to the last of them, and nothing else |
| Decimal.ZeroAhead | src/host_port.c:75 | zeros before a number do not change it |
| Decimal.ToIntIs | src/dock_layout_parse.c:287 | a number past 64 bits sticks at their end, and its low 32 bits are kept as a signed one |
| HostPort.FindHalves | src/host_port.c:28-61 | where the host and the port's text are, by the first and last colon or the bracket |
| HostPort.ParseHostPort | src/host_port.c:17-94 | NULL fails; any other text gives the endpoint it names, if it names one |
| HotlineUrl.UrlReadsBack | src/hotline_url.c:59-194 | in any spelling of the scheme's case, with no credentials, a login or both as they may be encoded, and any tail, a printed host and port come back with them |
| HotlineUrl.UrlUndoesJoin | src/hotline_url.c:123-191 | a printed host and port come back from an address if and only if the host fits, holds none of `/?#@%`, and its brackets cannot be taken for the printer's |
| HotlineUrlCases.HostReadsBack | src/hotline_url.c:59-194 | a host alone, plain or in brackets, with any credentials and tail, is an address with those parts and port 0 |
| HotlineUrlCases.PortReads | src/hotline_url.c:178-191 | a host with a port's text that decodes is an address with the port in the text's first seven bytes, or 0 when there is none |
| HotlineUrlCases.BadEscapeRefused | src/hotline_url.c:181-184 | a port's text that does not decode refuses the address |
| HotlineUrlCases.NoHostRefused | src/hotline_url.c:119-175 | an address with no host, a port alone, two colons without brackets, or brackets that do not close or are followed by anything but a colon is refused |
| HotlineUrlCases.BadUserRefused | src/hotline_url.c:98-117 | a login that does not decode refuses the address |
| HotlineUrlCases.SchemesAre | src/hotline_url.c:71-73 | the scheme is taken in any spelling of its letters and no other |
| HotlineUrlCases.OtherScheme | src/hotline_url.c:71-73 | any other text is no address |
| HotlineUrlCases.AuthorityEnds | src/hotline_url.c:76-82 | a slash, a question mark or a number sign ends the authority, and nothing else |
| HotlineUrlCases.PercentReads | src/hotline_url.c:47-50 | two hexadecimal digits after a percent sign are their byte, and any other two, or 00, refuse the text |
| HotlineUrlCases.PlainReads | src/hotline_url.c:47-50 | any other character stands for itself |
| HotlineUrlCases.FieldHolds | src/hotline_url.c:51-54 | a field holds the decoded text, or as much of it as fits before the terminator |
| HotlineUrlCases.FieldSizes | src/hotline_url.h:36-38 | the fields are 128, 33 and 33 bytes, and a port's text 8 |
| HotlineUrl.UnescapeUndoesEscape | src/hotline_url.c:47-53 | percent-decoding (section 2.1 of RFC 3986) undoes the escaping of every string of bytes other than NUL |
| HotlineUrl.EscapedUserReadsBack | src/hotline_url.c:98-117 | any login and password that fit their fields survive, escaped |
| HotlineUrlParser.UnescapeSegment | src/hotline_url.c:26-56 | the decoded text cut to the buffer, when it decodes |
| HotlineUrlParser.LastAt | src/hotline_url.c:89-97 | the last `@` of the authority |
| HotlineUrlParser.FirstColon | src/hotline_url.c:103-109 | the first colon of the credentials |
| HotlineUrlParser.CountColons | src/hotline_url.c:149-156 | how many colons there are, and where the last is |
| HotlineUrlParser.FindHost | src/hotline_url.c:127-168 | host and port as `host:port` text has them, but more than one bare colon is refused |
| HotlineUrlParser.TakeCredentials | src/hotline_url.c:98-117 | login and password in their fields, or a failure |
| HotlineUrlParser.TakePort | src/hotline_url.c:178-191 | the port when it is one, and 0 when it is not |
| HotlineUrlParser.ParseUrl | src/hotline_url.c:59-194 | succeeds exactly when the address is one, with its four parts in the fields |
| Commands.GenCommandHash | src/commands.c:426-449 | for any table in first-letter order each slot is the first entry with its letter, or -1 |
| Commands.LookUp | src/commands.c:473-526 | the look-up finds the first entry of the whole table that the typed word abbreviates, and nothing for an empty word |
| Commands.MeantIs | src/commands.c:473-526 | a line runs the first command whose name its first word begins and whose function is there, whatever follows the word, and otherwise none |
| Commands.ScanLetter | src/commands.c:483-526 | the scan from a letter's first entry finds what a scan to the end of the table would |
| Commands.FullNameRuns | src/commands.c:408-417 | a name typed in full runs its own command if and only if no earlier one begins with it |
| Themes.ListedNames | src/gtkhx_theme.c:1306-1498 | each safe name come across is listed once, "default" always, and no other |
| Themes.ListedEntry | src/gtkhx_theme.c:1376-1397 | every entry is titled from the first file come across with its name; only a "default" nothing has is made up |
| ThemeCases.ListedIff | src/gtkhx_theme.c:1306-1498 | a name is listed exactly when it is "default", or has no slash or backslash and is that of one of the user's folders or .ini files that are not hidden, or of the program's own |
| ThemeCases.TitlesAre | src/gtkhx_theme.c:1376-1397 | an entry's title is its file's when that parses and has one, and else the name |
| ThemeCases.IniNames | src/gtkhx_theme.c:1220-1230 | a file's name ends in .ini in any case, with something before it |
| ThemeCases.LoaderOrder | src/gtkhx_theme.c:1093-1166 | the loader takes the first that parses of the user's folder, the user's file, the program's folder and the program's file |
| Themes.OpensWhatIsListed | src/gtkhx_theme.c:1093-1179 | the loader opens the very file the entry was titled from if and only if it parses and is spelled the loader's way |
| Themes.PickerAgreesWithLoader | src/gtkhx_theme.c:1093-1498 | when every theme file parses and is spelled so, a name is listed if and only if the loader finds it, and its title is that of the file the loader opens |
| ThemePicker.Picker.Gather | src/gtkhx_theme.c:1306-1491 | the four passes and the set of names seen give exactly that list |
| ThemePicker.DefaultIsFirst | src/gtkhx_theme.c:1286-1304 | however titles are ordered, "default" is first once the list is sorted |
| ThemePicker.ListAvailable | src/gtkhx_theme.c:1306-1498 | the list is those entries, each once, "default" first and the others by title |
| ThemePicker.FindTheme | src/gtkhx_theme.c:1093-1166 | the place the loader's tries in turn come to |

## Left out

- GTK, libadwaita, mullion and rotulus widgets, CSS, dialogs and shortcuts: user interface. The chat view is a sequence of rows with marks.
- Trimming a chat's scrollback, which drops rows one at a time from the head; a clear, which drops them all, is modelled. That an insertion goes to the head is what the code says of a missing mark (src/chat.c:1115-1117), and it is assumed of a stale one; rotulus is not part of this model.
- How GKeyFile, GResource, the file system and GLib write and read bytes: a key file is the strings its reader yields, and which names may be keys is a parameter. A key name that could break the file's lines is not modelled.
- The dock's own reader of the JSON, which is not in the repository; the reader here is one by RFC 8259 and of the same fields.
- Floating point: shares and boxes are reals and whole thousandths, `%g` is printed from the thousandths, and what the overflow branch of `human_readable` (src/human_readable.c:106-138) prints is not modelled.
- HumanReadable.Format: tells exactly which calls take the branch for an overflow, which prints in floating point, but not its text; an output unit of 0, which divides by zero, is refused by its precondition.
- Memory: freeing, NULL results of allocation, and a node's address, for which its path in the tree stands.
- `sscanf` past the range of an `int` is taken as the C library's saturating read cut to 32 bits.
- `chrexpand`, `cmd_arg` and the building of argument vectors in `hx_command`: only the look-up is modelled.
- `timer_delete_ptr`, process and signal handling, sounds, notifications, the tray and networking.
- The bodies of Rust functions that the C code only declares, where no source is shown: their documented contracts are assumed, such as that a listing overtaken by a newer one never calls back.
- Several conversations at once, and the text of dividers, which is translated: one conversation is modelled, and a divider is its kind and count.
- ChatHistoryServed.RunSound: after a clear the cursor may lie below the lowest id shown, so it is stated as a bound; `CursorIsLowestShown` says when it is the lowest. That "Load older" comes only from a click on the sentinel's row is what src/chat.c:1115-1117 says; rotulus, which sends it, is not part of this model.
- Themes.OpensWhatIsListed: for built-in names that are neither empty nor hidden, as the program's own are; a hidden built-in name could be listed where the loader would open a user's hidden folder.
- Remote operations other than listing (making, renaming and deleting folders, transfers) beyond the listing they ask for, and `parent` and `child` paths: easy members.
- The last resort of `gtkhx_theme_load_active` (src/gtkhx_theme.c:1168-1174), the parsing of a theme's colors, and file systems that ignore case.
