# Crux core, modelled in Dafny

Crux is a terminal assistant for operations work. A language model answers in a
terminal; it can run shell commands, search the web and keep an inventory of
hosts. This project models the parts of Crux that decide what is shown, stored
and answered:

- **Terminal UI** (`src/ui/terminal-ui.ts`). The streamed answer is split into
  complete lines and fenced code blocks are tracked. Headings, rules, bullets
  and inline emphasis are formatted, and tool output is drawn in boxes of the
  terminal's width. The line handler turns a typed line into a reprompt, an exit
  or an agent run. The renderer is the class `TerminalUi.TerminalUI`. Its
  transcript is `out` and its stream state is `lineBuffer` and `inCodeBlock`.
  The terminal width is a separate `Screen` object and the readline pause flag a
  separate `Readline` object.
- **Markdown post-processing** (`src/ui/markdown.ts`). Runs of three or more
  newlines collapse to two and trailing white space is trimmed. The parser
  itself is a parameter.
- **Host inventory** (`src/infra/database.ts`). Every `*.yaml` and `*.yml` file
  of the inventory directory is loaded in sorted order, so a later file wins.
  Hosts can be queried, formatted and summarised, and added, updated or removed
  with the change written back to the host's own file.
- **The `infra_modify` tool** (`src/tools/infra-modify.ts`). A change is
  proposed, validated and previewed, and applied only on `confirm`.
- **The `infra_query` tool** (`src/tools/infra-query.ts`). Its reply texts.
- **The `web_search` tool** (`src/tools/web-search.ts`). The query is encoded,
  DuckDuckGo redirect links are decoded, HTML is stripped, and results are
  collected up to a limit.
- **Sessions** (`src/agent/session.ts`). Identifiers are made from the clock.
  Sessions are saved, loaded and listed newest first.
- **The system instruction** (`src/agent/instruction.ts`). A base text,
  optionally followed by custom instructions.
- **Configuration loading** (`src/config/loader.ts`). The configuration file is
  deep-merged over the defaults.
- **The working-directory tracker** (`src/state/cwd-tracker.ts`). A path is
  resolved against the current directory, and the home directory is shown as
  `~`.

Four modules support these:

- `JsText` gives the JavaScript string operations the code relies on (`trim`,
  `split`, `indexOf`, `repeat`, `toLowerCase`, `String(n)`, the default
  `sort`), each with its defining properties.
- `OrderedMap` models a JavaScript `Map` as a sequence of entries in insertion
  order. It also models the order in which JavaScript enumerates a plain
  object's keys.
- `Ansi` models SGR colour sequences and the stripping regular expression.
- `Wrappers` holds `Option` and `Result`.

Things the program gets from outside become parameters:

- the directory listing and file contents;
- the clock;
- `fetch` and the HTML regular-expression matches;
- the markdown and JSON parsers;
- YAML serialisation;
- the terminal's reported width;
- the events the agent controller emits;
- whether a run's promise is rejected;
- whether a file write fails.

Where the program mutates state, the model is imperative:

- the renderer, `InfraDatabase` with its `Disk`, `InfraModifyTool` and the
  cwd `Tracker` are classes. Each method states what it writes and the new
  value of every field it changes. A whole agent run is specified against the
  functions `Next` (the state after one event), `Writes` (what the event's
  callback writes) and their folds `After` and `FoldWrites`;
- the loading loop, the result-collecting loop and the session listing loop are
  methods with loop invariants, proved against specification functions.

## Model

| member | source | states |
|---|---|---|
| JsText.Trim | src/ui/terminal-ui.ts:127 | `trim` gives a result no longer than its input |
| JsText.TrimEdges | src/ui/terminal-ui.ts:127 | a trimmed string is empty or starts and ends with a non-space |
| JsText.TrimIsSlice | src/ui/terminal-ui.ts:244-245 | the trimmed string is a slice of the input, and everything cut from either end is white space |
| JsText.TrimOfTrimmed | src/ui/terminal-ui.ts:127 | trimming is the identity on a string with no white space at either end |
| JsText.TrimEnd | src/ui/markdown.ts:40 | `trimEnd` yields a prefix of its input |
| JsText.TrimEndLast | src/ui/markdown.ts:40 | after `trimEnd` the last character, if any, is not white space |
| JsText.TrimEndDrops | src/ui/markdown.ts:40 | every character `trimEnd` removes is white space |
| JsText.TrimStart | src/ui/terminal-ui.ts:127 | the leading-space cut yields a suffix of its input |
| JsText.TrimStartFirst | src/ui/terminal-ui.ts:127 | after the leading cut the first character, if any, is not white space |
| JsText.TrimStartDrops | src/ui/terminal-ui.ts:127 | every character the leading cut removes is white space |
| JsText.Repeat | src/ui/terminal-ui.ts:48-57 | `c.repeat(n)` has length n and every character is c |
| JsText.IndexOf | src/ui/terminal-ui.ts:195-211 | `indexOf` is -1 exactly when the character is absent, otherwise the position of its first occurrence |
| JsText.IndexOfAt | src/ui/terminal-ui.ts:195-211 | a position holding the first occurrence is what `indexOf` returns |
| JsText.Split | src/ui/terminal-ui.ts:249-250 | `split` yields one part more than there are separators, no part holds the separator, and joining the parts restores the input |
| JsText.SplitJoin | src/ui/terminal-ui.ts:249 | splitting a join of separator-free parts gives back the parts |
| JsText.SplitAppend | src/ui/terminal-ui.ts:249 | splitting `a + sep + b` is splitting a followed by splitting b |
| JsText.CountAppend | src/ui/terminal-ui.ts:195-212 | the number of occurrences in a concatenation is the sum |
| JsText.ReplaceAllAbsent | src/tools/web-search.ts:33 | a global replace whose pattern cannot start anywhere in the text leaves it unchanged |
| JsText.LowerChar | src/infra/database.ts:63 | ASCII capitals map to the lower-case letter 32 code points above, all else is unchanged |
| JsText.Lower | src/infra/database.ts:63 | `toLowerCase` lowers character by character and keeps the length |
| JsText.NatToString | src/agent/session.ts:50 | `String(n)` of a natural number is a non-empty digit string without a leading zero, one digit exactly when n < 10 |
| JsText.NatToStringValue | src/agent/session.ts:50 | the decimal text of n reads back as n |
| JsText.IntToString | src/infra/database.ts:85 | `String(i)` starts with '-' exactly when i is negative |
| JsText.LessIrreflexive | src/infra/database.ts:27 | the default sort's string order is irreflexive |
| JsText.LessTotal | src/infra/database.ts:27 | any two distinct strings are ordered one way or the other |
| JsText.LessAsymmetric | src/infra/database.ts:27 | the string order is asymmetric |
| JsText.LessTransitive | src/infra/database.ts:27 | the string order is transitive |
| JsText.LessEqTransitive | src/infra/database.ts:27 | the non-strict order is transitive |
| JsText.LessPrefix | src/agent/session.ts:98 | strings of equal length keep their order whatever follows them |
| JsText.LessCommonPrefix | src/agent/session.ts:98 | a common prefix does not change the order |
| JsText.Insert | src/infra/database.ts:27 | one insertion step adds exactly the new element |
| JsText.InsertSorted | src/infra/database.ts:27 | inserting into a sorted sequence keeps it sorted |
| JsText.Sort | src/infra/database.ts:27 | the default `sort()` yields an ascending permutation of its input |
| JsText.SortedDistinctStrict | src/infra/database.ts:106 | a sorted sequence of distinct strings is strictly ascending |
| JsText.Distinct | src/infra/database.ts:101-106 | a `Set` keeps each value once, and every value that went in |
| JsText.DistinctFrom | src/infra/database.ts:101-106 | adding values to a set of distinct values keeps them distinct and loses none |
| OrderedMap.Keys | src/infra/database.ts:36 | a map's keys in insertion order, one per entry |
| OrderedMap.Get | src/infra/database.ts:147 | `get` finds a value exactly when the key is present, and that entry is in the map |
| OrderedMap.GetAt | src/infra/database.ts:147 | with distinct keys, `get` of an entry's key yields that entry's value |
| OrderedMap.Put | src/infra/database.ts:142 | `set` grows the map by one exactly when the key is new |
| OrderedMap.PutGet | src/infra/database.ts:142 | after `set`, that key reads the new value and every other key reads as before |
| OrderedMap.PutKeys | src/infra/database.ts:142 | `set` of a present key keeps its place; a new key goes last |
| OrderedMap.PutDistinct | src/infra/database.ts:142 | `set` keeps keys distinct |
| OrderedMap.Remove | src/infra/database.ts:181 | `delete` never grows the map |
| OrderedMap.RemoveGet | src/infra/database.ts:181 | after `delete`, that key is absent and every other key reads as before |
| OrderedMap.RemoveEntries | src/infra/database.ts:181 | `delete` keeps exactly the entries with other keys |
| OrderedMap.RemoveSize | src/infra/database.ts:181 | `delete` of a present key shrinks the map by one, and of an absent key changes nothing |
| OrderedMap.RemoveDistinct | src/infra/database.ts:181 | `delete` keeps keys distinct |
| OrderedMap.SubsequenceIndices | src/infra/database.ts:181 | `delete` keeps the remaining entries in their relative order |
| OrderedMap.KindOnly | src/infra/database.ts:36 | the filter by key kind keeps only keys of that kind |
| OrderedMap.InsertIndex | src/infra/database.ts:36 | one insertion step over integer-like keys adds exactly that entry |
| OrderedMap.InsertIndexAscending | src/infra/database.ts:36 | it keeps integer-like keys in ascending numeric order |
| OrderedMap.SortIndex | src/infra/database.ts:36 | integer-like keys are put in ascending numeric order, a permutation of the input |
| OrderedMap.ObjectOrderEntries | src/infra/database.ts:35-36 | enumerating a plain object yields exactly the entries that were set |
| OrderedMap.ObjectOrderIndexFirst | src/infra/database.ts:35-36 | integer-like keys come first, in ascending numeric order |
| OrderedMap.ObjectOrderNamed | src/infra/database.ts:35-36 | the other keys follow in the order they were set |
| OrderedMap.ObjectOrderPlain | src/infra/database.ts:35-36 | with no integer-like key the order is the order of setting |
| OrderedMap.ObjectOrderExample | src/infra/database.ts:36 | host "5" is enumerated before host "web" even when "web" was set first |
| Ansi.SgrOf | src/ui/terminal-ui.ts:15-21 | `ESC [ params m` is one colour sequence |
| Ansi.ConstantsAreSgr | src/ui/terminal-ui.ts:15-18 | RESET, BOLD, DIM and the two reset codes are colour sequences |
| Ansi.FgIsSgr | src/ui/terminal-ui.ts:21 | every 256-colour foreground code is a colour sequence |
| Ansi.HeadingIsSgr | src/ui/terminal-ui.ts:66 | the heading colour is a colour sequence |
| Ansi.ParamRun | src/ui/terminal-ui.ts:52 | the `[0-9;]*` part of the pattern is the longest run of parameter characters |
| Ansi.SgrLength | src/ui/terminal-ui.ts:52 | a match of the pattern at the start is absent or at least three characters long and inside the string |
| Ansi.StripAnsi | src/ui/terminal-ui.ts:52 | stripping colour sequences never lengthens a string |
| Ansi.StripPlain | src/ui/terminal-ui.ts:52 | a string without ESC is unchanged |
| Ansi.StripSgrPrefix | src/ui/terminal-ui.ts:52 | a leading colour sequence is removed entirely |
| Ansi.StripWrapped | src/ui/terminal-ui.ts:52 | text wrapped in two colour sequences strips to the stripped text |
| Ansi.SgrLengthAppend | src/ui/terminal-ui.ts:52 | appending text that cannot continue a sequence does not change the match at the start |
| Ansi.StripAppend | src/ui/terminal-ui.ts:52 | stripping distributes over concatenation when the second part cannot continue a sequence |
| TerminalFormat.BoxRowVisible | src/ui/terminal-ui.ts:52-54 | a box row shows as `│ `, the line, the padding and ` │` |
| TerminalFormat.BoxRowWidth | src/ui/terminal-ui.ts:52-54 | a box row is the inner width plus 4 wide, or longer when the line itself is wider |
| TerminalFormat.BoxRowEmbeds | src/ui/terminal-ui.ts:54 | the line appears unchanged inside its row |
| TerminalFormat.BoxEdgeVisible | src/ui/terminal-ui.ts:48-57 | the top and bottom edges show exactly the width plus two characters |
| TerminalFormat.EdgePlain | src/ui/terminal-ui.ts:48-57 | an edge is the border colour, plain drawing characters, and RESET |
| TerminalFormat.BoxRowShows | src/ui/terminal-ui.ts:50-55 | each row of a box of the terminal's width shows its line framed and padded |
| TerminalFormat.DrawBoxShape | src/ui/terminal-ui.ts:43-59 | a box has two more rows than lines and its edges are exactly as wide as the terminal |
| TerminalFormat.DrawBoxLines | src/ui/terminal-ui.ts:43-59 | every middle row shows its line, in order |
| TerminalFormat.DrawBoxEdges | src/ui/terminal-ui.ts:48-57 | the first row is the `╭…╮` edge and the last the `╰…╯` edge |
| TerminalFormat.DrawBoxMiddle | src/ui/terminal-ui.ts:50-55 | the middle rows are the padded rows of the lines |
| TerminalFormat.IndentSpec | src/ui/terminal-ui.ts:74 | the leading `\s*` of a line is all white space and is followed by a non-space |
| TerminalFormat.IndentOf | src/ui/terminal-ui.ts:74 | white space followed by a non-space has exactly that indent |
| TerminalFormat.BoldClose | src/ui/terminal-ui.ts:78 | a close it finds is a `**` at or after the given position and inside the string |
| TerminalFormat.BoldCloseNearest | src/ui/terminal-ui.ts:78 | the lazy `(.+?)\*\*` closes at the nearest `**` with no line terminator before it, and finds none exactly when every later `**` has a line terminator before it |
| TerminalFormat.BoldCloseAt | src/ui/terminal-ui.ts:78 | conversely, a `**` reachable with no line terminator or earlier `**` in between is the close found |
| TerminalFormat.BoldStepAt | src/ui/terminal-ui.ts:78 | `**` whose content reaches its nearest close is one match: the content is written in bold and scanning resumes after the close |
| TerminalFormat.BoldSpan | src/ui/terminal-ui.ts:78 | `**t**`, with `t` non-empty and free of stars and line terminators, becomes `t` in bold, and the pass goes on after it |
| TerminalFormat.ItalicStepAt | src/ui/terminal-ui.ts:80 | a star not preceded by a star, star-free text and a star not followed by one is one match: the text is written dimmed |
| TerminalFormat.ItalicSpan | src/ui/terminal-ui.ts:80 | `*t*` with no star on either side becomes `t` dimmed, and the pass goes on after it |
| TerminalFormat.CodeStepAt | src/ui/terminal-ui.ts:82 | a backquote, backquote-free text and a backquote is one match: the text is written in colour 222 |
| TerminalFormat.CodeSpan | src/ui/terminal-ui.ts:82 | `` `t` `` with non-empty `t` becomes `t` in colour 222, and the pass goes on after it |
| TerminalFormat.StarFreeUnchanged | src/ui/terminal-ui.ts:78-80 | bold and italic rewriting leave a line without `*` unchanged |
| TerminalFormat.TickFreeUnchanged | src/ui/terminal-ui.ts:82 | inline-code rewriting leaves a line without a backtick unchanged |
| TerminalFormat.FormatHeading | src/ui/terminal-ui.ts:66-68 | a `#`, `##` or `###` heading becomes bold heading-coloured text and shows as its body |
| TerminalFormat.HeadingVisible | src/ui/terminal-ui.ts:66 | a formatted heading shows exactly its body |
| TerminalFormat.HeadingMarker | src/ui/terminal-ui.ts:66-68 | the three heading markers are told apart by their level |
| TerminalFormat.FormatRule | src/ui/terminal-ui.ts:71 | a trimmed line of three or more `-` or `*` becomes a dim 40-character rule |
| TerminalFormat.DimBarsVisible | src/ui/terminal-ui.ts:71 | the dim rule shows as its bars |
| TerminalFormat.BulletOf | src/ui/terminal-ui.ts:74 | an indented `- ` or `* ` becomes `• ` with the indent kept |
| TerminalFormat.ListItemNotHeading | src/ui/terminal-ui.ts:66-74 | a list item is never taken for a heading |
| TerminalFormat.ListItemNotRule | src/ui/terminal-ui.ts:71-74 | a list item is never taken for a rule |
| TerminalFormat.SpaceSecondNotRule | src/ui/terminal-ui.ts:71 | a line whose second non-indent character is a space is not a rule |
| TerminalFormat.FormatBullet | src/ui/terminal-ui.ts:64-85 | a list item without emphasis is formatted as just its bullet |
| TerminalFormat.CappedLinesShape | src/ui/terminal-ui.ts:248-257 | at most 10 lines of each stream are shown, followed by a notice counting the rest |
| TerminalFormat.ExecExitMarker | src/ui/terminal-ui.ts:240-276 | an exec result writes stdout, then stderr, then the exit marker when the exit code is non-zero |
| TerminalFormat.MarkerLastOf | src/ui/terminal-ui.ts:272-276 | the exit marker comes last, after both streams |
| TerminalFormat.Truncate | src/ui/terminal-ui.ts:285-287 | a result over 500 characters keeps its first 500 followed by `… (truncated)`; shorter ones are unchanged |
| TerminalFormat.CappedBoxLines | src/ui/terminal-ui.ts:293-296 | a box holds at most 15 result lines, followed by a notice counting the rest |
| TerminalUi.RenderLine | src/ui/terminal-ui.ts:200-209 | a fence line flips the code-block state and becomes a rule; no other line does either |
| TerminalUi.FenceParity | src/ui/terminal-ui.ts:200-212 | after a run of lines the code-block state has flipped exactly when the fence count is odd |
| TerminalUi.UnfencedLines | src/ui/terminal-ui.ts:205-209 | without fences every line is written as text and the state is kept |
| TerminalUi.CompleteLines | src/ui/terminal-ui.ts:195-212 | one complete line per newline, none containing a newline, and a remainder without one |
| TerminalUi.CompleteLinesJoin | src/ui/terminal-ui.ts:195-198 | the complete lines, each with its newline, followed by the remainder restore the buffer |
| TerminalUi.OneLinePerNewline | src/ui/terminal-ui.ts:192-212 | a chunk appended to a partial line yields one complete line per newline in the chunk |
| TerminalUi.CompleteLinesOf | src/ui/terminal-ui.ts:195-212 | splitting newline-terminated lines and a remainder gives back exactly those lines and that remainder |
| TerminalUi.RenderBuffer | src/ui/terminal-ui.ts:195-212 | the `indexOf` loop writes exactly the rendering of the complete lines and keeps the remainder |
| TerminalUi.UnstreamedResponse | src/ui/terminal-ui.ts:301-303 | a response is printed at completion exactly when nothing was streamed and it is non-empty |
| TerminalUi.Screen.constructor | src/ui/terminal-ui.ts:44 | the width starts as the terminal reports it, or 80 |
| TerminalUi.Screen.Resize | src/ui/terminal-ui.ts:203-204 | the width is re-read from the terminal |
| TerminalUi.Readline.constructor | src/ui/terminal-ui.ts:104-108 | readline starts unpaused |
| TerminalUi.TerminalUI.constructor | src/ui/terminal-ui.ts:89-109 | a fresh renderer: empty transcript and buffer, no run, no steps, no tokens, readline not paused |
| TerminalUi.TerminalUI.Start | src/ui/terminal-ui.ts:112-157 | writes the header and the first prompt and changes nothing else |
| TerminalUi.TerminalUI.OnThinking | src/ui/terminal-ui.ts:180-182 | writes the thinking chunk dimmed |
| TerminalUi.TerminalUI.OnNewline | src/ui/terminal-ui.ts:183-189 | writes a newline and records whether output has started |
| TerminalUi.TerminalUI.OnOutput | src/ui/terminal-ui.ts:190-213 | the buffer becomes the incomplete tail, and exactly the rendered complete lines are written |
| TerminalUi.TerminalUI.WriteCompleteLines | src/ui/terminal-ui.ts:195-212 | writes the buffer's complete lines and keeps the tail |
| TerminalUi.TerminalUI.OnOutputEnd | src/ui/terminal-ui.ts:214-228 | flushes the last partial line, ends the code block and clears the buffer |
| TerminalUi.TerminalUI.OnToolCall | src/ui/terminal-ui.ts:229-235 | writes the tool-call line |
| TerminalUi.TerminalUI.OnToolResult | src/ui/terminal-ui.ts:236-298 | writes the tool result's exec, error or boxed form at the current width |
| TerminalUi.TerminalUI.OnComplete | src/ui/terminal-ui.ts:299-310 | counts one step, takes the reported token total, writes any unstreamed response and the status line |
| TerminalUi.TerminalUI.OnError | src/ui/terminal-ui.ts:311-313 | writes the error line |
| TerminalUi.TerminalUI.OnStdinData | src/ui/terminal-ui.ts:166-171 | each Ctrl+C chunk during a run aborts and writes the notice; any other chunk, or one outside a run, changes nothing |
| TerminalUi.TerminalUI.Dispatch | src/ui/terminal-ui.ts:176-314 | each controller event leaves the state `Next` gives and writes exactly what `Writes` gives for its callback; runs, exit and the running flag are unchanged |
| TerminalUi.TerminalUI.HandleInput | src/ui/terminal-ui.ts:160-319 | a run records its input, starts with `outputStarted` false, ends not running, and leaves the state and the transcript of its events taken one after the other (`After`, `FoldWrites`); one step per completion |
| TerminalUi.RunSteps | src/ui/terminal-ui.ts:304 | a run takes one step per completion event |
| TerminalUi.RunAborts | src/ui/terminal-ui.ts:166-171 | the abort count of a run grows by the number of Ctrl+C chunks among its events |
| TerminalUi.RunTokens | src/ui/terminal-ui.ts:305 | after a run the token total is the last completion's prompt plus completion tokens, or unchanged when none came |
| TerminalUi.RunBuffer | src/ui/terminal-ui.ts:189-212 | the pending partial line never holds a newline across a run |
| TerminalUi.AfterAppend | src/ui/terminal-ui.ts:176-314 | two runs of events back to back end in the state one run over both ends in |
| TerminalUi.FoldWritesAppend | src/ui/terminal-ui.ts:176-314 | two runs of events back to back write what one run over both writes |
| TerminalUi.StreamChunking | src/ui/terminal-ui.ts:189-212 | streamed output does not depend on its cutting into chunks: two chunks leave the state and write the text their concatenation does |
| TerminalUi.ChunkState | src/ui/terminal-ui.ts:189-212 | two output chunks leave the buffer, the code-block flag and the output flag as their concatenation does |
| TerminalUi.ChunkWrites | src/ui/terminal-ui.ts:189-212 | two output chunks write what their concatenation writes |
| TerminalUi.CompleteLinesConcat | src/ui/terminal-ui.ts:194-210 | completing the lines of a text and then of its remainder with more text completes the lines of the whole text |
| TerminalUi.RenderLinesConcat | src/ui/terminal-ui.ts:200-208 | rendering two runs of lines one after the other renders their concatenation |
| TerminalUi.ShowAllConcat | src/ui/terminal-ui.ts:200-208 | the texts of two runs of line writes are the texts of their concatenation |
| TerminalUi.TerminatedConcat | src/ui/terminal-ui.ts:194-210 | newline-terminated lines of a concatenation are the two texts one after the other |
| TerminalUi.TerminalUI.OnLine | src/ui/terminal-ui.ts:126-144 | a blank line re-prompts and `exit` or `quit` says goodbye, neither touching the run state; anything else runs trimmed, with the run's state and transcript, then resumes and re-prompts unless the run was rejected |
| TerminalUi.TerminalUI.Quit | src/ui/terminal-ui.ts:133-137 | writes goodbye and marks the renderer exited |
| TerminalUi.TerminalUI.RunLine | src/ui/terminal-ui.ts:139-143 | the transcript is the run's writes followed by the prompt unless the run was rejected; readline stays paused exactly when it was |
| TerminalUi.TerminalUI.Prompt | src/ui/terminal-ui.ts:149-152 | writes the prompt and changes nothing else |
| Markdown.NewlineRun | src/ui/markdown.ts:40 | the length of the leading run of newlines |
| Markdown.CollapseSpec | src/ui/markdown.ts:40 | after collapsing no three newlines are adjacent, and a first non-newline character is kept |
| Markdown.CollapseFixed | src/ui/markdown.ts:40 | text without three adjacent newlines is unchanged |
| Markdown.CollapseRun | src/ui/markdown.ts:40 | a run of three or more newlines becomes two, a shorter run is kept |
| Markdown.PostProcess | src/ui/markdown.ts:39-40 | the result has no three adjacent newlines and no trailing white space |
| Markdown.PostProcessIdempotent | src/ui/markdown.ts:39-40 | post-processing twice is post-processing once |
| Markdown.RenderMarkdown | src/ui/markdown.ts:36-44 | a parse failure returns the text unchanged; otherwise the post-processed guarantees hold |
| Infra.InventoryFiles | src/infra/database.ts:25-26 | exactly the listed names ending in `.yaml` or `.yml`, none added |
| Infra.LoadOrder | src/infra/database.ts:23-27 | no directory loads nothing; otherwise the inventory names in ascending order |
| Infra.Tagged | src/infra/database.ts:36-37 | each host of a file is tagged with that file's path |
| Infra.FileEntries | src/infra/database.ts:30-39 | every entry read from a file carries that file's path |
| Infra.BatchesAt | src/infra/database.ts:29-43 | the i-th batch is the entries of the i-th file |
| Infra.LastInNone | src/infra/database.ts:29-43 | a host is absent exactly when no file defines it |
| Infra.LastInSome | src/infra/database.ts:29-43 | a present host's value comes from a file that no later file overrides |
| Infra.Loaded | src/infra/database.ts:20-46 | the loaded map has distinct host names |
| Infra.LoadedAbsent | src/infra/database.ts:29-43 | a host is missing after loading exactly when no inventory file defines it |
| Infra.LoadedLastWins | src/infra/database.ts:27-43 | a loaded host is the definition in the last file that defines it, tagged with that file |
| Infra.LoadHosts | src/infra/database.ts:29-43 | the loading loop computes exactly the loaded map |
| Infra.SetEntries | src/infra/database.ts:36-38 | the inner loop sets each entry in turn |
| Infra.LoadInfraDatabase | src/infra/database.ts:20-46 | a fresh database holding the loaded map; a missing directory gives an empty one |
| Infra.QueryHosts | src/infra/database.ts:56-76 | exactly the matching hosts, in their order; no filter returns every host |
| Infra.QueryEntries | src/infra/database.ts:56-76 | a host is in the result exactly when it is in the database and matches the filter |
| Infra.FormatHosts | src/infra/database.ts:79-95 | the text is "No hosts found." exactly when there are no hosts |
| Infra.FormatHostsCons | src/infra/database.ts:82-94 | one block per host in map order, separated by a blank line: the first host's block, then "\n\n" and the rest |
| Infra.HostBlockHead | src/infra/database.ts:84-91 | each block opens with the name, a colon, a newline and the `  host: ` line |
| Infra.HostBlockLines | src/infra/database.ts:84-91 | without newlines in the name or the fields, a block's lines are the name with a colon, then the host's field lines |
| Infra.LineLabel | src/infra/database.ts:84-90 | every detail line is labelled, and a port or tags label comes only from that field |
| Infra.PortLine | src/infra/database.ts:85 | a port line is shown exactly when the port is set, with its value |
| Infra.TagsLine | src/infra/database.ts:89 | a tags line is shown exactly when there are tags, listing them |
| Infra.AllTagsSpec | src/infra/database.ts:101-106 | the collected tags are exactly those of some host |
| Infra.SummarizeInfra | src/infra/database.ts:98-108 | there is a summary exactly when there are hosts |
| Infra.TagListSpec | src/infra/database.ts:101-106 | the summary's tags are exactly the hosts' tags, each once and strictly ascending |
| Infra.SummaryCount | src/infra/database.ts:107 | the summary starts with the host count and "host" or "hosts" |
| Infra.SummaryTags | src/infra/database.ts:106-107 | the summary ends with a tag list exactly when some host has a tag |
| Infra.ReadInventory | src/infra/database.ts:119-127 | a missing or unparseable file reads as an empty inventory |
| Infra.AddedSpec | src/infra/database.ts:137-143 | the host is set with the manual file as its source, the manual file holds it, and every other host, top-level key and file is unchanged |
| Infra.UpdatedSpec | src/infra/database.ts:146-156 | fails with "Host '…' not found" exactly for an unknown host; otherwise only that host and its own file change |
| Infra.RemovedSpec | src/infra/database.ts:159-182 | fails with "Host '…' not found" exactly for an unknown host; otherwise the host is gone, its file no longer holds it, and nothing else changes |
| Infra.AddThenRemove | src/infra/database.ts:137-182 | removing a just-added host restores every other host, and the files when there was no manual file |
| Infra.PreviewShape | src/infra/database.ts:185-193 | a remove preview ignores the data; any other preview is a `#` label line followed by the serialised change |
| Infra.PreviewLabel | src/infra/database.ts:185-191 | the first line is "# Add new host:" exactly for an add, "# Remove host:" exactly for a removal, and "# Update host:" for any other action; a removal is the fixed deletion text naming the host |
| Infra.InfraDatabase.constructor | src/infra/database.ts:21 | a new database holds no hosts |
| Infra.InfraDatabase.AddHost | src/infra/database.ts:137-143 | on success the store is exactly the added store; a write failure fails with its message and changes nothing |
| Infra.InfraDatabase.UpdateHost | src/infra/database.ts:146-156 | on success the store is exactly the updated store; an unknown host or a write failure changes nothing |
| Infra.InfraDatabase.RemoveHost | src/infra/database.ts:159-182 | on success the store is exactly the removed store; an unknown host or a failing write or unlink changes nothing |
| Infra.Disk.constructor | src/infra/database.ts:119-134 | the disk holds the given directory and files |
| InfraModify.Validate | src/tools/infra-modify.ts:97-112 | an accepted change is well formed and names the given host |
| InfraModify.ValidateAccepts | src/tools/infra-modify.ts:97-112 | a change is accepted exactly when it is named and is an add of a new host with an address, an update with data of a known host, or a removal of a known host |
| InfraModify.ValidateRejects | src/tools/infra-modify.ts:97-111 | each rejection carries its own message: name required, data required, already exists, update data required, not found, unknown action |
| InfraModify.AcceptedApplies | src/tools/infra-modify.ts:65-109 | an accepted change applies without error unless the write fails, and then the error is reported |
| InfraModify.InfraModifyTool.constructor | src/tools/infra-modify.ts:20-21 | the tool starts with no pending change |
| InfraModify.InfraModifyTool.Confirm | src/tools/infra-modify.ts:65-88 | without a pending change nothing is written; otherwise it is applied, success or failure is reported, and the pending change is cleared |
| InfraModify.InfraModifyTool.Cancel | src/tools/infra-modify.ts:91-94 | the pending change is dropped |
| InfraModify.InfraModifyTool.Propose | src/tools/infra-modify.ts:97-115 | a valid change becomes pending and its preview is returned; an invalid one returns its error and leaves the pending change alone |
| InfraModify.InfraModifyTool.Execute | src/tools/infra-modify.ts:57-116 | dispatches on the action; only `confirm` touches the database or the files |
| InfraQuery.FoundHeader | src/tools/infra-query.ts:32 | the header starts with "Found " |
| InfraQuery.HeaderPrefix | src/tools/infra-query.ts:32 | anything after the header keeps that start |
| InfraQuery.NotFoundPrefix | src/tools/infra-query.ts:27-29 | neither "no match" reply starts with "Found " |
| InfraQuery.ReplyFound | src/tools/infra-query.ts:24-32 | the reply starts with "Found " exactly when some host matches, and then lists the matches |
| InfraQuery.ReplyUnfiltered | src/tools/infra-query.ts:26-29 | with no filter, the empty-database reply is given exactly when there are no hosts |
| InfraQuery.NoMatchBoth | src/tools/infra-query.ts:27 | with both filters the reply names both, separated by a comma |
| InfraQuery.NoMatchSingle | src/tools/infra-query.ts:27 | with one filter the reply names only that one, and an empty tag counts as none |
| WebSearch.HexDigit | src/tools/web-search.ts:77 | a hex digit reads back as its value |
| WebSearch.EscapeByte | src/tools/web-search.ts:77 | a byte is escaped as three characters |
| WebSearch.Escape | src/tools/web-search.ts:77 | escaping triples the length |
| WebSearch.Utf8 | src/tools/web-search.ts:77 | a code point becomes one to four bytes |
| WebSearch.Encode | src/tools/web-search.ts:77 | `encodeURIComponent` never shortens its input |
| WebSearch.EncodeAlphabet | src/tools/web-search.ts:77 | an encoded query holds only unreserved characters and `%`, and never `&` |
| WebSearch.HexValue | src/tools/web-search.ts:24 | a hex digit's value is below 16 |
| WebSearch.Octet | src/tools/web-search.ts:24 | a `%XX` escape decodes to one byte |
| WebSearch.Continuations | src/tools/web-search.ts:24 | the continuation escapes of a multi-byte character each decode to a byte of the form 10xxxxxx |
| WebSearch.Combine | src/tools/web-search.ts:24 | the bytes of a multi-byte sequence combine into a code point of the range its length allows |
| WebSearch.DecodeMultiByte | src/tools/web-search.ts:24 | a well-formed escaped multi-byte sequence decodes to its code point |
| WebSearch.Utf8Two | src/tools/web-search.ts:24 | the two-byte form decodes back to its code point |
| WebSearch.Utf8Three | src/tools/web-search.ts:24 | the three-byte form decodes back to its code point |
| WebSearch.Utf8Four | src/tools/web-search.ts:24 | the four-byte form decodes back to its code point |
| WebSearch.DecodeEscaped | src/tools/web-search.ts:24 | an encoded character decodes back to that character |
| WebSearch.DecodeEncode | src/tools/web-search.ts:24 | `decodeURIComponent(encodeURIComponent(s))` is s |
| WebSearch.TakeValue | src/tools/web-search.ts:22 | the captured `[^&]+` value is the longest `&`-free prefix |
| WebSearch.FindUddg | src/tools/web-search.ts:22 | a found `uddg` value is non-empty and holds no `&` |
| WebSearch.FindValue | src/tools/web-search.ts:22 | the value of a `uddg=` parameter is found up to the next `&` |
| WebSearch.PrefixSkip | src/tools/web-search.ts:22 | the redirect prefix does not hide or invent a `uddg` match |
| WebSearch.ExtractRedirect | src/tools/web-search.ts:21-25 | a redirect link yields the URL it encodes |
| WebSearch.ExtractDirect | src/tools/web-search.ts:26-28 | a link without `uddg=` is returned unchanged |
| WebSearch.RemoveTagsSubset | src/tools/web-search.ts:33 | removing tags adds no characters |
| WebSearch.RemoveTagsUnclosed | src/tools/web-search.ts:33 | no complete `<…>` tag survives |
| WebSearch.RemoveTagsPlain | src/tools/web-search.ts:33 | text without `<` is unchanged |
| WebSearch.EntitiesAbsent | src/tools/web-search.ts:33 | text without `&` is unchanged by entity decoding |
| WebSearch.StripHtmlSpec | src/tools/web-search.ts:32-34 | the result has no white space at either end; plain text is only trimmed |
| WebSearch.StripDoubleEscape | src/tools/web-search.ts:33 | `&amp;lt;` becomes `<`, because `&amp;` is decoded before `&lt;` |
| WebSearch.Convert | src/tools/web-search.ts:51-57 | a match is kept only with a non-empty title and URL, or raises the URL error |
| WebSearch.CollectMatches | src/tools/web-search.ts:45-60 | the collecting loop computes exactly the specified collection |
| WebSearch.ParseResults | src/tools/web-search.ts:37-61 | parsing collects the converted matches |
| WebSearch.CollectSpec | src/tools/web-search.ts:46-58 | results are complete, at most the limit, and the kept matches of a prefix of the input, all of it when below the limit |
| WebSearch.KeptCons | src/tools/web-search.ts:46-58 | keeping the first k+1 matches is keeping the first, then the next k |
| WebSearch.CollectFromStart | src/tools/web-search.ts:37-61 | from an empty start, a non-positive limit gives no results, and otherwise the collection guarantees hold |
| WebSearch.ParseResultsSpec | src/tools/web-search.ts:37-61 | parsing returns complete results, no more than asked, stopping only at the limit |
| WebSearch.MaxCount | src/tools/web-search.ts:76 | the loop bound is at most 10, is 5 by default, and admits exactly the counts below `Math.min(max_results, 10)` |
| WebSearch.SearchUrlQuery | src/tools/web-search.ts:77-78 | the search URL is the endpoint followed by the encoded query, which decodes to the query |
| WebSearch.ExecuteSpec | src/tools/web-search.ts:70-105 | a found reply echoes the query with one to the limit of complete results; otherwise the no-results reply |
| WebSearch.ExecuteHttpError | src/tools/web-search.ts:88-104 | a non-OK response fails with its HTTP status |
| Session.PadSpec | src/agent/session.ts:50 | `padStart(2, '0')` left-pads with zeros to at least two characters, ending with the number |
| Session.DigitsOrder | src/agent/session.ts:50-51 | fixed-width digit strings order as their numbers |
| Session.PadOrder | src/agent/session.ts:50 | padded two-digit fields order as their numbers |
| Session.YearOrder | src/agent/session.ts:51 | four-digit years order as their numbers |
| Session.MonthOrder | src/agent/session.ts:51 | padded months order as the months |
| Session.DayPartOrder | src/agent/session.ts:51 | the date part orders as the calendar date |
| Session.TimeAfterOrder | src/agent/session.ts:51 | the time part orders as the time of day |
| Session.IdOrder | src/agent/session.ts:48-52 | identifiers are 19 characters, order as their moments, and are equal only for equal moments |
| Session.FileNameInjective | src/agent/session.ts:63-69 | different identifiers have different file names |
| Session.Save | src/agent/session.ts:55-65 | a failed write throws its error and leaves the directory as it was; otherwise the session's file exists and can be read, and no other file changes |
| Session.Load | src/agent/session.ts:68-90 | nothing is found exactly when the file is missing; otherwise the stored metadata is returned |
| Session.SaveLoad | src/agent/session.ts:55-90 | loading a saved session gives back its messages and metadata, and other sessions are unaffected |
| Session.YamlNames | src/agent/session.ts:97 | exactly the names ending in `.yaml` |
| Session.Reverse | src/agent/session.ts:99 | `reverse` puts the last element first |
| Session.ReverseMultiset | src/agent/session.ts:99 | `reverse` keeps the elements |
| Session.ListOrderSpec | src/agent/session.ts:96-99 | the `.yaml` names, each kept, in descending order |
| Session.List | src/agent/session.ts:93-121 | the listing loop computes exactly the listing |
| Session.SummariesMembers | src/agent/session.ts:102-118 | a summary is listed exactly when it comes from a readable file of the order; unreadable files are skipped |
| Session.ListingMembers | src/agent/session.ts:93-121 | a summary is listed exactly when it describes a readable `.yaml` session, with its message count or 0 |
| Session.SummariesLength | src/agent/session.ts:102-118 | no more summaries than files |
| Session.SaveListed | src/agent/session.ts:55-121 | a saved session appears in the listing |
| Session.NewestFirst | src/agent/session.ts:98-99 | file names order as their sessions' moments, so the descending listing is newest first |
| Instruction.ExtendStartsWithBase | src/agent/instruction.ts:45-50 | the instruction always starts with the base |
| Instruction.ExtendEndsWithCustom | src/agent/instruction.ts:46-47 | non-empty custom instructions end the instruction |
| Instruction.BuildIsBase | src/agent/instruction.ts:45-50 | the instruction is the base exactly when there are no custom instructions |
| Instruction.ExtendIsBase | src/agent/instruction.ts:45-50 | for any base, the result is the base exactly when the custom part is empty or absent |
| Instruction.CustomPart | src/agent/instruction.ts:46-47 | a recovered custom part is non-empty and rebuilds the instruction |
| Instruction.CustomAfter | src/agent/instruction.ts:46-47 | the same for any base |
| Instruction.CustomRoundTrip | src/agent/instruction.ts:45-50 | the custom part can be recovered from the built instruction |
| Instruction.ExtendRoundTrip | src/agent/instruction.ts:45-50 | the same for any base |
| Instruction.AfterAppended | src/agent/instruction.ts:46-47 | the part after the separator is the custom text |
| ConfigLoader.MergeAbsent | src/config/loader.ts:21-22 | a key missing from the override keeps the base value |
| ConfigLoader.MergeUndefined | src/config/loader.ts:26 | an undefined override keeps the base value |
| ConfigLoader.MergeNested | src/config/loader.ts:24-25 | an object over an object is merged recursively |
| ConfigLoader.MergeReplaces | src/config/loader.ts:26-27 | any other defined override replaces the base value |
| ConfigLoader.MergeKeys | src/config/loader.ts:20-31 | the merged keys are the base keys plus the defined override keys |
| ConfigLoader.MergeEmpty | src/config/loader.ts:20-31 | merging nothing copies the base |
| ConfigLoader.MergeFlat | src/config/loader.ts:24-27 | an override without nested objects always merges |
| ConfigLoader.MergeSelf | src/config/loader.ts:20-31 | merging an object into itself gives it back |
| ConfigLoader.MergeIntoNullThrows | src/config/loader.ts:24-25 | a nested object over `null` throws |
| ConfigLoader.MergeSingleKey | src/config/loader.ts:20-31 | a one-key override changes only that key |
| ConfigLoader.MergeOneValue | src/config/loader.ts:26-27 | a one-key plain value is set |
| ConfigLoader.MergeOneObject | src/config/loader.ts:24-25 | a one-key object is merged into that key |
| ConfigLoader.MergeOneField | src/config/loader.ts:20-31 | overriding one field of a section changes only that field |
| ConfigLoader.LoadConfigFallback | src/config/loader.ts:34-47 | a missing, unreadable or empty file gives the defaults; otherwise the file merged over them |
| ConfigLoader.LoadConfigOneField | src/config/loader.ts:34-47 | a file setting one model field gives the defaults with that field changed |
| CwdTracker.Walk | src/state/cwd-tracker.ts:21 | resolving segments keeps every segment of the path proper |
| CwdTracker.NormalizeNormalized | src/state/cwd-tracker.ts:21 | `path.resolve` always yields a normalised absolute path |
| CwdTracker.WalkNormalized | src/state/cwd-tracker.ts:21 | a normalised path is absolute and is its own segments joined |
| CwdTracker.NormalizeFixed | src/state/cwd-tracker.ts:21 | resolving a normalised path gives it back |
| CwdTracker.ResolveRelative | src/state/cwd-tracker.ts:21 | a relative path is walked from the current directory's segments |
| CwdTracker.ResolveDot | src/state/cwd-tracker.ts:21 | `.` stays put |
| CwdTracker.ResolveParent | src/state/cwd-tracker.ts:21 | `..` drops the last segment and stays at the root |
| CwdTracker.ResolveChild | src/state/cwd-tracker.ts:21 | a plain name is appended |
| CwdTracker.AbbreviateExpand | src/state/cwd-tracker.ts:25-29 | the display starts with `~` exactly for the home directory or a path under it, and expanding it gives the path back |
| CwdTracker.AbbreviateSibling | src/state/cwd-tracker.ts:27-29 | a sibling whose name merely starts with the home directory's is not abbreviated |
| CwdTracker.Tracker.constructor | src/state/cwd-tracker.ts:12 | the tracker starts at the given normalised directory |
| CwdTracker.Tracker.GetCwd | src/state/cwd-tracker.ts:15-17 | returns the tracked directory |
| CwdTracker.Tracker.SetCwd | src/state/cwd-tracker.ts:20-22 | the new directory is the old one resolved with the argument, and stays normalised |

## Left out

- UTF-16. JavaScript measures, slices and compares strings in UTF-16 code
  units. The model counts characters, which is the same for text inside the
  Basic Multilingual Plane.
- TerminalFormat.Truncate: the 500-character cut counts characters, not UTF-16
  code units, so it can never split a surrogate pair as `slice(0, 500)` can.
- TerminalFormat.BoxRowWidth: the padding width is the stripped length in
  characters, not in code units; display width (wide or combining characters)
  is not modelled either.
- JsText.Less: JavaScript compares UTF-16 code units and the model compares code
  points. The two orders differ only between a character above U+FFFF and one in
  U+E000..U+FFFF. This carries over to `Infra.LoadOrder`, `Infra.TagListSpec` and
  `Session.ListOrderSpec`.
- Infra.InfraDatabase.AddHost: a failed write is one error message and leaves
  the files as they were. A directory created by `mkdirSync`, or a partially
  written file, is not modelled. The same holds for `UpdateHost` and
  `RemoveHost`.
- Infra.ReadInventory: a read that throws is an unparseable file, so it reads as
  empty, as the source's `catch` does.
- YAML text. Parsing and `stringifyYaml` are not modelled. A file is its parsed
  content. Top-level keys other than `hosts` are kept as opaque text and the
  order of top-level keys in the written file is not modelled. The serialiser
  is a parameter of `Infra.PreviewShape`.
- ConfigLoader.MergeKeys: merged objects are maps, so their key order is not
  modelled, including the integer-like-first order of plain objects.
- TerminalUi.TerminalUI.OnLine: it requires readline not to be paused. Lines
  that arrive while a run is in progress are not modelled. After a rejected run
  the handler stays paused. What the process does with the unhandled rejection
  is not modelled.
- WebSearch.MaxCount: `max_results` of a non-number type, such as a string, is
  not modelled.
- WebSearch.URI_ERROR: the text of the error `decodeURIComponent` throws comes
  from the JavaScript engine. The model uses a fixed text.
- Terminal I/O, readline, the SIGINT handler, `process.exit` and the spinner
  (src/ui/terminal-ui.ts:38-39) are left out. The transcript `out` stands for
  what is written.
- The regular-expression engine and `fetch` become inputs. So do the markdown
  and JSON parsers.
- JsText.Lower: only ASCII letters are lowered. Unicode case mapping is not
  modelled.
- `createProviderFromConfig` (src/config/loader.ts:50-62) is not modelled. It
  builds a provider object from the configuration.
- The agent controller's own behaviour is not modelled. Its events and the
  outcome of its promise are inputs.
- Clock reads become parameters (`Clock` values and time stamps).
- Session.NewestFirst: the ordering is proved for four-digit years only.
- Session.Load: session documents with missing or mistyped fields are not
  modelled.
- TerminalUi.TerminalUI.OnStdinData: the listener has no once-only guarantee in
  the source, and the model does not add one.
- TerminalUi.TerminalUI.HandleInput: a resize while a run is in progress is
  not modelled. A whole run is one call, so every event of the run sees the
  same width.
- Infra.HostLines: the `host` field is always a string. An `update` whose data has
  no `host` is accepted (src/tools/infra-modify.ts:105), and the source then
  prints `  host: undefined`; that case is not modelled.
- TerminalFormat.Columns: a width below 2 is excluded by the renderer's
  precondition, because `repeat` of a negative count throws.
- Instruction: the properties are proved for any base text, and the fixed base
  text is one instance.

