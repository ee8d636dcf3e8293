# jl pager core, modelled in Dafny

`jl` is a terminal pager for JSON log lines. This project models its
navigation and viewing engine:

- the append-only line buffer with its position `Pos` and tail sentinel, and
  the transient cursor that looks around without moving `Pos`
  (`tbuf/buffer.go`, `tbuf/cursor.go`);
- the line parser's key policy for JSON lines: message/msg, time with an
  epoch fallback, level, remaining tags (`tbuf/line.go`);
- the query editor with its history (`util/input.go`);
- the key-event state machine of the screen (`screen/event.go`);
- the framing arithmetic and status line of `Repaint` (`screen/screen.go`);
- the text-run drawing cursor, with the terminal's cell grid as a map
  (`screen/cursor.go`).

Modules:

- `Wrappers`: `Option`.
- `Decimal`: `strconv.ParseInt` and `%d`.
- `Lines`: `Line`, `ParseLine`, `SortedTags`.
- `Steps`: the `Up`/`Down` rules as functions.
- `TBuf`: the `Buffer` and `Cursor` classes.
- `Edit`: the `Input` and `HistoryInput` classes.
- `Regex`: patterns and the matcher.
- `Grep`: the `g`/`G`/`C` views.
- `Framing`: row arithmetic and the status line.
- `Draw`: the drawing cursor and its cell grid.
- `Pager`: the `Screen` class.

State that the source updates in place is modelled as classes:

- `Buffer`, `Cursor`, `Input` and `HistoryInput`;
- `Screen`;
- the cell `Grid`.

The operations are proved against pure functions, which are in turn
reasoned about by lemmas. Two examples:

- `Buffer.Down` ensures its result equals `Steps.DownStep`.
- `Draw.EmitHL` ensures the grid equals `Paint` of `HLCells`.

The key dispatchers (`Event`, `KeyEvent`, `EventRune`, `ViewKey`) are the
exception. They state the dispatch and some effects, and leave the rest to
the handlers they call, as listed under "## Left out".

JSON decoding (`Json`), regular expressions (`Matcher`, `Finder`), palette
RGB values (`Rgb`) and the number of lines `json.MarshalIndent` prints
for a JSON tag (`inner`, at least 1, exactly 1 for `{}`) are oracles passed
in as functions. The terminal height `h` is a
parameter. Time formatting is a parameter too: `timeText` is the formatted
time of a line.

`Up`/`Down` also return how often the scan predicate ran (`evals`). The
`n`/`N` predicates move the cursor row as a side effect of each call, so
the row change can be stated through this count.

Two tests are replayed as methods whose assertions the verifier checks:

- `TBuf.TailScenario` and `TBuf.ScanScenario` replay `tbuf/buffer_test.go`;
- `Edit.EditorScenario` replays `util/input_test.go`.

The code is followed where it differs from the documentation of the
program:

- `PrintHL` with a user pattern also highlights keywords *inside* the
  user's matches. The code hands the keyword printer to both the unmatched
  and the matched parts (`screen/cursor.go:53-57`). `Draw.PrintHLCells`
  and `Draw.PrintHLMatchBold` state this.
- When a line has "msg" but no "message", `ParseLine` deletes "message"
  from the tags, so "msg" stays among them (`tbuf/line.go:85-87`). This is
  modelled as written; see `Lines.Consumed`.
- On `PgDn` with a detail panel, the clamp of `detoffset` at 0
  (`screen/event.go:115-117`) cannot fire. `detoffset` is never negative
  and only grows there, so `Pager.Screen.PageDown` omits it.
- `screen/event.go` uses a `detoffset` field that the `Screen` struct
  (`screen/screen.go:18-36`) does not declare. `Pager.Screen` has it as an
  integer field.
- `tbuf/cursor.go` calls `Buffer.Size()` and `Buffer.At(i)`, and
  `util/input.go` calls `Chop` and `Shift`. None of these is defined in
  the modelled files; they are taken as follows:
  - `Size()` is `|lines|` and `At(i)` is `lines[i]`;
  - `Chop` removes and returns the last character, or "" when there is none;
  - `Shift` removes and returns the first character, or "" when there is none.

## Model

| member | source | states |
|---|---|---|
| Decimal.ParseInt | tbuf/line.go:96 | base-10 parse with optional sign: a value only for a non-empty text, and only within 64 bits |
| Decimal.FormatNatDigits | screen/screen.go:232 | the `%d` text of a natural number is non-empty, all digits, and denotes that number |
| Decimal.ParseDigits | tbuf/line.go:96 | a run of digits that fits in 64 bits parses as its value |
| Decimal.ParseNegDigits | tbuf/line.go:96 | `-` followed by digits parses as the negated value when it fits |
| Decimal.ParseFormatRoundTrip | screen/screen.go:232 | every 64-bit integer printed with `%d` parses back to itself |
| Lines.UnmarshalOrString | tbuf/line.go:43-51 | the decoded string for a JSON string, the raw text for anything else |
| Lines.ParseLine | tbuf/line.go:69-113 | `Str` is always the input, and the line is unmarked. Text shorter than 2, not opening with `{`, or not decodable is kept as plain text. Otherwise: "message" wins over "msg"; time comes from a timestamp or epoch seconds, through `time.Unix`; level only from a JSON string; every other key and every key not consumed stays a tag with its raw value |
| Lines.Utf8Len | screen/screen.go:179 | Go's `len` of a raw JSON value, counted in UTF-8 bytes: between one and four per character, and zero only for the empty value |
| Lines.Utf8LenAppend | screen/screen.go:179 | byte lengths add up over concatenation |
| Lines.Utf8LenAscii | screen/screen.go:179 | the byte length equals the character count exactly when every character is ASCII |
| Lines.Unix | tbuf/line.go:98 | `time.Unix(epoch, 0)` is the zero time exactly for epoch -62135596800, and otherwise an instant at `epoch` |
| Lines.ZeroEpochIsNoTime | tbuf/line.go:90-101 | a "time" field holding the zero epoch's digits is consumed, yet leaves the line with the zero time, so no time column is drawn |
| Lines.ParsedIsDeterministic | tbuf/line.go:69-113 | the field-by-field description of the parse fixes the line completely |
| Lines.BelowIrreflexive | tbuf/line.go:39 | the byte order of `sort.Strings` is irreflexive |
| Lines.BelowTransitive | tbuf/line.go:39 | the byte order is transitive |
| Lines.BelowTotal | tbuf/line.go:39 | any two distinct strings are ordered one way or the other |
| Lines.SortedSplice | tbuf/line.go:39 | inserting a key between the smaller and the larger keys keeps the sequence ascending |
| Lines.Insert | tbuf/line.go:39 | inserting a new key into an ascending sequence gives an ascending sequence of the old keys plus it |
| Lines.SortedTags | tbuf/line.go:35-41 | exactly the tag names, strictly ascending (so without duplicates), one per tag |
| Steps.ScanDown | tbuf/buffer.go:65-77 | the first accepted index from `p` on, or the tail; every index skipped is refused |
| Steps.ScanUp | tbuf/buffer.go:87-98 | the last accepted index in `(0, p]`, or 0; line 0 is never tested |
| Steps.DownStep | tbuf/buffer.go:55-78 | At the tail or on an empty buffer, nothing moves and the result is false. Otherwise the position moves past `pos` over refused lines only. It stops on an accepted line (true, that line) or at the tail (false, the last line). The predicate runs once per line shown |
| Steps.UpStep | tbuf/buffer.go:80-99 | At 0, nothing moves and the result is false. Otherwise the result is always true: the last accepted line above 0 over refused lines, else line 0. The predicate runs once per line shown |
| Steps.DownStopsAtFirst | tbuf/buffer.go:65-77 | `Down(f)` lands on the first accepted line below `pos` and succeeds |
| Steps.UpStopsAtLast | tbuf/buffer.go:87-98 | `Up(f)` lands on the last accepted line above `pos`, line 0 aside, and succeeds |
| Steps.UpFallsBack | tbuf/buffer.go:89-93 | with no accepted line in `(0, pos)`, `Up(f)` clamps to 0 and still succeeds |
| Steps.DownNil | tbuf/buffer.go:58-77 | `Down(nil)` moves one line, into the tail from the last line; it succeeds iff a line follows |
| Steps.UpNil | tbuf/buffer.go:83-98 | `Up(nil)` moves one line and stops at 0; it succeeds iff `pos > 0` |
| Steps.DownRunCount | tbuf/cursor.go:15-37 | from `c`, successive `Down(nil)` calls succeed exactly `size-1-c` times, then fail |
| Steps.UpRunCount | tbuf/cursor.go:39-56 | from `c`, successive `Up(nil)` calls succeed exactly `c` times (the last by clamping to 0), then fail |
| Steps.DownNilTimes | screen/event.go:119-121 | the position after `n` steps down stays within `[0, len]` |
| Steps.UpNilTimes | screen/event.go:103-105 | the position after `n` steps up stays within `[0, len]` |
| Steps.DownNilTimesValue | screen/event.go:119-121 | `n` steps down move `n` lines, stopping at the tail |
| Steps.UpNilTimesValue | screen/event.go:103-105 | `n` steps up move `n` lines, stopping at 0 |
| TBuf.Visit | tbuf/buffer.go:15-23 | a walk from index `i` keeps the length and leaves the lines before `i` untouched |
| TBuf.VisitStops | tbuf/buffer.go:15-23 | `Range` rewrites every line up to the first visit that answers false, in order, and no line after it |
| TBuf.Buffer.constructor | tbuf/buffer.go:8-13 | an empty buffer at position 0 |
| TBuf.Buffer.Append | tbuf/line.go:53-62 | One parsed line is added at the end and earlier lines are untouched. A buffer at the tail stays at the tail; otherwise `Pos` is unchanged. `Last` advances |
| TBuf.Buffer.AppendLine | tbuf/line.go:63-67 | the given line is appended unchanged; `Pos` does not change |
| TBuf.Buffer.Get | tbuf/buffer.go:40-53 | `(Lines[Pos], true)` iff `0 <= Pos < len`, else `(Line{}, false)` |
| TBuf.Buffer.Mark | tbuf/buffer.go:25-38 | flips the mark of the current line only; no-op off the lines |
| TBuf.Buffer.Down | tbuf/buffer.go:55-78 | position, result, flag and predicate count are those of `DownStep`; the lines are unchanged and `0 <= Pos <= len` holds |
| TBuf.Buffer.Up | tbuf/buffer.go:80-99 | position, result, flag and predicate count are those of `UpStep`; the lines are unchanged and `0 <= Pos <= len` holds |
| TBuf.Buffer.Range | tbuf/buffer.go:15-23 | the lines become `Visit` of the old lines from index 0 |
| TBuf.Buffer.NewCursor | tbuf/cursor.go:8-13 | a fresh cursor on this buffer at `Pos`; the buffer is unchanged |
| TBuf.Cursor.constructor | tbuf/cursor.go:8-13 | `Cur` starts at the buffer's `Pos` |
| TBuf.Cursor.Down | tbuf/cursor.go:15-37 | `DownStep` on `Cur`; only `Cur` changes |
| TBuf.Cursor.Up | tbuf/cursor.go:39-56 | `UpStep` on `Cur`; only `Cur` changes |
| TBuf.Cursor.Commit | tbuf/cursor.go:58-62 | the buffer's `Pos` becomes `Cur`; nothing else changes |
| TBuf.LacksFirst | tbuf/buffer_test.go:64 | `strings.Contains` fails when the text lacks the word's first letter |
| TBuf.AppendText | tbuf/line.go:53-62 | appending text that cannot be a JSON object adds it as a plain line; off the tail `Pos` stays |
| TBuf.Fixture | tbuf/buffer_test.go:18-42 | the test's six appends, with one `Up` in between, leave the buffer on line 0 holding the six plain lines |
| TBuf.FixtureDownFoo | tbuf/buffer_test.go:44-47 | `Down` by "foo" from 0 lands on 2 |
| TBuf.FixtureDownFooAgain | tbuf/buffer_test.go:49-52 | `Down` by "foo" from 2 lands on 3 |
| TBuf.FixtureDownBar | tbuf/buffer_test.go:54-57 | `Down` by "bar" from 3 lands on 4 |
| TBuf.FixtureUpFoo | tbuf/buffer_test.go:59-62 | `Up` by "foo" from 4 lands on 3 |
| TBuf.FixtureUpNone | tbuf/buffer_test.go:64-67 | `Up` by "none" from 3 falls back to 0 |
| Edit.Chop | util/input.go:20-27 | the two parts rebuild the text; the last part is one character, or empty for "" |
| Edit.Shift | util/input.go:29-32 | the two parts rebuild the text; the first part is one character, or empty for "" |
| Edit.Input.constructor | util/input.go:50 | an empty text |
| Edit.Input.Details | util/input.go:12-14 | the text before and after the caret, which together are `String()` |
| Edit.Input.Append | util/input.go:16-18 | `s` is added to `left` only |
| Edit.Input.Backspace | util/input.go:20-22 | removes the last character of `left`, if any; `right` unchanged |
| Edit.Input.Left | util/input.go:24-27 | moves one character from `left` to `right`; `String()` unchanged; no-op on an empty `left` |
| Edit.Input.Right | util/input.go:29-32 | moves one character from `right` to `left`; `String()` unchanged; no-op on an empty `right` |
| Edit.HistoryInput.constructor | util/input_test.go:6 | an empty history at position 0 |
| Edit.HistoryInput.Get | util/input.go:39-41 | the entry at `Pos`, which must name one |
| Edit.HistoryInput.Last | util/input.go:70-76 | `Pos` becomes `len-1` (-1 when empty) and the newest entry or nil is returned |
| Edit.HistoryInput.NewUnlessEmpty | util/input.go:43-54 | If the newest entry is empty it is reused. Otherwise a fresh empty entry is appended. Either way it is returned as the current entry, at `len-1` |
| Edit.HistoryInput.Up | util/input.go:56-61 | `Pos` moves one back, clamped at 0, and the entry there is returned |
| Edit.HistoryInput.Down | util/input.go:63-68 | `Pos` moves one forward, clamped at `len-1`, and the entry there is returned |
| Draw.NewCur | screen/cursor.go:13-21 | a cursor at `(x, y)`, white on colour 234, with the screen's pattern |
| Draw.Grid.SetContent | screen/cursor.go:86-92 | writes one cell, dropped when off screen |
| Draw.PaintAppend | screen/cursor.go:83-95 | drawing two runs one after the other is drawing their concatenation |
| Draw.PaintFrame | screen/cursor.go:83-95 | a run leaves every cell outside its span unchanged |
| Draw.PaintHit | screen/cursor.go:83-95 | a run puts its k-th cell at `(x + k, y)` when on screen |
| Draw.EmitCells | screen/cursor.go:82-97 | one cell per character: tab as `⇥` and newline as `␍`, bold in colour 220; the listed punctuation dimmed on request; anything else in the cursor's style |
| Draw.Emit | screen/cursor.go:82-97 | X advances by the length of the text; Y, style and pattern stay; the grid gets `EmitCells` |
| Draw.EmitPlain | screen/cursor.go:78-80 | `print(s, false)` |
| Draw.FillCells | screen/cursor.go:115-123 | as many copies of the cell as columns remain to the right edge |
| Draw.Fill | screen/cursor.go:115-123 | paints to the screen width, then X is 0 and Y one more |
| Draw.Clear | screen/cursor.go:125-127 | `Fill` with blanks |
| Draw.CR | screen/cursor.go:31-35 | X becomes `x`, Y one more, style and pattern unchanged |
| Draw.HLCells | screen/cursor.go:61-76 | `printHL` writes exactly one cell per character; corrected to stop at an empty match at the start of the rest |
| Draw.ShowsSplit | screen/cursor.go:68-74 | the cells of the three parts of a text, in order, show the whole text |
| Draw.HLShows | screen/cursor.go:61-76 | whatever is highlighted, `printHL` shows every character of the text in order |
| Draw.LayerShows | screen/cursor.go:47-59 | each drawing layer shows every character of its text in order |
| Draw.HLCellsSplit | screen/cursor.go:64-72 | one pass over a non-empty match: the text before it in the base style, the match in `st`, then the rest |
| Draw.HLCellsStop | screen/cursor.go:65-74 | with no match left, the rest goes to the drawing layer |
| Draw.LayerCells | screen/cursor.go:49-56 | the dimming printer or the keyword printer, one cell per character |
| Draw.PrintHLCells | screen/cursor.go:47-59 | without a pattern only keywords (colour 173); with one, its matches bold in colour 87 and keywords both inside and outside them; one cell per character |
| Draw.HLFirstMatch | screen/cursor.go:61-76 | up to the first non-empty match the text has the base style, the match has `st`; no match draws everything plainly |
| Draw.HLKeepsBackground | screen/cursor.go:61-76 | highlighting never changes the background |
| Draw.LayerKeepsBackground | screen/cursor.go:47-59 | neither drawing layer changes the background |
| Draw.PrintHLKeepsBackground | screen/cursor.go:47-59 | `PrintHL` draws on the cursor's background |
| Draw.PrintHLMatchBold | screen/cursor.go:53-57 | every cell of a user match is bold, keywords inside it included |
| Draw.AllBold | screen/cursor.go:53-57 | keyword highlighting over bold text stays bold |
| Draw.HLStep | screen/cursor.go:63-73 | after one pass, the cells drawn plus the cells still to come are the whole result |
| Draw.EmitHL | screen/cursor.go:61-76 | X advances by the text's length, the style is restored, and the grid gets `HLCells` |
| Draw.EmitMatch | screen/cursor.go:68-71 | draws the text before a match, then the match in `st`, and restores the style |
| Draw.EmitLayer | screen/cursor.go:49-56 | draws a piece through the dimming or the keyword printer |
| Draw.EmitHighlighted | screen/cursor.go:47-59 | `PrintHL`: X advances by the text's length, and the grid gets `PrintHLCells` |
| Draw.HLAfterAsWritten | screen/cursor.go:63-73 | the text left after `n` passes of the loop as written never grows |
| Draw.EmptyMatchNeverExits | screen/cursor.go:63-73 | as written, an empty match at position 0 leaves the text unchanged forever |
| Draw.Lower | screen/cursor.go:181 | `strings.ToLower` on ASCII, character by character |
| Draw.SeverityOf | screen/cursor.go:181-194 | a known level's severity iff its lower-case form is that level's name; none otherwise |
| Draw.LevelLabel | screen/cursor.go:180-194 | a three-letter label for a known level; any other string literally |
| Draw.LevelLabels | screen/cursor.go:180-194 | two known levels get the same label iff they are the same level in any letter case |
| Draw.NameInjective | screen/cursor.go:181-191 | distinct levels have distinct names |
| Draw.ColByLevel | screen/cursor.go:149-176 | An unknown level leaves the style as it is. A known one sets its colour as the background when the background is light (r+g+b > 200 and not -1), else as the foreground |
| Draw.ColByLevelRestores | screen/cursor.go:149-176 | `ColByLevel` changes at most one colour and nothing else |
| Draw.Level | screen/cursor.go:178-197 | draws `LevelLabel` in the `ColByLevel` style, advances X by its length, and restores fg and bg |
| Draw.LineShowsBody | screen/cursor.go:210-214 | the row shows `Short`, or `Str` when `Short` is empty, right after the time and label |
| Draw.MarkedLineBackground | screen/cursor.go:199-216 | a marked line is on colour 52 from the blank after the label to the right edge |
| Draw.DrawTime | screen/cursor.go:204-207 | for a line with a time: the time and a blank in colour 246, with fg restored; nothing otherwise |
| Draw.DrawLabel | screen/cursor.go:208-209 | the level label and a blank |
| Draw.DrawHead | screen/cursor.go:199-209 | a marked line switches to background 52, then the time and the label |
| Draw.DrawBody | screen/cursor.go:210-215 | the highlighted body, then `Clear` |
| Draw.DrawLine | screen/cursor.go:199-216 | `Line`: the grid gets `LineCells`; the cursor ends at X 0 on the next row, in the line's style |
| Grep.Filtered | screen/event.go:247-280 | a grep view is never longer than the buffer |
| Grep.FilteredMembers | screen/event.go:249-254 | the view holds an unmarked copy of every kept line and nothing else |
| Grep.FilteredUnmarked | screen/event.go:251-252 | every line of a view is unmarked |
| Grep.FilteredSnoc | screen/event.go:249-254 | one more line of the walk appends at most its copy |
| Grep.FilteredPrefix | screen/event.go:249-258 | the view of a prefix is a prefix of the view |
| Grep.FilteredPos | screen/event.go:255-257 | the new position is within the view |
| Grep.CurrentLineLands | screen/event.go:255-257 | a kept current line lands one past its own copy |
| Grep.GrepView | screen/event.go:248-259 | a fresh buffer holding the view. Its position counts the kept lines at or before the old position, or is 0 from the tail. The source buffer is unchanged |
| Grep.GrepStep | screen/event.go:249-258 | one visit keeps the walk's invariant |
| Grep.Joined | screen/event.go:315 | the lines' texts, each followed by a newline: empty iff there are no lines, and otherwise ending in a newline |
| Grep.JoinedSnoc | screen/event.go:315 | joining one more line appends its text and a newline |
| Grep.CopyMatchesGrep | screen/event.go:306-318 | `C` copies exactly the lines the `g` view would show, in order |
| Grep.CopyMarked | screen/event.go:306-318 | the text of every marked line followed by a newline, in order |
| Framing.RowDownTimesValue | screen/event.go:182-187 | `n` clamped steps move `row` by `n` toward `h-2`, never past it |
| Framing.RowUpTimesValue | screen/event.go:201-206 | `n` clamped steps move `row` by `n` toward 0, never past it |
| Framing.DetailsRow | screen/screen.go:110-118 | With a detail panel, `row` moves one step toward 5. It is 5 afterwards iff it was within one of 5. Without a panel it stays |
| Framing.AboveRowBounds | screen/screen.go:121-138 | the rows-above pass only lowers `row`, never below 0 and never below the number of lines above |
| Framing.AboveRowPrefix | screen/screen.go:121-138 | while lines remain above, the pass leaves `row` alone |
| Framing.AboveRowMoves | screen/screen.go:121-138 | the pass re-frames iff fewer lines are above the current one than rows above the cursor row (within 99) |
| Framing.WideTagBytes | screen/screen.go:179 | the sample tag `{"k":"é…é"}` with 18 accents is 26 characters and 44 bytes long, and opens with `{` |
| Framing.WideTagIndented | screen/screen.go:179-183 | the `> 40` test counts bytes: `{"k":"é…é"}` with 18 accents has 26 characters but 44 bytes, so it is shown indented, over `IndentedRows(inner)` rows |
| Framing.TagRowsAsWritten | screen/screen.go:174-197 | the source's rows for a tag: none for an empty value, one for a plain one, and for an indented one the heading plus the lines between the braces; no result (a panic on `lines[1]`) exactly when the indented text is a single line |
| Framing.TagRows | screen/screen.go:174-197 | the corrected rows of a tag: none exactly for an empty value, `IndentedRows` of the printed line count for an indented one, so at least one even for `{}`, and one otherwise |
| Framing.IndentedRows | screen/screen.go:183-191 | an indented text of `n` lines takes `n - 1` rows, and at least one |
| Framing.TagRowsAgrees | screen/screen.go:174-197 | the corrected row count equals the source's wherever the source does not panic, and is the heading row alone where it does |
| Framing.EmptyObjectPanics | screen/screen.go:179-185 | `{` with 40 blanks and `}` is over 40 bytes and opens with `{`; printed as the single line `{}`, it makes the source panic, and the corrected count gives it one row |
| Framing.BelowRows | screen/screen.go:141-145 | the rows-below pass covers rows up to `h-1`, at most 99 |
| Framing.StatusHead | screen/screen.go:230-238 | starts with `file: Pos/len `, then `col: N ` only when `col != 0`, then ` (orig: K lines)` only for a grep view |
| Framing.StatusLine | screen/screen.go:240-267 | the head comes first; a caret is shown iff a query is open |
| Framing.StatusStartsWithFileField | screen/screen.go:229-238 | whatever the query, the status line starts with the file field |
| Framing.FileFieldSlices | screen/screen.go:232 | where the numbers and separators sit in the file field |
| Framing.FileFieldReadsBack | screen/screen.go:232 | position and line count can be parsed back from the file field |
| Framing.StatusCaret | screen/screen.go:245-266 | the caret sits between the query text before and after it |
| Pager.SearchPattern | screen/event.go:163-175 | no pattern for an empty text; the compiled text if it compiles; else the quoted text |
| Pager.MarkOrMatchAccepts | screen/event.go:179-216 | the `n`/`N` predicate accepts exactly marked lines and, with a pattern, matching ones |
| Pager.UnmarkAllClears | screen/event.go:228-232 | `M` clears every mark and changes nothing else |
| Pager.MarkMatchesMarks | screen/event.go:235-242 | `m` marks every matching line and leaves the others as they were |
| Pager.PanelBottom | screen/screen.go:167-199 | the level-1 panel ends two rows below the line plus each tag's rows, tags taken in sorted order. A tag takes 1 row, or `IndentedRows(inner)` rows when it opens with `{`, is over 40 bytes long and decodes |
| Pager.Screen.constructor | screen/screen.go:38-77 | both buffers are the given one, the history is empty, `row` is `h-5`, and everything else is zero |
| Pager.Screen.Event | screen/event.go:16-31 | Every event clears `help`. A resize only sets `Refresh`, and other non-key events are unexpected. `Exit` iff navigation saw `q`. A repaint meets `Framed` |
| Pager.Screen.KeyEvent | screen/event.go:18-24 | a key goes to the query editor iff a query is open, else to navigation, then repaints as asked |
| Pager.Screen.Route | screen/event.go:18-24 | a key goes to `eventQuery` while a query is open, and then never exits; otherwise to `eventNav`, which exits only on `q` and shows help on F1 or `h` |
| Pager.Screen.EventQuery | screen/event.go:33-73 | Left/Right move one character across the caret and keep the text. Backspace drops the character before the caret, and a rune is typed at it. Up/Down/PgDn select the previous, next or newest entry. Every edit or selection recomputes the pattern. Enter closes the query. Only the current entry's text changes, and only on an edit. Any other key does nothing |
| Pager.Screen.OnChange | screen/event.go:163-175 | the pattern becomes `SearchPattern` of the current entry |
| Pager.Screen.EventNav | screen/event.go:75-139 | F1 and `h` show help; `q` exits; `c`/`C` copy. Up/Down move one line, with `row` following and `detoffset` reset. PgUp/PgDn scroll the panel by 5 when details are shown, and otherwise move 25 lines; they set `Refresh` and do not repaint. Left/Right shift `col` by 20, floored at 0. Keys read by code leave the buffer, query, pattern, details and history alone |
| Pager.Screen.EventRune | screen/event.go:140-319 | `q` exits without a repaint; `h` shows help; only `c`/`C` copy |
| Pager.Screen.MoveKey | screen/event.go:145-226 | `0` goes to the first line on row 0. `F` follows the tail. `n`/`N` scan as `DownStep`/`UpStep` with the row moving per predicate call, resetting `detoffset`. On a line, space flips its mark and steps down; on the tail it does nothing. Only `n`/`N` touch `detoffset`, and `Last` never changes. Other runes leave position and row alone |
| Pager.Screen.ViewKey | screen/event.go:156-294 | `/` opens a search; `M` unmarks all; `g`/`G` repaint iff the view is non-empty; `O` returns to the original buffer; `d` cycles details |
| Pager.Screen.StepUp | screen/event.go:82-88 | one line up, `detoffset` 0, `row` down by one but not below 0 |
| Pager.Screen.StepDown | screen/event.go:89-95 | one line down, `detoffset` 0, `row` up by one but not past `h-2` |
| Pager.Screen.PageUp | screen/event.go:96-111 | With details shown, `detoffset` drops by 5, floored at 0. Otherwise 25 lines up and `row` drops by 25, floored at 0. `Refresh` is set |
| Pager.Screen.PageDown | screen/event.go:112-127 | With details shown, `detoffset` grows by 5. Otherwise 25 lines down and `row` grows by 25, capped at `h-2`. `Refresh` is set |
| Pager.Screen.ShiftLeft | screen/event.go:129-135 | `col` drops by 20, floored at 0 |
| Pager.Screen.First | screen/event.go:145-148 | `Pos` and `row` become 0 |
| Pager.Screen.Follow | screen/event.go:149-155 | `Pos` becomes the tail and `row` becomes `min(h-2, len)` |
| Pager.Screen.StartSearch | screen/event.go:156-177 | the query is `SEARCH`, on an empty newest history entry, with no pattern |
| Pager.Screen.ScanNext | screen/event.go:179-197 | `Pos` as `DownStep` with the mark-or-match predicate; `row` moves down once per predicate call, capped at `h-2` |
| Pager.Screen.ScanPrev | screen/event.go:198-216 | `Pos` as `UpStep` with the mark-or-match predicate; `row` moves up once per predicate call, floored at 0 |
| Pager.Screen.MarkAndStep | screen/event.go:218-226 | On a line: flip its mark, step down, and move `row` down within `h-2`. On the tail: nothing |
| Pager.Screen.MarkMatches | screen/event.go:235-245 | With a pattern: mark every match and drop the pattern. Without one: nothing |
| Pager.Screen.Grep | screen/event.go:247-280 | switches to the grep view iff it is non-empty; otherwise the buffer stays |
| Pager.Screen.CycleDetails | screen/event.go:288-294 | `details` cycles 0, 1, 2, 0 and `detoffset` becomes 0 |
| Pager.Screen.CopyLine | screen/event.go:298-305 | the current line's text for the clipboard; nothing on the tail |
| Pager.Screen.Repaint | screen/screen.go:103-269 | Meets `Framed`. `row` moves toward 5 under a panel. It then drops once per missing line above. It drops once more, skipping the status line, when a level-1 panel overflows. Rows below show lines down to the tail. `Refresh` iff any of this happened |
| Pager.Screen.Recenter | screen/screen.go:104-118 | `Refresh` is cleared; under a panel `row` moves one step toward 5, and `Refresh` says whether it moved |
| Pager.Screen.Panel | screen/screen.go:160-199 | a panel bottom iff details are at level 1 on a line, computed over the sorted tags, with each tag's 40-byte threshold taken in UTF-8 bytes |
| Pager.Screen.AbovePass | screen/screen.go:120-138 | `row` becomes `AboveRow`, and `Refresh` is raised iff `row` dropped; `Pos` is untouched |
| Pager.Screen.BelowPass | screen/screen.go:140-155 | one flag per row below, up to `h-1` and at most 99: true iff a line is there; `row` is untouched |

## Left out

- Terminal output beyond the cell grid: `Show`, `ShowCursor` and
  `HideCursor`. The caret position is part of `Framing.Status` instead.
- `Repaint` does not draw its rows here. It returns a `Pager.Frame`, which
  records:
  - which rows below show a line;
  - the panel's bottom;
  - the status line.

  Row drawing is modelled by `Draw.DrawLine`.
- The help overlay (`screen/screen.go:271-290`): only the `help` flag is
  modelled.
- The content of the detail panels:
  - `json.MarshalIndent` and `util/pretty.go` are not part of this model;
  - the number of lines `json.MarshalIndent` prints for a JSON tag is the
    oracle `inner`;
  - level 2 is not drawn.
- The `nomatch` style of rows that do not match the pattern, and the
  cursor row's colours.
- `Cursor.Time`: it depends on the wall clock. The formatted time is the
  parameter `timeText`.
- `Printf`/`PrintfHL` formatting is not modelled. The status line is built
  from `Decimal.FormatInt` and the pattern's source text, as `%d` and
  `%+v` print them.
- The mutexes of `Buffer` and `Cursor`: every operation runs to
  completion.
- `Last = time.Now()`: a counter that grows on every append.
- The log calls, `NewScreen`'s terminal setup, `handleEvent`, `Close` and
  `undoTcellSig`.
- `ClipCopy` runs an external program. `c`/`C` return the text as
  `Outcome.Copy`.
- Regular expressions and JSON decoding: the `Matcher`, `Finder` and
  `Json` oracles.
- tcell internals: colours are palette indices, and `Rgb` gives a
  colour's parts. `KeyBackspace` stands for both backspace codes. The rune
  of a non-rune key is taken as the event reports it.
- `Draw.Lower`: lower-cases ASCII only, not all of Unicode
  (`strings.ToLower`). A non-ASCII spelling that Go lower-cases onto a
  known level name, such as "İNFO" (U+0130), gets that level's label in
  the source but is printed as it is here.
- `Draw.Emit`: works on characters, not on the bytes of invalid UTF-8.
- `Draw.Fg`, `Draw.Bg`, `Draw.Col` and `Draw.Reverse` are plain field
  updates without a contract of their own.
- `Pager.Screen.EventRune`: states exit, help and copy only. What each
  rune does is stated on `MoveKey`, `ViewKey` and the handlers they call.
- `Pager.Screen.EventNav`: for keys read by their rune, states exit, help
  and copy only. `EventRune`, `MoveKey` and `ViewKey` state the rest.
- `Pager.Screen.ViewKey`: does not restate the buffer contents after `m`
  and `g`/`G`. `MarkMatches` and `Grep` state them.
- `Pager.Screen.Event` and `Pager.Screen.KeyEvent`: state dispatch, exit,
  help and the repaint frame. Each key's effect on the state is stated on
  `EventQuery`, `EventNav` and its handlers.
- `Pager.PanelBottom`, `Pager.Screen.Panel` and `Pager.Screen.Repaint`:
  use the corrected row count `Framing.TagRows`. For a tag holding an empty
  JSON object over 40 bytes the source panics (see Findings), and
  `util.Recover` exits the program; here the panel gets one row for that tag
  and `Repaint` returns a normal frame.
- `Pager.Screen.KeyEvent` and `Pager.Screen.Event`: the repaint frame they
  promise is `Framed` with the corrected panel rows, so it also covers the
  empty-object tag on which the source panics (see Findings).
- `Draw.HLCells`: ends the highlighting at an empty match at the start of
  the remaining text, where the source loops forever (see Findings).

## Findings

| source | as written | input that shows it | evidently intended | confidence | as-written member | corrected member |
|---|---|---|---|---|---|---|
| screen/cursor.go:63-73 | `printHL` leaves its loop only when `FindStringIndex` finds nothing, and drops the text up to the end of each match | search pattern `x*` (or `^`) on the line "abc": the match is `[0, 0]`, nothing is dropped, and the loop repeats forever, freezing the pager | stop at (or step past) an empty match, drawing the rest plainly | not executed | Draw.EmptyMatchNeverExits | Draw.HLCells |
| screen/screen.go:179-186 | an indented tag's lines are read from `lines[1]` and `lines[1:len(lines)-1]` of the `MarshalIndent` text | the line `{"ctx":{` + 40 blanks + `}}` at detail level 1: the tag is 42 bytes, opens with `{` and decodes to an empty map, which prints as the single line `{}`, so `lines[1]` is out of range and the pager panics | show the tag's heading row and no inner lines | not executed | Framing.EmptyObjectPanics | Framing.TagRows |
