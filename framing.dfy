/**
 * The arithmetic of the pager's screen (screen/event.go, screen/screen.go
 * `Repaint`): how `row`, the screen row of the current line, is clamped and
 * re-framed, and the text of the status line.
 */
module Framing {
  import opened Wrappers
  import opened Decimal
  import opened Lines
  import opened Regex

  /** One clamped step down of `row`, as the `n` predicate takes it on every evaluation. */
  function RowDown(row: int, lim: int): int {
    if row < lim then row + 1 else row
  }

  /** One clamped step up of `row`, as the `N` predicate takes it on every evaluation. */
  function RowUp(row: int): int {
    if row > 0 then row - 1 else row
  }

  /** `row` after `n` evaluations of the `n` predicate. */
  function RowDownTimes(row: int, lim: int, n: nat): int
    decreases n
  {
    if n == 0 then row else RowDownTimes(RowDown(row, lim), lim, n - 1)
  }

  /** `row` after `n` evaluations of the `N` predicate. */
  function RowUpTimes(row: int, n: nat): int
    decreases n
  {
    if n == 0 then row else RowUpTimes(RowUp(row), n - 1)
  }

  /** `n` clamped steps move `row` by `n` toward the bottom bound, never past it and never back. */
  lemma {:induction false} RowDownTimesValue(row: int, lim: int, n: nat)
    ensures RowDownTimes(row, lim, n) == if row >= lim then row else if row + n <= lim then row + n else lim
    decreases n
  {
    if n > 0 {
      RowDownTimesValue(RowDown(row, lim), lim, n - 1);
    }
  }

  /** `n` clamped steps move `row` by `n` toward 0, never past it; a negative row stays. */
  lemma {:induction false} RowUpTimesValue(row: int, n: nat)
    ensures RowUpTimes(row, n) == if row <= 0 then row else if row >= n then row - n else 0
    decreases n
  {
    if n > 0 {
      RowUpTimesValue(RowUp(row), n - 1);
    }
  }

  /** With a detail panel open, every repaint moves `row` one step toward 5. */
  function DetailsRow(row: int, details: int): (r: int)
    ensures details <= 0 ==> r == row
    ensures details > 0 ==> (r == 5 <==> 4 <= row <= 6)
    ensures details > 0 ==> (if row < 5 then row < r <= 5 else if row > 5 then 5 <= r < row else r == 5)
  {
    if details > 0 then (if row < 5 then row + 1 else if row > 5 then row - 1 else row) else row
  }

  /**
   * The rows-above pass of `Repaint`, from its `y`-th iteration on, for a
   * current line at index `c`: while `y < 100` and row `row - y` is on
   * screen, the `y`-th `Up(nil)` of a fresh cursor succeeds iff `y - 1 < c`,
   * and each failure moves `row` up by one.
   */
  function AboveRow(row: int, c: int, y: int): int
    requires 1 <= y <= 100
    decreases 100 - y
  {
    if y == 100 || row - y < 0 then row
    else if y - 1 < c then AboveRow(row, c, y + 1)
    else AboveRow(row - 1, c, y + 1)
  }

  /** The pass only ever moves `row` up, and never above row 0. */
  lemma {:induction false} AboveRowBounds(row: int, c: int, y: int)
    requires 1 <= y <= 100
    ensures AboveRow(row, c, y) <= row
    ensures row >= 0 ==> AboveRow(row, c, y) >= 0
    ensures AboveRow(row, c, y) >= if row < c then row else c
    decreases 100 - y
  {
    if y < 100 && row - y >= 0 {
      if y - 1 < c {
        AboveRowBounds(row, c, y + 1);
      } else {
        AboveRowBounds(row - 1, c, y + 1);
      }
    }
  }

  /** Up to the `c + 1`-th iteration every `Up` succeeds, so `row` stays unless the pass gets that far. */
  lemma {:induction false} AboveRowPrefix(row: int, c: int, y: int)
    requires 1 <= y <= 100 && y - 1 <= c
    ensures AboveRow(row, c, y) == if row <= c || c >= 99 then row else AboveRow(row, c, c + 1)
    decreases 100 - y
  {
    if y < 100 && row - y >= 0 && y - 1 < c {
      AboveRowPrefix(row, c, y + 1);
    }
  }

  /**
   * `Repaint` re-frames iff there are fewer lines above the current one
   * than rows above the cursor row (within the pass's 99 rows). So when it
   * leaves `row` alone, every row above the cursor row shows a line.
   */
  lemma AboveRowMoves(row: int, c: int)
    requires 0 <= c
    ensures AboveRow(row, c, 1) < row <==> c < row && c < 99
  {
    AboveRowPrefix(row, c, 1);
    if c < row && c < 99 {
      AboveRowBounds(row - 1, c, c + 2);
    }
  }

  /** The rows-below pass runs for rows `row + 1 .. h - 1`, at most 99 of them. */
  function BelowRows(row: int, h: int): (n: nat)
    ensures n <= 99 && (n > 0 ==> row + n < h)
    ensures row + 1 < h ==> n > 0
  {
    if h - row - 1 <= 0 then 0 else if h - row - 1 > 99 then 99 else h - row - 1
  }

  /**
   * A tag shown indented: its value opens with `{`, is over 40 bytes long,
   * and decodes; `inner` gives the number of lines `json.MarshalIndent`
   * prints for it (at least 1: `{}` prints as a single line).
   */
  predicate Indented(v: Raw, inner: Raw -> Option<nat>) {
    |v| > 0 && Utf8Len(v) > 40 && v[0] == '{' && inner(v).Some?
  }

  /**
   * The panel rows of a tag as the source computes them, or `None` where it
   * panics: the heading row, then one row per line between the first and
   * the last line of the indented text, which it reaches through `lines[1]`.
   */
  function TagRowsAsWritten(v: Raw, inner: Raw -> Option<nat>): (r: Option<nat>)
    ensures r.None? <==> Indented(v, inner) && inner(v).value < 2
  {
    if |v| == 0 then Some(0)
    else if Indented(v, inner) then
      var n := inner(v).value;
      if n < 2 then None else Some(1 + (n - 2))
    else Some(1)
  }

  /** The rows of an indented text of `n` lines: the heading, then its inner lines, none for `{}`. */
  function IndentedRows(n: nat): (r: nat)
    ensures r >= 1 && (n >= 2 ==> r == n - 1)
  {
    if n >= 2 then n - 1 else 1
  }

  /**
   * The rows a tag takes in the level-1 detail panel: none for an empty
   * value, `IndentedRows` for an indented one, else one.
   */
  function TagRows(v: Raw, inner: Raw -> Option<nat>): (r: nat)
    ensures r == 0 <==> |v| == 0
    ensures Indented(v, inner) ==> r == IndentedRows(inner(v).value) >= 1
  {
    if |v| == 0 then 0
    else if Indented(v, inner) then IndentedRows(inner(v).value)
    else 1
  }

  /** Wherever the source does not panic, the corrected count agrees with it. */
  lemma TagRowsAgrees(v: Raw, inner: Raw -> Option<nat>)
    ensures TagRowsAsWritten(v, inner).Some? ==> TagRowsAsWritten(v, inner).value == TagRows(v, inner)
    ensures TagRowsAsWritten(v, inner).None? ==> TagRows(v, inner) == 1
  {
  }

  /** `{` and 40 blanks and `}`: an empty JSON object of 42 bytes. */
  function EmptyWide(): Raw {
    "{" + Blanks(40) + "}"
  }

  function Blanks(n: nat): (s: string)
    ensures |s| == n && forall k :: 0 <= k < n ==> s[k] == ' '
  {
    if n == 0 then "" else " " + Blanks(n - 1)
  }

  /**
   * The source panics on an empty object over 40 bytes: it prints as `{}`,
   * a single line, so there is no `lines[1]`. The corrected count gives the
   * heading row alone.
   */
  lemma EmptyObjectPanics(inner: Raw -> Option<nat>)
    requires inner(EmptyWide()) == Some(1)
    ensures TagRowsAsWritten(EmptyWide(), inner).None?
    ensures TagRows(EmptyWide(), inner) == 1
  {
    var v := EmptyWide();
    assert |v| == 42;
    assert forall k :: 0 <= k < |v| ==> v[k] as int < 0x80;
    Utf8LenAscii(v);
    assert v[0] == '{';
  }

  /** `n` copies of U+00E9, two bytes each in UTF-8. */
  function Accents(n: nat): (s: string)
    ensures |s| == n && Utf8Len(s) == 2 * n
  {
    if n == 0 then "" else "\U{E9}" + Accents(n - 1)
  }

  /** The ASCII text around the accents of the wide tag. */
  const WideOpen: string := "{\"k\":\""
  const WideClose: string := "\"}"

  /** `{"k":"éé…é"}` with 18 accents: 26 characters, but 44 bytes. */
  function WideTag(): Raw {
    WideOpen + (Accents(18) + WideClose)
  }

  lemma WideOpenBytes()
    ensures |WideOpen| == 6 && Utf8Len(WideOpen) == 6
  {
    assert forall k :: 0 <= k < |WideOpen| ==> WideOpen[k] as int < 0x80;
    Utf8LenAscii(WideOpen);
  }

  lemma WideCloseBytes()
    ensures |WideClose| == 2 && Utf8Len(WideClose) == 2
  {
    assert forall k :: 0 <= k < |WideClose| ==> WideClose[k] as int < 0x80;
    Utf8LenAscii(WideClose);
  }

  /** The wide tag's length in characters and in bytes. */
  lemma WideTagBytes()
    ensures |WideTag()| == 26 && Utf8Len(WideTag()) == 44 && WideTag()[0] == '{'
  {
    WideOpenBytes();
    WideCloseBytes();
    Utf8LenAppend(Accents(18), WideClose);
    Utf8LenAppend(WideOpen, Accents(18) + WideClose);
  }

  /** The 40-byte threshold counts bytes: a 26-character JSON tag of 44 bytes is shown indented. */
  lemma WideTagIndented(inner: Raw -> Option<nat>)
    requires inner(WideTag()).Some?
    ensures |WideTag()| <= 40 && Utf8Len(WideTag()) > 40
    ensures TagRows(WideTag(), inner) == IndentedRows(inner(WideTag()).value)
  {
    WideTagBytes();
  }

  /** The rows the panel's tags take, listed in the order of `keys`. */
  function TagRowsOf(keys: seq<string>, tags: map<string, Raw>, inner: Raw -> Option<nat>): (n: nat)
    requires forall k :: k in keys ==> k in tags
    decreases |keys|
  {
    if keys == [] then 0
    else
      var k := keys[|keys| - 1];
      TagRowsOf(keys[..|keys| - 1], tags, inner) + TagRows(tags[k], inner)
  }

  /** Taking one more key adds that key's rows. */
  lemma TagRowsOfStep(keys: seq<string>, i: nat, tags: map<string, Raw>, inner: Raw -> Option<nat>)
    requires i < |keys| && forall k :: k in keys ==> k in tags
    ensures TagRowsOf(keys[..i + 1], tags, inner) == TagRowsOf(keys[..i], tags, inner) + TagRows(tags[keys[i]], inner)
  {
    assert keys[..i + 1][..i] == keys[..i];
  }

  /** The text of `%+v` for the search pattern: ` /source/`, or nothing. */
  function PatternText(p: Option<Pattern>): string {
    if p.Some? then " /" + p.value.source + "/" else ""
  }

  /** The status line up to the query part. */
  function StatusHead(pos: int, len: int, col: int, orig: Option<int>): (r: string)
    ensures |FileField(pos, len)| <= |r| && r[..|FileField(pos, len)|] == FileField(pos, len)
  {
    FileField(pos, len)
    + (if col != 0 then "col: " + FormatInt(col) + " " else "")
    + (if orig.Some? then " (orig: " + FormatInt(orig.value) + " lines)" else "")
  }

  /** The status line's text, and where the terminal caret is shown while a query is edited. */
  datatype Status = Status(text: string, caret: Option<nat>)

  /**
   * The status line: the head, then with no query the pattern; while
   * searching ` /` and the query being typed, caret inside, and `/`; for
   * any other query the pattern, the query's name, the text being typed,
   * caret inside, and `queryEnd`.
   */
  function StatusLine(head: string, query: string, pattern: Option<Pattern>, left: string, right: string, queryEnd: string): (s: Status)
    ensures s.caret.None? <==> query == ""
    ensures |head| <= |s.text| && s.text[..|head|] == head
  {
    if query == "" then Status(head + PatternText(pattern), None)
    else if query == "SEARCH" then
      var pre := head + " /" + left;
      Status(pre + right + "/", Some(|pre|))
    else
      var pre := head + PatternText(pattern) + " " + query + left;
      Status(pre + right + queryEnd, Some(|pre|))
  }

  /** `file: pos/len ` */
  function FileField(pos: int, len: int): string {
    "file: " + FormatInt(pos) + "/" + FormatInt(len) + " "
  }

  /** Whatever the query, the status line starts with the file field. */
  lemma StatusStartsWithFileField(pos: int, len: int, col: int, orig: Option<int>, query: string, pattern: Option<Pattern>, left: string, right: string, queryEnd: string)
    ensures var t := StatusLine(StatusHead(pos, len, col, orig), query, pattern, left, right, queryEnd).text;
            |FileField(pos, len)| <= |t| && t[..|FileField(pos, len)|] == FileField(pos, len)
  {
    var head := StatusHead(pos, len, col, orig);
    var t := StatusLine(head, query, pattern, left, right, queryEnd).text;
    assert t[..|FileField(pos, len)|] == t[..|head|][..|FileField(pos, len)|];
  }

  /** Where the two numbers and the separators sit in a file field. */
  lemma FileFieldSlices(a: string, b: string)
    ensures var f := "file: " + a + "/" + b + " ";
            |f| == 8 + |a| + |b| && f[..6] == "file: " &&
            f[6..6 + |a|] == a && f[6 + |a|] == '/' &&
            f[7 + |a|..7 + |a| + |b|] == b && f[7 + |a| + |b|] == ' '
  {
  }

  /** The position and the number of lines can be read back from the file field. */
  lemma FileFieldReadsBack(pos: int, len: int)
    requires MinInt64 <= pos <= MaxInt64 && MinInt64 <= len <= MaxInt64
    ensures var f := FileField(pos, len);
            var a := |FormatInt(pos)|;
            var b := |FormatInt(len)|;
            |f| == 8 + a + b && f[..6] == "file: " &&
            ParseInt(f[6..6 + a]) == Some(pos) && f[6 + a] == '/' &&
            ParseInt(f[7 + a..7 + a + b]) == Some(len) && f[7 + a + b] == ' '
  {
    FileFieldSlices(FormatInt(pos), FormatInt(len));
    ParseFormatRoundTrip(pos);
    ParseFormatRoundTrip(len);
  }

  /** While a query is edited, the caret sits between the text before and after it. */
  lemma StatusCaret(head: string, query: string, pattern: Option<Pattern>, left: string, right: string, queryEnd: string)
    requires query != ""
    ensures var s := StatusLine(head, query, pattern, left, right, queryEnd);
            var c := s.caret.value;
            |left| <= c && c + |right| <= |s.text| &&
            s.text[c - |left|..c] == left && s.text[c..c + |right|] == right
  {
  }
}
