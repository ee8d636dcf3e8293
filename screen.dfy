/**
 * The pager's screen (screen/event.go, screen/screen.go): the navigation
 * state that key events change, and the framing `Repaint` computes. The
 * terminal is reduced to its height `h`; what `Repaint` draws row by row is
 * modelled in `Draw` and only its framing and status line are computed
 * here.
 */
module Pager {
  import opened Wrappers
  import opened Lines
  import opened Steps
  import opened TBuf
  import opened Edit
  import opened Regex
  import opened Grep
  import opened Framing

  /** The keys the pager tells apart; `KeyBackspace` stands for both backspace codes. */
  datatype KeyCode = KeyUp | KeyDown | KeyPgUp | KeyPgDn | KeyLeft | KeyRight | KeyF1
                   | KeyBackspace | KeyEnter | KeyRune | KeyOther

  /** A terminal event: a key with the rune it reports, a resize, or anything else. */
  datatype Ev = Key(key: KeyCode, ch: char) | Resize | Unknown

  /**
   * What an event asks of the caller: go on, stop (`Exit`), report an
   * unexpected event, or put text on the clipboard (`ClipCopy`, which runs
   * an external program).
   */
  datatype Outcome = Continue | Exit | Unexpected | Copy(text: string)

  /**
   * What `Repaint` computes: whether each row below the cursor row shows a
   * line (true) or is cleared, the bottom of the level-1 detail panel when
   * one is drawn, and the status line unless `Repaint` returned early.
   */
  datatype Frame = Frame(below: seq<bool>, panel: Option<int>, status: Option<Status>)

  /** The keys that navigation handles by key code; every other key is read by its rune. */
  predicate NavKeyCode(k: KeyCode) {
    k in {KeyF1, KeyUp, KeyDown, KeyPgUp, KeyPgDn, KeyLeft, KeyRight}
  }

  /**
   * The search pattern a search text sets (`onChange`): none for an empty
   * text; the text as a regular expression when it compiles; otherwise the
   * text taken literally.
   */
  function SearchPattern(re: Matcher, text: string): (p: Option<Pattern>)
    ensures text == "" ==> p == None
    ensures text != "" && re.compile(text).Some? ==> p == re.compile(text)
    ensures text != "" && re.compile(text).None? ==> p == re.compile(re.quoteMeta(text))
  {
    if |text| == 0 then None
    else
      match re.compile(text)
      case Some(q) => Some(q)
      case None => re.compile(re.quoteMeta(text))
  }

  /** The predicate of `n` and `N`: a marked line, or with a pattern also a matching one. */
  function MarkOrMatch(re: Matcher, pattern: Option<Pattern>): Pred {
    match pattern
    case Some(p) => Some((l: Line) => l.mark || re.matches(p, l.str))
    case None => Some((l: Line) => l.mark)
  }

  /** `MarkOrMatch` accepts exactly the marked lines and, with a pattern, the matching ones. */
  lemma MarkOrMatchAccepts(re: Matcher, pattern: Option<Pattern>, l: Line)
    ensures Accepts(MarkOrMatch(re, pattern), l) <==> l.mark || (pattern.Some? && re.matches(pattern.value, l.str))
  {
  }

  /** The `M` visitor: unmark every line. */
  function ClearMark(i: int, l: Line): (Line, bool) {
    (l.(mark := false), true)
  }

  /** The `m` visitor: mark every line the pattern matches, leave the others. */
  function MarkIfMatch(re: Matcher, p: Pattern): Visitor {
    (i: int, l: Line) => (if re.matches(p, l.str) then l.(mark := true) else l, true)
  }

  /** `M` clears every mark and changes nothing else. */
  lemma UnmarkAllClears(lines: seq<Line>)
    ensures |Visit(lines, ClearMark, 0)| == |lines|
    ensures forall k :: 0 <= k < |lines| ==> Visit(lines, ClearMark, 0)[k] == lines[k].(mark := false)
  {
    VisitStops(lines, ClearMark, 0, |lines|);
  }

  /** `m` marks every matching line and leaves every other line as it was. */
  lemma MarkMatchesMarks(lines: seq<Line>, re: Matcher, p: Pattern)
    ensures |Visit(lines, MarkIfMatch(re, p), 0)| == |lines|
    ensures forall k :: 0 <= k < |lines| ==>
              Visit(lines, MarkIfMatch(re, p), 0)[k] == if re.matches(p, lines[k].str) then lines[k].(mark := true) else lines[k]
  {
    VisitStops(lines, MarkIfMatch(re, p), 0, |lines|);
  }

  /** The bottom row of the level-1 detail panel under a line drawn at `row`: two rows, then the tags. */
  method PanelBottom(l: Line, row: int, inner: Raw -> Option<nat>) returns (keys: seq<string>, bottom: int)
    ensures Sorted(keys) && (forall k :: k in keys <==> k in l.tags)
    ensures bottom == row + 2 + TagRowsOf(keys, l.tags, inner)
  {
    keys := SortedTags(l);
    bottom := row + 2;       // the line itself, then time and level
    var i := 0;
    while i < |keys|
      invariant 0 <= i <= |keys|
      invariant bottom == row + 2 + TagRowsOf(keys[..i], l.tags, inner)
    {
      var v := l.tags[keys[i]];
      TagRowsOfStep(keys, i, l.tags, inner);
      if |v| != 0 {
        if Utf8Len(v) > 40 && v[0] == '{' && inner(v).Some? && inner(v).value >= 2 {
          bottom := bottom + (inner(v).value - 2);     // one row per line inside the braces
        }
        bottom := bottom + 1;
      }
      i := i + 1;
    }
    assert keys[..i] == keys;
  }

  /** `bottom` is where the level-1 panel of `l` ends when `l` is drawn at `row`: tags in sorted order. */
  ghost predicate PanelBottomOf(l: Line, row: int, inner: Raw -> Option<nat>, bottom: int) {
    exists keys :: Sorted(keys) && (forall k :: k in keys <==> k in l.tags) && bottom == row + 2 + TagRowsOf(keys, l.tags, inner)
  }

  class Screen {
    const origBuf: Buffer
    var buffer: Buffer
    var row: int
    var col: int
    var details: int
    var detoffset: int
    var help: bool
    var pattern: Option<Pattern>
    var refresh: bool
    const input: HistoryInput
    var query: string
    var queryEnd: string
    /** The regular-expression engine. */
    const re: Matcher

    /** A query being edited always has a current history entry. */
    ghost predicate Valid()
      reads this, buffer, origBuf, input
    {
      buffer.Valid() && origBuf.Valid() && input.Valid() &&
      (query != "" ==> 0 <= input.pos < |input.history|) &&
      0 <= details <= 2 && 0 <= col && 0 <= detoffset
    }

    /** `NewScreen`, without the terminal: the cursor row starts five rows above the bottom. */
    constructor (b: Buffer, re: Matcher, h: int)
      requires b.Valid()
      ensures Valid() && fresh(input)
      ensures origBuf == b && buffer == b && this.re == re && input.history == []
      ensures row == h - 5 && col == 0 && details == 0 && detoffset == 0
      ensures !help && pattern == None && !refresh && query == "" && queryEnd == ""
    {
      origBuf, buffer, this.re := b, b, re;
      input := new HistoryInput();
      row := h - 5;
      col, details, detoffset := 0, 0, 0;
      help, pattern, refresh := false, None, false;
      query, queryEnd := "", "";
    }

    /** The status line for the current state. */
    function CurrentStatus(): Status
      reads this, buffer, origBuf, input, input.history
      requires Valid()
    {
      var head := StatusHead(buffer.pos, |buffer.lines|, col, if buffer != origBuf then Some(|origBuf.lines|) else None);
      if query == "" then StatusLine(head, query, pattern, "", "", queryEnd)
      else
        var (l, r) := input.Get().Details();
        StatusLine(head, query, pattern, l, r, queryEnd)
    }

    /** `event`: every event hides the help; keys go to the query editor while a query is open. */
    method Event(ev: Ev, h: int, inner: Raw -> Option<nat>) returns (out: Outcome, frame: Option<Frame>)
      requires Valid()
      modifies this, buffer, input, input.history
      ensures Valid()
      ensures !ev.Key? ==> !help && frame == None
      ensures ev.Resize? ==> refresh && out == Continue
      ensures ev.Unknown? ==> out == Unexpected
      ensures out == Exit <==> ev.Key? && old(query) == "" && !NavKeyCode(ev.key) && ev.ch == 'q'
      ensures help <==> ev.Key? && old(query) == "" && (ev.key == KeyF1 || (!NavKeyCode(ev.key) && ev.ch == 'h'))
      ensures frame.Some? ==> ev.Key? && exists r0 :: Framed(r0, frame.value, h, inner)
    {
      help := false;
      frame := None;
      match ev
      case Key(key, ch) =>
        out, frame := KeyEvent(key, ch, h, inner);
      case Resize =>
        refresh := true;
        out := Continue;
      case Unknown =>
        out := Unexpected;
    }

    /** A key: to the query editor while a query is open, else to navigation; then repaint if asked. */
    method KeyEvent(key: KeyCode, ch: char, h: int, inner: Raw -> Option<nat>) returns (out: Outcome, frame: Option<Frame>)
      requires Valid()
      modifies this, buffer, input, input.history
      ensures Valid()
      ensures out == Exit <==> old(query) == "" && !NavKeyCode(key) && ch == 'q'
      ensures help <==> old(help) || (old(query) == "" && (key == KeyF1 || (!NavKeyCode(key) && ch == 'h')))
      ensures frame.Some? ==> exists r0 :: Framed(r0, frame.value, h, inner)
    {
      var repaint;
      frame := None;
      out, repaint := Route(key, ch, h);
      if repaint {
        ghost var r0 := row;
        var f := Repaint(h, inner);
        frame := Some(f);
        assert Framed(r0, f, h, inner);
      }
    }

    /** A key goes to the query editor while a query is open, and to navigation otherwise. */
    method Route(key: KeyCode, ch: char, h: int) returns (out: Outcome, repaint: bool)
      requires Valid()
      modifies this, buffer, input, input.history
      ensures Valid()
      ensures out == Exit <==> old(query) == "" && !NavKeyCode(key) && ch == 'q'
      ensures help <==> old(help) || (old(query) == "" && (key == KeyF1 || (!NavKeyCode(key) && ch == 'h')))
      ensures old(query) != "" ==> out == Continue
    {
      if query != "" {
        repaint := EventQuery(key, ch);
        out := Continue;
      } else {
        out, repaint := EventNav(key, ch, h);
      }
    }

    /** `eventQuery`: edit the query; every edit recomputes the pattern. */
    method EventQuery(key: KeyCode, ch: char) returns (repaint: bool)
      requires Valid() && query != ""
      modifies this`pattern, this`query, input, input.history
      ensures Valid()
      ensures input.history == old(input.history)
      ensures query == if key == KeyEnter then "" else old(query)
      ensures key in {KeyBackspace, KeyUp, KeyDown, KeyPgDn, KeyRune} ==>
                pattern == SearchPattern(re, input.Get().String())
      ensures key !in {KeyBackspace, KeyUp, KeyDown, KeyPgDn, KeyRune} ==> pattern == old(pattern)
      ensures key in {KeyLeft, KeyRight} ==> input.Get().String() == old(input.Get().String())
      ensures key == KeyRune ==> input.Get().String() == old(input.Get().left) + [ch] + old(input.Get().right)
      ensures key == KeyUp ==> input.pos == if old(input.pos) > 0 then old(input.pos) - 1 else 0
      ensures key == KeyDown ==> input.pos == if old(input.pos) < |input.history| - 1 then old(input.pos) + 1 else old(input.pos)
      ensures key == KeyPgDn ==> input.pos == |input.history| - 1
      ensures key !in {KeyUp, KeyDown, KeyPgDn} ==> input.pos == old(input.pos)
      ensures key == KeyBackspace ==>
                input.Get().left == Chop(old(input.Get().left)).0 && input.Get().right == old(input.Get().right)
      ensures key == KeyLeft ==>
                input.Get().left == Chop(old(input.Get().left)).0 &&
                input.Get().right == Chop(old(input.Get().left)).1 + old(input.Get().right)
      ensures key == KeyRight ==>
                input.Get().left == old(input.Get().left) + Shift(old(input.Get().right)).0 &&
                input.Get().right == Shift(old(input.Get().right)).1
      ensures key == KeyRune ==>
                input.Get().left == old(input.Get().left) + [ch] && input.Get().right == old(input.Get().right)
      ensures key in {KeyLeft, KeyRight, KeyBackspace, KeyRune} ==>
                forall e :: e in input.history && e != input.Get() ==> e.left == old(e.left) && e.right == old(e.right)
      ensures key !in {KeyLeft, KeyRight, KeyBackspace, KeyRune} ==>
                forall e :: e in input.history ==> e.left == old(e.left) && e.right == old(e.right)
      ensures repaint <==> key in {KeyLeft, KeyRight, KeyBackspace, KeyUp, KeyDown, KeyPgDn, KeyEnter, KeyRune}
    {
      repaint := true;
      match key
      case KeyLeft =>
        input.Get().Left();
      case KeyRight =>
        input.Get().Right();
      case KeyBackspace =>
        input.Get().Backspace();
        OnChange();
      case KeyUp =>
        var _ := input.Up();
        OnChange();
      case KeyDown =>
        var _ := input.Down();
        OnChange();
      case KeyPgDn =>
        var _ := input.Last();
        OnChange();
      case KeyEnter =>
        query := "";       // onEnter
      case KeyRune =>
        input.Get().Append([ch]);
        OnChange();
      case _ =>
        repaint := false;
    }

    /** The `onChange` of a search: the pattern follows the text of the current entry. */
    method OnChange()
      requires Valid() && 0 <= input.pos < |input.history|
      modifies this`pattern
      ensures Valid()
      ensures pattern == SearchPattern(re, input.Get().String())
    {
      pattern := None;
      var p := input.Get().String();
      if |p| == 0 {
        return;
      }
      pattern := re.compile(p);
      if pattern.None? {
        pattern := re.compile(re.quoteMeta(p));
      }
    }

    /** `eventNav`: browse the buffer. */
    method EventNav(key: KeyCode, ch: char, h: int) returns (out: Outcome, repaint: bool)
      requires Valid() && query == ""
      modifies this, buffer, input, input.history
      ensures Valid()
      ensures out == Exit <==> !NavKeyCode(key) && ch == 'q'
      ensures out.Copy? ==> !NavKeyCode(key) && ch in {'c', 'C'}
      ensures help <==> old(help) || key == KeyF1 || (!NavKeyCode(key) && ch == 'h')
      ensures key in {KeyPgUp, KeyPgDn} ==> refresh && !repaint
      ensures key == KeyLeft ==> col == if old(col) >= 20 then old(col) - 20 else 0
      ensures key == KeyRight ==> col == old(col) + 20
      ensures out == Exit ==> !repaint
      ensures NavKeyCode(key) ==>
                out == Continue && buffer == old(buffer) && buffer.lines == old(buffer.lines) &&
                buffer.last == old(buffer.last) && query == old(query) && pattern == old(pattern) &&
                details == old(details) && input.pos == old(input.pos) && input.history == old(input.history)
      ensures NavKeyCode(key) && key !in {KeyLeft, KeyRight} ==> col == old(col)
      ensures key in {KeyF1, KeyLeft, KeyRight} ==>
                buffer.pos == old(buffer.pos) && row == old(row) && detoffset == old(detoffset)
      ensures key == KeyUp ==>
                detoffset == 0 && row == RowUp(old(row)) &&
                buffer.pos == if old(buffer.pos) > 0 then old(buffer.pos) - 1 else 0
      ensures key == KeyDown ==>
                detoffset == 0 && row == RowDown(old(row), h - 2) &&
                buffer.pos == if old(buffer.pos) < |buffer.lines| then old(buffer.pos) + 1 else old(buffer.pos)
      ensures key == KeyPgUp && old(details) > 0 ==>
                detoffset == (if old(detoffset) >= 5 then old(detoffset) - 5 else 0) &&
                row == old(row) && buffer.pos == old(buffer.pos)
      ensures key == KeyPgUp && old(details) == 0 ==>
                detoffset == old(detoffset) &&
                buffer.pos == (if old(buffer.pos) >= 25 then old(buffer.pos) - 25 else 0) &&
                row == (if old(row) >= 25 then old(row) - 25 else 0)
      ensures key == KeyPgDn && old(details) > 0 ==>
                detoffset == old(detoffset) + 5 && row == old(row) && buffer.pos == old(buffer.pos)
      ensures key == KeyPgDn && old(details) == 0 ==>
                detoffset == old(detoffset) &&
                buffer.pos == (if old(buffer.pos) + 25 <= |buffer.lines| then old(buffer.pos) + 25 else |buffer.lines|) &&
                row == (if old(row) + 25 > h - 2 then h - 2 else old(row) + 25)
    {
      out, repaint := Continue, true;
      match key
      case KeyF1 =>
        help := true;
      case KeyUp =>
        StepUp();
      case KeyDown =>
        StepDown(h);
      case KeyPgUp =>
        PageUp();
        repaint := false;
      case KeyPgDn =>
        PageDown(h);
        repaint := false;
      case KeyLeft =>
        ShiftLeft();
      case KeyRight =>
        col := col + 20;
      case _ =>
        out, repaint := EventRune(ch, h);
    }

    /** The keys `eventNav` reads by their rune. */
    method EventRune(ch: char, h: int) returns (out: Outcome, repaint: bool)
      requires Valid() && query == ""
      modifies this, buffer, input
      ensures Valid()
      ensures out == Exit <==> ch == 'q'
      ensures out.Copy? ==> ch in {'c', 'C'}
      ensures help <==> old(help) || ch == 'h'
      ensures out == Exit ==> !repaint
    {
      out, repaint := Continue, true;
      if ch in {'0', 'F', 'n', 'N', ' '} {
        MoveKey(ch, h);
      } else if ch in {'/', 'M', 'm', 'g', 'G', 'O', 'd'} {
        repaint := ViewKey(ch);
      } else if ch == 'h' {
        help := true;
      } else if ch == 'q' {
        out, repaint := Exit, false;
      } else if ch == 'c' {
        out := CopyLine();
        repaint := false;
      } else if ch == 'C' {
        var text := CopyMarked(buffer);
        out, repaint := Copy(text), false;
      } else {
        repaint := false;
      }
    }

    /** The rune keys that move through the buffer: `0`, `F`, `n`, `N` and space. */
    method MoveKey(ch: char, h: int)
      requires Valid()
      modifies this`row, this`detoffset, buffer
      ensures Valid()
      ensures ch == '0' ==> buffer.pos == 0 && row == 0
      ensures ch == 'F' ==> buffer.pos == |buffer.lines| && row == if h - 2 > |buffer.lines| then |buffer.lines| else h - 2
      ensures |buffer.lines| == |old(buffer.lines)| && (ch != ' ' ==> buffer.lines == old(buffer.lines))
      ensures ch == 'n' ==> (detoffset == 0 &&
                var s := DownStep(buffer.lines, old(buffer.pos), MarkOrMatch(re, pattern));
                buffer.pos == s.pos && row == RowDownTimes(old(row), h - 2, s.evals))
      ensures ch == 'N' ==> (detoffset == 0 &&
                var s := UpStep(buffer.lines, old(buffer.pos), MarkOrMatch(re, pattern));
                buffer.pos == s.pos && row == RowUpTimes(old(row), s.evals))
      ensures ch == ' ' && old(buffer.pos) < |old(buffer.lines)| ==>
                buffer.lines == old(buffer.lines)[old(buffer.pos) := old(buffer.lines)[old(buffer.pos)].(mark := !old(buffer.lines)[old(buffer.pos)].mark)] &&
                buffer.pos == old(buffer.pos) + 1 && row == RowDown(old(row), h - 2)
      ensures ch == ' ' && old(buffer.pos) == |old(buffer.lines)| ==>
                buffer.lines == old(buffer.lines) && buffer.pos == old(buffer.pos) && row == old(row)
      ensures ch !in {'n', 'N'} ==> detoffset == old(detoffset)
      ensures buffer.last == old(buffer.last)
      ensures ch !in {'0', 'F', 'n', 'N', ' '} ==> buffer.pos == old(buffer.pos) && row == old(row)
    {
      if ch == '0' {
        First();
      } else if ch == 'F' {
        Follow(h);
      } else if ch == 'n' {
        ScanNext(h);
      } else if ch == 'N' {
        ScanPrev(h);
      } else if ch == ' ' {
        MarkAndStep(h);
      }
    }

    /** The rune keys that change what is shown: `/`, `M`, `m`, `g`, `G`, `O` and `d`. */
    method ViewKey(ch: char) returns (repaint: bool)
      requires Valid() && query == ""
      modifies this`query, this`pattern, this`buffer, this`detoffset, this`details, buffer, input
      ensures Valid()
      ensures ch == '/' ==> query == "SEARCH" && pattern == None
      ensures ch == 'M' ==> buffer == old(buffer) && buffer.lines == Visit(old(buffer.lines), ClearMark, 0)
      ensures ch in {'g', 'G'} ==> (repaint <==> Filtered(old(buffer).lines, ch == 'g') != [])
      ensures ch == 'O' ==> buffer == origBuf && detoffset == 0
      ensures ch == 'd' ==> details == (old(details) + 1) % 3 && detoffset == 0
      ensures ch !in {'g', 'G'} ==> repaint
    {
      repaint := true;
      if ch == '/' {
        StartSearch();
      } else if ch == 'M' {
        buffer.Range(ClearMark);
      } else if ch == 'm' {
        MarkMatches();
      } else if ch == 'g' || ch == 'G' {
        repaint := Grep(ch == 'g');
      } else if ch == 'O' {
        detoffset := 0;
        buffer := origBuf;
      } else if ch == 'd' {
        CycleDetails();
      }
    }

    /** `KeyUp`: one line up, and the cursor row with it, stopping at row 0. */
    method StepUp()
      requires Valid()
      modifies this`detoffset, this`row, buffer`pos
      ensures Valid()
      ensures detoffset == 0
      ensures buffer.pos == if old(buffer.pos) > 0 then old(buffer.pos) - 1 else 0
      ensures row == RowUp(old(row))
    {
      detoffset := 0;
      UpNil(buffer.lines, buffer.pos);
      var _, _, _ := buffer.Up(None);
      if row > 0 {
        row := row - 1;
      }
    }

    /** `KeyDown`: one line down (into the tail at the last line), the cursor row with it, stopping at `h - 2`. */
    method StepDown(h: int)
      requires Valid()
      modifies this`detoffset, this`row, buffer`pos
      ensures Valid()
      ensures detoffset == 0
      ensures buffer.pos == if old(buffer.pos) < |buffer.lines| then old(buffer.pos) + 1 else old(buffer.pos)
      ensures row == RowDown(old(row), h - 2)
    {
      detoffset := 0;
      DownNil(buffer.lines, buffer.pos);
      var _, _, _ := buffer.Down(None);
      if row < h - 2 {
        row := row + 1;
      }
    }

    /** `KeyPgUp`: scroll the detail panel up by 5, or without one go 25 lines up. */
    method PageUp()
      requires Valid()
      modifies this`detoffset, this`row, this`refresh, buffer`pos
      ensures Valid() && refresh
      ensures details > 0 ==>
                detoffset == (if old(detoffset) >= 5 then old(detoffset) - 5 else 0) &&
                row == old(row) && buffer.pos == old(buffer.pos)
      ensures details == 0 ==>
                detoffset == old(detoffset) &&
                buffer.pos == (if old(buffer.pos) >= 25 then old(buffer.pos) - 25 else 0) &&
                row == (if old(row) >= 25 then old(row) - 25 else 0)
    {
      if details > 0 {
        detoffset := detoffset - 5;
        if detoffset < 0 {
          detoffset := 0;
        }
      } else {
        var i := 0;
        while i < 25
          invariant 0 <= i <= 25
          invariant buffer.Valid()
          invariant buffer.pos == if old(buffer.pos) >= i then old(buffer.pos) - i else 0
          invariant row == old(row) && detoffset == old(detoffset)
        {
          UpNil(buffer.lines, buffer.pos);
          var _, _, _ := buffer.Up(None);
          i := i + 1;
        }
        row := row - 25;
        if row < 0 {
          row := 0;
        }
      }
      refresh := true;
    }

    /** `KeyPgDn`: scroll the detail panel down by 5, or without one go 25 lines down. */
    method PageDown(h: int)
      requires Valid()
      modifies this`detoffset, this`row, this`refresh, buffer`pos
      ensures Valid() && refresh
      ensures details > 0 ==>
                detoffset == old(detoffset) + 5 && row == old(row) && buffer.pos == old(buffer.pos)
      ensures details == 0 ==>
                detoffset == old(detoffset) &&
                buffer.pos == (if old(buffer.pos) + 25 <= |buffer.lines| then old(buffer.pos) + 25 else |buffer.lines|) &&
                row == (if old(row) + 25 > h - 2 then h - 2 else old(row) + 25)
    {
      if details > 0 {
        detoffset := detoffset + 5;   // the source's clamp at 0 cannot fire: `detoffset` is never negative
      } else {
        var i := 0;
        while i < 25
          invariant 0 <= i <= 25
          invariant buffer.Valid()
          invariant buffer.pos == if old(buffer.pos) + i <= |buffer.lines| then old(buffer.pos) + i else |buffer.lines|
          invariant row == old(row) && detoffset == old(detoffset)
        {
          DownNil(buffer.lines, buffer.pos);
          var _, _, _ := buffer.Down(None);
          i := i + 1;
        }
        row := row + 25;
        if row > h - 2 {
          row := h - 2;
        }
      }
      refresh := true;
    }

    /** `KeyLeft`: scroll 20 columns back, never before column 0. */
    method ShiftLeft()
      requires Valid()
      modifies this`col
      ensures Valid()
      ensures col == if old(col) >= 20 then old(col) - 20 else 0
    {
      if col >= 20 {
        col := col - 20;
      } else {
        col := 0;
      }
    }

    /** `0`: the first line, on the top row. */
    method First()
      requires Valid()
      modifies this`row, buffer`pos
      ensures Valid()
      ensures buffer.pos == 0 && row == 0
    {
      buffer.pos := 0;
      row := 0;
    }

    /** `F`: follow the tail, with as many lines above it as fit. */
    method Follow(h: int)
      requires Valid()
      modifies this`row, buffer`pos
      ensures Valid()
      ensures buffer.pos == |buffer.lines|
      ensures row == if h - 2 > |buffer.lines| then |buffer.lines| else h - 2
    {
      buffer.pos := |buffer.lines|;
      row := h - 2;
      if row > buffer.pos {
        row := buffer.pos;
      }
    }

    /** `/`: open the search, on an empty history entry, with no pattern yet. */
    method StartSearch()
      requires Valid()
      modifies this`query, this`pattern, input
      ensures Valid()
      ensures query == "SEARCH"
      ensures |input.history| > 0 && input.pos == |input.history| - 1
      ensures input.Get().String() == "" && pattern == None
    {
      query := "SEARCH";
      var _ := input.NewUnlessEmpty();
      OnChange();
    }

    /**
     * `n`: scan down for a marked or matching line. The predicate moves the
     * cursor row down once per line it looks at, stopping at `h - 2`.
     */
    method ScanNext(h: int)
      requires Valid()
      modifies this`detoffset, this`row, buffer`pos
      ensures Valid()
      ensures detoffset == 0
      ensures var s := DownStep(buffer.lines, old(buffer.pos), MarkOrMatch(re, pattern));
              buffer.pos == s.pos && row == RowDownTimes(old(row), h - 2, s.evals)
    {
      detoffset := 0;
      var _, _, evals := buffer.Down(MarkOrMatch(re, pattern));
      RowDownTimesValue(row, h - 2, evals);
      var r, i := row, 0;
      while i < evals
        invariant 0 <= i <= evals
        invariant r == if row >= h - 2 then row else if row + i <= h - 2 then row + i else h - 2
      {
        if r < h - 2 {
          r := r + 1;
        }
        i := i + 1;
      }
      row := r;
    }

    /**
     * `N`: scan up for a marked or matching line. The predicate moves the
     * cursor row up once per line it looks at, stopping at row 0.
     */
    method ScanPrev(h: int)
      requires Valid()
      modifies this`detoffset, this`row, buffer`pos
      ensures Valid()
      ensures detoffset == 0
      ensures var s := UpStep(buffer.lines, old(buffer.pos), MarkOrMatch(re, pattern));
              buffer.pos == s.pos && row == RowUpTimes(old(row), s.evals)
    {
      detoffset := 0;
      var _, _, evals := buffer.Up(MarkOrMatch(re, pattern));
      RowUpTimesValue(row, evals);
      var r, i := row, 0;
      while i < evals
        invariant 0 <= i <= evals
        invariant r == if row <= 0 then row else if row >= i then row - i else 0
      {
        if r > 0 {
          r := r - 1;
        }
        i := i + 1;
      }
      row := r;
    }

    /** Space: on a line, flip its mark and step down; on the tail, nothing. */
    method MarkAndStep(h: int)
      requires Valid()
      modifies this`row, buffer
      ensures Valid()
      ensures old(buffer.pos) < |old(buffer.lines)| ==>
                buffer.lines == old(buffer.lines)[old(buffer.pos) := old(buffer.lines)[old(buffer.pos)].(mark := !old(buffer.lines)[old(buffer.pos)].mark)] &&
                buffer.pos == old(buffer.pos) + 1 && row == RowDown(old(row), h - 2)
      ensures old(buffer.pos) == |old(buffer.lines)| ==>
                buffer.lines == old(buffer.lines) && buffer.pos == old(buffer.pos) && row == old(row)
      ensures buffer.last == old(buffer.last)
    {
      var _, ok := buffer.Get();
      if ok {
        buffer.Mark();
        DownNil(buffer.lines, buffer.pos);
        var _, _, _ := buffer.Down(None);
        if row < h - 2 {
          row := row + 1;
        }
      }
    }

    /** `m`: mark every line the pattern matches, then drop the pattern. */
    method MarkMatches()
      requires Valid()
      modifies this`pattern, buffer`lines
      ensures Valid()
      ensures old(pattern).Some? ==> buffer.lines == Visit(old(buffer.lines), MarkIfMatch(re, old(pattern).value), 0) && pattern == None
      ensures old(pattern).None? ==> buffer.lines == old(buffer.lines) && pattern == None
    {
      if pattern.Some? {
        buffer.Range(MarkIfMatch(re, pattern.value));
        pattern := None;
      }
    }

    /** `g` (`keep`) and `G`: switch to a grep view, unless it would be empty. */
    method Grep(keep: bool) returns (switched: bool)
      requires Valid()
      modifies this`buffer
      ensures Valid()
      ensures switched <==> Filtered(old(buffer).lines, keep) != []
      ensures switched ==> (fresh(buffer) &&
                            buffer.lines == Filtered(old(buffer).lines, keep) &&
                            buffer.pos == FilteredPos(old(buffer).lines, keep, old(buffer).pos))
      ensures !switched ==> buffer == old(buffer)
    {
      var b := GrepView(buffer, keep);
      switched := |b.lines| > 0;
      if switched {
        buffer := b;
      }
    }

    /** `d`: cycle the detail level 0, 1, 2, 0. */
    method CycleDetails()
      requires Valid()
      modifies this`details, this`detoffset
      ensures Valid()
      ensures detoffset == 0
      ensures details == (old(details) + 1) % 3
    {
      detoffset := 0;
      details := details + 1;
      if details > 2 {
        details := 0;
      }
    }

    /** `c`: the current line's text for the clipboard; nothing on the tail. */
    method CopyLine() returns (out: Outcome)
      requires Valid()
      ensures buffer.pos < |buffer.lines| ==> out == Copy(buffer.lines[buffer.pos].str)
      ensures buffer.pos == |buffer.lines| ==> out == Continue
    {
      var l, ok := buffer.Get();
      out := if ok then Copy(l.str) else Continue;
    }

    /**
     * What `Repaint` leaves behind, for a cursor row `r0` before it: `row`
     * first moves one step toward 5 under a detail panel (`r1`), then up by
     * the rows above it with no line to show (`r2`); below it the rows show
     * lines down to the tail; a level-1 panel has its computed bottom, and
     * when it runs off the screen `row` moves up once more and no status
     * line is drawn; `refresh` records whether any of this re-framed.
     */
    ghost predicate Framed(r0: int, f: Frame, h: int, inner: Raw -> Option<nat>)
      reads this, buffer, origBuf, input, input.history
      requires Valid()
    {
      var r1 := DetailsRow(r0, details);
      var r2 := AboveRow(r1, buffer.pos, 1);
      var overflow := f.panel.Some? && r2 > 0 && f.panel.value > h;
      |f.below| == BelowRows(r2, h) &&
      (forall i :: 0 <= i < |f.below| ==> (f.below[i] <==> buffer.pos + i + 1 < |buffer.lines|)) &&
      (f.panel.Some? <==> details == 1 && buffer.pos < |buffer.lines|) &&
      (f.panel.Some? ==> PanelBottomOf(buffer.lines[buffer.pos], r2, inner, f.panel.value)) &&
      row == (if overflow then r2 - 1 else r2) &&
      (refresh <==> r1 != r0 || r2 < r1 || overflow) &&
      (f.status.Some? <==> !overflow) &&
      (f.status.Some? ==> f.status.value == CurrentStatus())
    }

    /**
     * `Repaint`: re-frame and draw. `Refresh` is cleared, then raised again
     * by each framing adjustment: `row` moving toward 5 under a detail
     * panel, a row above the cursor with no line to show, or a level-1
     * panel running off the screen, which also cuts the repaint short.
     */
    method Repaint(h: int, inner: Raw -> Option<nat>) returns (f: Frame)
      requires Valid()
      modifies this`row, this`refresh
      ensures Valid()
      ensures Framed(old(row), f, h, inner)
    {
      Recenter();
      ghost var r1 := row;
      AbovePass();
      var below := BelowPass(h);
      var panel := Panel(h, inner);
      if panel.Some? && row > 0 && panel.value > h {
        row := row - 1;
        refresh := true;
        return Frame(below, panel, None);
      }
      f := Frame(below, panel, Some(CurrentStatus()));
    }

    /** Under a detail panel, `row` moves one step toward 5; `refresh` says whether it moved. */
    method Recenter()
      requires Valid()
      modifies this`row, this`refresh
      ensures Valid()
      ensures row == DetailsRow(old(row), details)
      ensures refresh <==> row != old(row)
    {
      refresh := false;
      if details > 0 {
        if row < 5 {
          row := row + 1;
          refresh := true;
        } else if row > 5 {
          row := row - 1;
          refresh := true;
        }
      }
    }

    /** The bottom row of the level-1 detail panel, drawn only on a line. */
    method Panel(h: int, inner: Raw -> Option<nat>) returns (panel: Option<int>)
      requires Valid()
      ensures panel.Some? <==> details == 1 && buffer.pos < |buffer.lines|
      ensures panel.Some? ==> PanelBottomOf(buffer.lines[buffer.pos], row, inner, panel.value)
    {
      var line, ok := buffer.Get();
      panel := None;
      if ok && details == 1 {
        var keys, bottom := PanelBottom(line, row, inner);
        panel := Some(bottom);
      }
    }

    /**
     * The rows above the cursor row, nearest first: a fresh cursor steps up
     * once per row; where it fails there is no line to show, the row is
     * cleared and `row` moves up.
     */
    method AbovePass()
      requires Valid()
      modifies this`row, this`refresh
      ensures Valid()
      ensures row == AboveRow(old(row), buffer.pos, 1)
      ensures refresh == (old(refresh) || row < old(row))
    {
      var bc := buffer.NewCursor();
      var y := 1;
      while y < 100
        invariant 1 <= y <= 100
        invariant bc.buffer == buffer && bc.Valid()
        invariant bc.cur == if buffer.pos >= y - 1 then buffer.pos - (y - 1) else 0
        invariant AboveRow(row, buffer.pos, y) == AboveRow(old(row), buffer.pos, 1)
        invariant row <= old(row)
        invariant refresh == (old(refresh) || row < old(row))
        decreases 100 - y
      {
        if row - y < 0 {
          break;
        }
        UpNil(buffer.lines, bc.cur);
        var _, ok, _ := bc.Up(None);
        if !ok {
          row := row - 1;
          refresh := true;
        }
        y := y + 1;
      }
    }

    /**
     * The rows below the cursor row, down to the screen's last row but at
     * most 99: a fresh cursor steps down once per row, and the rows it
     * cannot fill (past the tail) are cleared.
     */
    method BelowPass(h: int) returns (below: seq<bool>)
      requires Valid()
      ensures |below| == BelowRows(row, h)
      ensures forall i :: 0 <= i < |below| ==> (below[i] <==> buffer.pos + i + 1 < |buffer.lines|)
    {
      var bc := buffer.NewCursor();
      below := [];
      var y := 1;
      while y < 100
        invariant 1 <= y <= 100
        invariant bc.buffer == buffer && bc.Valid()
        invariant bc.cur == if buffer.pos + y - 1 <= |buffer.lines| then buffer.pos + y - 1 else |buffer.lines|
        invariant |below| == y - 1
        invariant y - 1 <= BelowRows(row, h)
        invariant forall i :: 0 <= i < |below| ==> (below[i] <==> buffer.pos + i + 1 < |buffer.lines|)
        decreases 100 - y
      {
        if y + row >= h {
          break;
        }
        DownNil(buffer.lines, bc.cur);
        var _, ok, _ := bc.Down(None);
        below := below + [ok];
        y := y + 1;
      }
    }
  }
}
