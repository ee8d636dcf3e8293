/**
 * The grep views of screen/event.go: `g` keeps the marked lines, `G` the
 * unmarked ones, each as an unmarked copy in a fresh buffer; and `C`,
 * which copies the text of the marked lines.
 */
module Grep {
  import opened Lines
  import opened TBuf

  /** The lines a grep view keeps: those whose mark equals `keep`, unmarked, in their order. */
  function Filtered(lines: seq<Line>, keep: bool): (r: seq<Line>)
    ensures |r| <= |lines|
    decreases |lines|
  {
    if lines == [] then []
    else
      var l := lines[|lines| - 1];
      Filtered(lines[..|lines| - 1], keep) + (if l.mark == keep then [l.(mark := false)] else [])
  }

  /** A grep view holds an unmarked copy of every kept line and nothing else. */
  lemma {:induction false} FilteredMembers(lines: seq<Line>, keep: bool, l: Line)
    ensures l in Filtered(lines, keep) <==> exists k :: 0 <= k < |lines| && lines[k].mark == keep && l == lines[k].(mark := false)
    decreases |lines|
  {
    if lines != [] {
      var init := lines[..|lines| - 1];
      FilteredMembers(init, keep, l);
      if exists k :: 0 <= k < |init| && init[k].mark == keep && l == init[k].(mark := false) {
        var k :| 0 <= k < |init| && init[k].mark == keep && l == init[k].(mark := false);
        assert lines[k] == init[k];
      }
      if exists k :: 0 <= k < |lines| && lines[k].mark == keep && l == lines[k].(mark := false) {
        var k :| 0 <= k < |lines| && lines[k].mark == keep && l == lines[k].(mark := false);
        if k < |init| {
          assert init[k] == lines[k];
        }
      }
    }
  }

  /** Every line of a grep view is unmarked. */
  lemma {:induction false} FilteredUnmarked(lines: seq<Line>, keep: bool)
    ensures forall k :: 0 <= k < |Filtered(lines, keep)| ==> !Filtered(lines, keep)[k].mark
    decreases |lines|
  {
    if lines != [] {
      FilteredUnmarked(lines[..|lines| - 1], keep);
    }
  }

  /** Filtering one more line of a prefix appends at most that line's copy. */
  lemma FilteredSnoc(lines: seq<Line>, keep: bool, i: nat)
    requires i < |lines|
    ensures Filtered(lines[..i + 1], keep) == Filtered(lines[..i], keep) + (if lines[i].mark == keep then [lines[i].(mark := false)] else [])
  {
    assert lines[..i + 1][..i] == lines[..i];
  }

  /** Filtering a prefix of the lines gives a prefix of the view. */
  lemma {:induction false} FilteredPrefix(lines: seq<Line>, keep: bool, n: nat)
    requires n <= |lines|
    ensures |Filtered(lines[..n], keep)| <= |Filtered(lines, keep)|
    ensures Filtered(lines, keep)[..|Filtered(lines[..n], keep)|] == Filtered(lines[..n], keep)
    decreases |lines|
  {
    if n < |lines| {
      var init := lines[..|lines| - 1];
      assert init[..n] == lines[..n];
      FilteredPrefix(init, keep, n);
    } else {
      assert lines[..n] == lines;
    }
  }

  /**
   * The view's position: the number of kept lines at or before `pos`, or 0
   * when `pos` is the tail.
   */
  function FilteredPos(lines: seq<Line>, keep: bool, pos: int): (p: nat)
    requires 0 <= pos <= |lines|
    ensures p <= |Filtered(lines, keep)|
  {
    if pos < |lines| then
      FilteredPrefix(lines, keep, pos + 1);
      |Filtered(lines[..pos + 1], keep)|
    else 0
  }

  /**
   * When the current line is kept, the view's position lands one past its
   * copy: on the line after it, or on the tail when it is the last kept one.
   */
  lemma CurrentLineLands(lines: seq<Line>, keep: bool, pos: int)
    requires 0 <= pos < |lines| && lines[pos].mark == keep
    ensures 0 < FilteredPos(lines, keep, pos)
    ensures Filtered(lines, keep)[FilteredPos(lines, keep, pos) - 1] == lines[pos].(mark := false)
  {
    FilteredSnoc(lines, keep, pos);
    FilteredPrefix(lines, keep, pos + 1);
    var pre := Filtered(lines[..pos + 1], keep);
    assert pre[|pre| - 1] == lines[pos].(mark := false);
    assert Filtered(lines, keep)[|pre| - 1] == pre[|pre| - 1];
  }

  /**
   * The `g`/`G` view of a buffer: `Range` walks the lines in order, copying
   * each kept one into a fresh buffer, and moves the new buffer's `Pos` to
   * its end when the walk passes the current line. The source buffer is not
   * changed.
   */
  method GrepView(src: Buffer, keep: bool) returns (b: Buffer)
    requires src.Valid()
    ensures fresh(b) && b.Valid()
    ensures b.lines == Filtered(src.lines, keep)
    ensures b.pos == FilteredPos(src.lines, keep, src.pos)
  {
    var lines, pos := src.lines, src.pos;
    b := new Buffer();
    var i := 0;
    while i < |lines|
      invariant 0 <= i <= |lines|
      invariant b.Valid()
      invariant b.lines == Filtered(lines[..i], keep)
      invariant b.pos == if pos < i then |Filtered(lines[..pos + 1], keep)| else 0
    {
      GrepStep(b, lines, keep, pos, i);
      i := i + 1;
    }
    assert lines[..i] == lines;
  }

  /** One call of the `g`/`G` visitor: copy line `i` if it is kept, and note the position when `i` is the current line. */
  method GrepStep(b: Buffer, lines: seq<Line>, keep: bool, pos: int, i: nat)
    requires i < |lines| && 0 <= pos <= |lines|
    requires b.Valid() && b.lines == Filtered(lines[..i], keep)
    requires b.pos == if pos < i then |Filtered(lines[..pos + 1], keep)| else 0
    modifies b
    ensures b.Valid() && b.lines == Filtered(lines[..i + 1], keep)
    ensures b.pos == if pos < i + 1 then |Filtered(lines[..pos + 1], keep)| else 0
  {
    var l := lines[i];
    FilteredSnoc(lines, keep, i);
    if l.mark == keep {
      b.AppendLine(l.(mark := false));
    }
    if i == pos {
      b.pos := |b.lines|;
    }
  }

  /** The text `C` copies: each marked line followed by a newline, in order. */
  function MarkedText(lines: seq<Line>): string
    decreases |lines|
  {
    if lines == [] then ""
    else
      var l := lines[|lines| - 1];
      MarkedText(lines[..|lines| - 1]) + (if l.mark then l.str + "\n" else "")
  }

  /** The lines of a list, each followed by a newline. */
  function Joined(ls: seq<Line>): (s: string)
    ensures s == "" <==> ls == []
    ensures s != "" ==> s[|s| - 1] == '\n'
    decreases |ls|
  {
    if ls == [] then "" else ls[0].str + "\n" + Joined(ls[1..])
  }

  lemma {:induction false} JoinedSnoc(ls: seq<Line>, l: Line)
    ensures Joined(ls + [l]) == Joined(ls) + l.str + "\n"
    decreases |ls|
  {
    if ls == [] {
      assert [l][1..] == [];
    } else {
      assert (ls + [l])[1..] == ls[1..] + [l];
      JoinedSnoc(ls[1..], l);
      calc {
        Joined(ls + [l]);
        ls[0].str + "\n" + Joined(ls[1..] + [l]);
        ls[0].str + "\n" + (Joined(ls[1..]) + l.str + "\n");
        (ls[0].str + "\n" + Joined(ls[1..])) + l.str + "\n";
      }
    }
  }

  /** `C` copies exactly the lines the `g` view would show, in the same order. */
  lemma {:induction false} CopyMatchesGrep(lines: seq<Line>)
    ensures MarkedText(lines) == Joined(Filtered(lines, true))
    decreases |lines|
  {
    if lines != [] {
      var l := lines[|lines| - 1];
      CopyMatchesGrep(lines[..|lines| - 1]);
      var init := Filtered(lines[..|lines| - 1], true);
      if l.mark {
        JoinedSnoc(init, l.(mark := false));
        assert Filtered(lines, true) == init + [l.(mark := false)];
        assert MarkedText(lines) == Joined(init) + (l.str + "\n");
      } else {
        assert Filtered(lines, true) == init + [];
        assert init + [] == init;
        assert MarkedText(lines) == MarkedText(lines[..|lines| - 1]) + "";
        assert MarkedText(lines[..|lines| - 1]) + "" == MarkedText(lines[..|lines| - 1]);
      }
    }
  }

  /** `C`: walk the buffer with `Range` and gather the marked lines' text. */
  method CopyMarked(src: Buffer) returns (text: string)
    ensures text == MarkedText(src.lines)
  {
    text := "";
    var i := 0;
    while i < |src.lines|
      invariant 0 <= i <= |src.lines|
      invariant text == MarkedText(src.lines[..i])
    {
      assert src.lines[..i + 1][..i] == src.lines[..i];
      if src.lines[i].mark {
        text := text + src.lines[i].str + "\n";
      }
      i := i + 1;
    }
    assert src.lines[..i] == src.lines;
  }
}
