/**
 * The append-only line buffer with its cursor `pos` (tbuf/buffer.go,
 * tbuf/line.go `Append`/`AppendLine`) and the transient cursor that looks
 * around without moving `pos` (tbuf/cursor.go). The buffer's mutex is not
 * modelled: every operation runs to completion before the next one starts.
 */
module TBuf {
  import opened Wrappers
  import opened Lines
  import opened Steps

  /** A `Range` visitor: the line it leaves behind, and whether to go on. */
  type Visitor = (int, Line) -> (Line, bool)

  /** The lines after `Range(visit)` has walked them from index `i` on. */
  function Visit(lines: seq<Line>, visit: Visitor, i: int): (r: seq<Line>)
    requires 0 <= i <= |lines|
    ensures |r| == |lines|
    ensures r[..i] == lines[..i]
    decreases |lines| - i
  {
    if i == |lines| then lines
    else
      var (l, more) := visit(i, lines[i]);
      if more then Visit(lines[i := l], visit, i + 1) else lines[i := l]
  }

  /**
   * `Range` hands each line to the visitor in index order and stops right
   * after the first visit that answers false: every line up to that one is
   * replaced by what the visitor made of it, every later line is untouched.
   */
  lemma {:induction false} VisitStops(lines: seq<Line>, visit: Visitor, i: int, stop: int)
    requires 0 <= i <= stop <= |lines|
    requires forall k :: i <= k < stop ==> visit(k, lines[k]).1
    requires stop < |lines| ==> !visit(stop, lines[stop]).1
    ensures forall k :: i <= k <= stop && k < |lines| ==> Visit(lines, visit, i)[k] == visit(k, lines[k]).0
    ensures forall k :: stop < k < |lines| ==> Visit(lines, visit, i)[k] == lines[k]
    decreases |lines| - i
  {
    if i < |lines| {
      var (l, more) := visit(i, lines[i]);
      if more {
        var next := lines[i := l];
        assert forall k :: i < k < |lines| ==> next[k] == lines[k];
        VisitStops(next, visit, i + 1, stop);
        assert Visit(lines, visit, i) == Visit(next, visit, i + 1);
        assert Visit(next, visit, i + 1)[..i + 1] == next[..i + 1];
        assert Visit(next, visit, i + 1)[i] == l;
      }
    }
  }

  class Buffer {
    var lines: seq<Line>
    var pos: int
    /** Stands for `Last`, the time of the latest `Append`: it only has to change on every append. */
    var last: nat

    /** `pos` is a line, or the tail sentinel `|lines|`. */
    ghost predicate Valid()
      reads this
    {
      0 <= pos <= |lines|
    }

    /** `&Buffer{}` */
    constructor ()
      ensures Valid()
      ensures lines == [] && pos == 0 && last == 0
    {
      lines, pos, last := [], 0, 0;
    }

    predicate AtTail()
      reads this
    {
      pos == |lines|
    }

    /** `Append`: parse and add a line; stay pinned to the tail only if already there. */
    method Append(s: string, js: Json)
      requires Valid()
      modifies this
      ensures Valid()
      ensures |lines| == |old(lines)| + 1 && lines[..|old(lines)|] == old(lines)
      ensures Parsed(s, js, lines[|lines| - 1])
      ensures old(AtTail()) ==> AtTail()
      ensures !old(AtTail()) ==> pos == old(pos)
      ensures last > old(last)
    {
      if pos == |lines| {
        pos := pos + 1;
      }
      var l := ParseLine(s, js);
      lines := lines + [l];
      last := last + 1;
    }

    /** `AppendLine`: add a line as given; `pos` stays where it is. */
    method AppendLine(l: Line)
      requires Valid()
      modifies this`lines
      ensures Valid()
      ensures lines == old(lines) + [l]
    {
      lines := lines + [l];
    }

    /** `Get`: the current line, if `pos` names one. */
    method Get() returns (l: Line, ok: bool)
      ensures ok <==> 0 <= pos < |lines|
      ensures ok ==> l == lines[pos]
      ensures !ok ==> l == EmptyLine
    {
      if |lines| == 0 {
        return EmptyLine, false;
      }
      if pos >= |lines| {
        return EmptyLine, false;
      }
      if pos < 0 {
        return EmptyLine, false;
      }
      return lines[pos], true;
    }

    /** `Mark`: flip the mark of the current line; nothing else changes. */
    method Mark()
      modifies this`lines
      ensures 0 <= pos < |old(lines)| ==>
                lines == old(lines)[pos := old(lines)[pos].(mark := !old(lines)[pos].mark)]
      ensures !(0 <= pos < |old(lines)|) ==> lines == old(lines)
    {
      if |lines| == 0 {
        return;
      }
      if pos >= |lines| {
        return;
      }
      if pos < 0 {
        return;
      }
      lines := lines[pos := lines[pos].(mark := !lines[pos].mark)];
    }

    /**
     * `Down(f)`: scan forward from the line after `pos`. `evals` counts the
     * calls of `f`, whose side effects the screen relies on.
     */
    method Down(f: Pred) returns (l: Line, ok: bool, evals: nat)
      requires Valid()
      modifies this`pos
      ensures Valid()
      ensures Step(pos, l, ok, evals) == DownStep(lines, old(pos), f)
    {
      if pos >= |lines| || |lines| == 0 {   // already at the tail, or nothing to step over
        return EmptyLine, false, 0;
      }
      var p := pos;
      evals := 0;
      while true
        invariant old(pos) <= p < |lines|
        invariant ScanDown(lines, f, p + 1) == ScanDown(lines, f, old(pos) + 1)
        invariant evals == if f.None? then 0 else p - old(pos)
        decreases |lines| - p
      {
        p := p + 1;
        if p >= |lines| {
          pos := p;
          return lines[|lines| - 1], false, evals;
        }
        var accept := true;
        if f.Some? {
          accept := f.value(lines[p]);
          evals := evals + 1;
        }
        if accept {
          pos := p;
          return lines[p], true, evals;
        }
      }
    }

    /** `Up(f)`: scan backward from the line before `pos`; line 0 is reached by clamping. */
    method Up(f: Pred) returns (l: Line, ok: bool, evals: nat)
      requires Valid()
      modifies this`pos
      ensures Valid()
      ensures Step(pos, l, ok, evals) == UpStep(lines, old(pos), f)
    {
      if pos == 0 {
        return EmptyLine, false, 0;
      }
      var p := pos;
      evals := 0;
      while true
        invariant 0 < p <= old(pos)
        invariant ScanUp(lines, f, p - 1) == ScanUp(lines, f, old(pos) - 1)
        invariant evals == if f.None? then 0 else old(pos) - p
        decreases p
      {
        p := p - 1;
        if p <= 0 {
          pos := 0;
          return lines[0], true, evals;
        }
        var accept := true;
        if f.Some? {
          accept := f.value(lines[p]);
          evals := evals + 1;
        }
        if accept {
          pos := p;
          return lines[p], true, evals;
        }
      }
    }

    /** `Range(visit)`: walk the lines in order, letting the visitor rewrite each in place. */
    method Range(visit: Visitor)
      modifies this`lines
      ensures lines == Visit(old(lines), visit, 0)
    {
      var i := 0;
      while i < |lines|
        invariant 0 <= i <= |lines|
        invariant Visit(lines, visit, i) == Visit(old(lines), visit, 0)
      {
        var (l, more) := visit(i, lines[i]);
        lines := lines[i := l];
        if !more {
          return;
        }
        i := i + 1;
      }
    }

    /** `NewCursor`: a transient cursor starting at `pos`. */
    method NewCursor() returns (c: Cursor)
      requires Valid()
      ensures fresh(c)
      ensures c.buffer == this && c.cur == pos && c.Valid()
    {
      c := new Cursor(this);
    }
  }

  /**
   * A trial position over a buffer. It follows the buffer's stepping rules
   * but moves only `cur`; `Commit` writes it back to the buffer.
   */
  class Cursor {
    const buffer: Buffer
    var cur: int

    ghost predicate Valid()
      reads this, buffer
    {
      buffer.Valid() && 0 <= cur <= |buffer.lines|
    }

    constructor (b: Buffer)
      requires b.Valid()
      ensures buffer == b && cur == b.pos && Valid()
    {
      buffer := b;
      cur := b.pos;
    }

    /** `Cursor.Down(f)`: `Buffer.Down` on `cur`; the buffer is not touched. */
    method Down(f: Pred) returns (l: Line, ok: bool, evals: nat)
      requires Valid()
      modifies this`cur
      ensures Valid()
      ensures Step(cur, l, ok, evals) == DownStep(buffer.lines, old(cur), f)
    {
      var size := |buffer.lines|;
      if cur >= size || size == 0 {   // already at the tail, or nothing to step over
        return EmptyLine, false, 0;
      }
      var p := cur;
      evals := 0;
      while true
        invariant old(cur) <= p < size
        invariant ScanDown(buffer.lines, f, p + 1) == ScanDown(buffer.lines, f, old(cur) + 1)
        invariant evals == if f.None? then 0 else p - old(cur)
        decreases size - p
      {
        p := p + 1;
        if p >= size {
          cur := p;
          return buffer.lines[size - 1], false, evals;
        }
        var accept := true;
        if f.Some? {
          accept := f.value(buffer.lines[p]);
          evals := evals + 1;
        }
        if accept {
          cur := p;
          return buffer.lines[p], true, evals;
        }
      }
    }

    /** `Cursor.Up(f)`: `Buffer.Up` on `cur`; the buffer is not touched. */
    method Up(f: Pred) returns (l: Line, ok: bool, evals: nat)
      requires Valid()
      modifies this`cur
      ensures Valid()
      ensures Step(cur, l, ok, evals) == UpStep(buffer.lines, old(cur), f)
    {
      if cur == 0 {
        return EmptyLine, false, 0;
      }
      var p := cur;
      evals := 0;
      while true
        invariant 0 < p <= old(cur)
        invariant ScanUp(buffer.lines, f, p - 1) == ScanUp(buffer.lines, f, old(cur) - 1)
        invariant evals == if f.None? then 0 else old(cur) - p
        decreases p
      {
        p := p - 1;
        if p <= 0 {
          cur := 0;
          return buffer.lines[0], true, evals;
        }
        var accept := true;
        if f.Some? {
          accept := f.value(buffer.lines[p]);
          evals := evals + 1;
        }
        if accept {
          cur := p;
          return buffer.lines[p], true, evals;
        }
      }
    }

    /** `Commit`: move the buffer's `pos` to `cur`. */
    method Commit()
      requires Valid()
      modifies buffer`pos
      ensures Valid()
      ensures buffer.pos == cur
    {
      buffer.pos := cur;
    }
  }

  /** `t` occurs in `s` at index `i`. */
  predicate ContainsAt(s: string, t: string, i: int) {
    0 <= i && i + |t| <= |s| && s[i..i + |t|] == t
  }

  /** `strings.Contains`. */
  predicate Contains(s: string, t: string) {
    exists i :: 0 <= i <= |s| && ContainsAt(s, t, i)
  }

  /** A text cannot contain a word whose first letter it lacks. */
  lemma LacksFirst(s: string, t: string)
    requires |t| > 0 && t[0] !in s
    ensures !Contains(s, t)
  {
  }

  /**
   * The first half of the buffer test (tbuf/buffer_test.go): an empty
   * buffer does not move; a buffer on the tail follows it; `Down` does not
   * leave the tail and `Up` stops at line 0.
   */
  method TailScenario(js: Json) {
    var b := new Buffer();
    var _, _, _ := b.Down(None);
    var _, _, _ := b.Up(None);
    var _, _, _ := b.Down(None);
    var _, _, _ := b.Up(None);
    assert b.pos == 0;
    b.Append("one", js);
    assert b.pos == 1;
    var _, _, _ := b.Down(None);
    assert b.pos == 1;
    var _, _, _ := b.Up(None);
    assert b.pos == 0;
    var _, _, _ := b.Up(None);
    assert b.pos == 0;
    b.Append("two", js);
    assert b.pos == 0;
  }

  /** The scan predicate of the buffer test: lines whose text contains `w`. */
  function HasWord(w: string): Pred {
    Some((l: Line) => Contains(l.str, w))
  }

  /** The six lines of the buffer test, none of them JSON. */
  function FixtureLines(): seq<Line> {
    [Opaque("one"), Opaque("two"), Opaque("three foo"), Opaque("four foo"), Opaque("five bar"), Opaque("six")]
  }

  /** In the buffer test, `Down` by "foo" from line 0 skips "one" and "two" and stops on "three foo". */
  lemma FixtureDownFoo()
    ensures DownStep(FixtureLines(), 0, HasWord("foo")).pos == 2
  {
    assert ContainsAt("three foo", "foo", 6);
    LacksFirst("two", "foo");
    DownStopsAtFirst(FixtureLines(), 0, HasWord("foo"), 2);
  }

  /** From "three foo", `Down` by "foo" stops on the next line, "four foo". */
  lemma FixtureDownFooAgain()
    ensures DownStep(FixtureLines(), 2, HasWord("foo")).pos == 3
  {
    assert ContainsAt("four foo", "foo", 5);
    DownStopsAtFirst(FixtureLines(), 2, HasWord("foo"), 3);
  }

  /** From "four foo", `Down` by "bar" stops on "five bar". */
  lemma FixtureDownBar()
    ensures DownStep(FixtureLines(), 3, HasWord("bar")).pos == 4
  {
    assert ContainsAt("five bar", "bar", 5);
    DownStopsAtFirst(FixtureLines(), 3, HasWord("bar"), 4);
  }

  /** From "five bar", `Up` by "foo" stops on "four foo". */
  lemma FixtureUpFoo()
    ensures UpStep(FixtureLines(), 4, HasWord("foo")).pos == 3
  {
    assert ContainsAt("four foo", "foo", 5);
    UpStopsAtLast(FixtureLines(), 4, HasWord("foo"), 3);
  }

  /** From "four foo", `Up` by "none" finds nothing and falls back to line 0. */
  lemma FixtureUpNone()
    ensures UpStep(FixtureLines(), 3, HasWord("none")).pos == 0
  {
    LacksFirst("two", "none");
    LacksFirst("three foo", "none");
    UpFallsBack(FixtureLines(), 3, HasWord("none"));
  }

  /** `Append` of a line that cannot be a JSON object: it is kept as text, and a buffer off the tail keeps its position. */
  method AppendText(b: Buffer, s: string, js: Json)
    requires b.Valid() && |s| > 0 && s[0] != '{'
    modifies b
    ensures b.Valid() && b.lines == old(b.lines) + [Opaque(s)]
    ensures old(b.pos) < |old(b.lines)| ==> b.pos == old(b.pos)
  {
    b.Append(s, js);
    assert b.lines == b.lines[..|old(b.lines)|] + [b.lines[|b.lines| - 1]];
  }

  /** The six lines of the buffer test, appended while the buffer stands on line 0. */
  method Fixture(js: Json) returns (b: Buffer)
    ensures fresh(b) && b.Valid() && b.pos == 0
    ensures b.lines == [Opaque("one"), Opaque("two"), Opaque("three foo"), Opaque("four foo"), Opaque("five bar"), Opaque("six")]
  {
    b := new Buffer();
    AppendText(b, "one", js);
    var _, _, _ := b.Up(None);
    assert b.pos == 0;
    AppendText(b, "two", js);
    AppendText(b, "three foo", js);
    AppendText(b, "four foo", js);
    AppendText(b, "five bar", js);
    AppendText(b, "six", js);
  }

  /**
   * The second half of the buffer test: scans stop on the first matching
   * line below, and above fall back to line 0 when nothing matches.
   */
  method ScanScenario(js: Json) {
    var b := Fixture(js);
    assert b.lines == FixtureLines();
    FixtureDownFoo();
    FixtureDownFooAgain();
    FixtureDownBar();
    FixtureUpFoo();
    FixtureUpNone();
    var _, _, _ := b.Down(HasWord("foo"));
    assert b.pos == 2;
    var _, _, _ := b.Down(HasWord("foo"));
    assert b.pos == 3;
    var _, _, _ := b.Down(HasWord("bar"));
    assert b.pos == 4;
    var _, _, _ := b.Up(HasWord("foo"));
    assert b.pos == 3;
    var _, _, _ := b.Up(HasWord("none"));
    assert b.pos == 0;
  }
}
