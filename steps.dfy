/**
 * What one `Up` or `Down` call does to a position over a sequence of lines
 * (tbuf/buffer.go, tbuf/cursor.go). `Buffer` and `Cursor` both implement
 * these rules; here they are stated once, as functions, with their
 * consequences proved as lemmas.
 *
 * Positions run over `[0, |lines|]`; `|lines|` is the tail sentinel.
 */
module Steps {
  import opened Wrappers
  import opened Lines

  /** A scan predicate; `None` is Go's `nil`, which accepts every line. */
  type Pred = Option<Line -> bool>

  predicate Accepts(f: Pred, l: Line) {
    f.None? || f.value(l)
  }

  /** The first index from `p` on whose line `f` accepts, or `|lines|` when there is none. */
  function ScanDown(lines: seq<Line>, f: Pred, p: int): (r: int)
    requires 0 <= p <= |lines|
    ensures p <= r <= |lines|
    ensures forall k :: p <= k < r ==> !Accepts(f, lines[k])
    ensures r < |lines| ==> Accepts(f, lines[r])
    decreases |lines| - p
  {
    if p == |lines| then p
    else if Accepts(f, lines[p]) then p
    else ScanDown(lines, f, p + 1)
  }

  /**
   * The last index at or below `p`, but above 0, whose line `f` accepts;
   * 0 when there is none. Line 0 itself is never tested.
   */
  function ScanUp(lines: seq<Line>, f: Pred, p: int): (r: int)
    requires p < |lines|
    ensures 0 <= r && (p > 0 ==> r <= p) && (p <= 0 ==> r == 0)
    ensures forall k :: r < k <= p ==> !Accepts(f, lines[k])
    ensures r > 0 ==> Accepts(f, lines[r])
    decreases p
  {
    if p <= 0 then 0
    else if Accepts(f, lines[p]) then p
    else ScanUp(lines, f, p - 1)
  }

  /** The outcome of one step: new position, returned line, success flag, and how often `f` ran. */
  datatype Step = Step(pos: int, line: Line, ok: bool, evals: nat)

  /** `Down(f)` from `pos`. */
  function DownStep(lines: seq<Line>, pos: int, f: Pred): (s: Step)
    requires 0 <= pos <= |lines|
    // at the tail, or on an empty buffer: nothing moves
    ensures pos == |lines| ==> s == Step(pos, EmptyLine, false, 0)
    // otherwise the scan starts after `pos` and skips only refused lines
    ensures pos < |lines| ==> pos < s.pos <= |lines|
    ensures forall k :: pos < k < s.pos && k < |lines| ==> !Accepts(f, lines[k])
    // it stops on an accepted line, or runs into the tail and reports failure
    ensures pos < |lines| ==> (s.ok <==> s.pos < |lines|)
    ensures s.ok ==> Accepts(f, lines[s.pos]) && s.line == lines[s.pos]
    ensures pos < |lines| && !s.ok ==> s.line == lines[|lines| - 1]
    // `f` ran once for every line it was shown
    ensures s.evals == if f.None? || pos == |lines| then 0
                       else if s.ok then s.pos - pos else |lines| - 1 - pos
  {
    if pos >= |lines| || |lines| == 0 then Step(pos, EmptyLine, false, 0)
    else
      var q := ScanDown(lines, f, pos + 1);
      var n := if f.None? then 0 else if q < |lines| then q - pos else |lines| - 1 - pos;
      if q >= |lines| then Step(q, lines[|lines| - 1], false, n)
      else Step(q, lines[q], true, n)
  }

  /** `Up(f)` from `pos`. */
  function UpStep(lines: seq<Line>, pos: int, f: Pred): (s: Step)
    requires 0 <= pos <= |lines|
    // at line 0: nothing moves
    ensures pos == 0 ==> s == Step(0, EmptyLine, false, 0)
    // otherwise it always succeeds, on an accepted line above 0 or by clamping to 0
    ensures pos > 0 ==> s.ok && 0 <= s.pos < pos && s.line == lines[s.pos]
    ensures s.pos > 0 ==> Accepts(f, lines[s.pos])
    ensures forall k :: s.pos < k < pos ==> !Accepts(f, lines[k])
    ensures s.evals == if f.None? || pos == 0 then 0
                       else if s.pos > 0 then pos - s.pos else pos - 1
  {
    if pos == 0 then Step(0, EmptyLine, false, 0)
    else
      var q := ScanUp(lines, f, pos - 1);
      var n := if f.None? then 0 else if q > 0 then pos - q else pos - 1;
      Step(q, lines[q], true, n)
  }

  /** `Down(f)` lands on the first accepted line below `pos`. */
  lemma DownStopsAtFirst(lines: seq<Line>, pos: int, f: Pred, q: int)
    requires 0 <= pos < q < |lines|
    requires Accepts(f, lines[q]) && forall k :: pos < k < q ==> !Accepts(f, lines[k])
    ensures DownStep(lines, pos, f).pos == q && DownStep(lines, pos, f).ok
  {
  }

  /** `Up(f)` lands on the last accepted line above `pos`, line 0 aside. */
  lemma UpStopsAtLast(lines: seq<Line>, pos: int, f: Pred, q: int)
    requires 0 < q < pos <= |lines|
    requires Accepts(f, lines[q]) && forall k :: q < k < pos ==> !Accepts(f, lines[k])
    ensures UpStep(lines, pos, f).pos == q && UpStep(lines, pos, f).ok
  {
  }

  /** With no accepted line between 0 and `pos`, `Up(f)` falls back to line 0 and succeeds. */
  lemma UpFallsBack(lines: seq<Line>, pos: int, f: Pred)
    requires 0 < pos <= |lines|
    requires forall k :: 0 < k < pos ==> !Accepts(f, lines[k])
    ensures UpStep(lines, pos, f).pos == 0 && UpStep(lines, pos, f).ok
  {
  }

  /** Without a predicate, `Down` moves exactly one line, into the tail at the last line. */
  lemma DownNil(lines: seq<Line>, pos: int)
    requires 0 <= pos <= |lines|
    ensures DownStep(lines, pos, None).pos == if pos < |lines| then pos + 1 else pos
    ensures DownStep(lines, pos, None).ok <==> pos + 1 < |lines|
  {
  }

  /** Without a predicate, `Up` moves exactly one line and stops at 0. */
  lemma UpNil(lines: seq<Line>, pos: int)
    requires 0 <= pos <= |lines|
    ensures UpStep(lines, pos, None).pos == if pos > 0 then pos - 1 else 0
    ensures UpStep(lines, pos, None).ok <==> pos > 0
  {
  }

  /** The success flags of `n` successive `Down(nil)` calls from `pos`. */
  function DownRun(lines: seq<Line>, pos: int, n: nat): seq<bool>
    requires 0 <= pos <= |lines|
    decreases n
  {
    if n == 0 then []
    else
      var s := DownStep(lines, pos, None);
      [s.ok] + DownRun(lines, s.pos, n - 1)
  }

  /** The success flags of `n` successive `Up(nil)` calls from `pos`. */
  function UpRun(lines: seq<Line>, pos: int, n: nat): seq<bool>
    requires 0 <= pos <= |lines|
    decreases n
  {
    if n == 0 then []
    else
      var s := UpStep(lines, pos, None);
      [s.ok] + UpRun(lines, s.pos, n - 1)
  }

  /** From `c`, `Down(nil)` succeeds exactly `|lines| - 1 - c` times and fails from then on. */
  lemma {:induction false} DownRunCount(lines: seq<Line>, c: int, n: nat)
    requires 0 <= c <= |lines|
    ensures |DownRun(lines, c, n)| == n
    ensures forall i :: 0 <= i < n ==> (DownRun(lines, c, n)[i] <==> c + i + 1 < |lines|)
    decreases n
  {
    if n > 0 {
      DownNil(lines, c);
      var s := DownStep(lines, c, None);
      DownRunCount(lines, s.pos, n - 1);
      var rest := DownRun(lines, s.pos, n - 1);
      assert DownRun(lines, c, n) == [s.ok] + rest;
      forall i | 1 <= i < n
        ensures DownRun(lines, c, n)[i] <==> c + i + 1 < |lines|
      {
        assert DownRun(lines, c, n)[i] == rest[i - 1];
      }
    }
  }

  /** From `c`, `Up(nil)` succeeds exactly `c` times (the last one lands on 0) and then fails. */
  lemma {:induction false} UpRunCount(lines: seq<Line>, c: int, n: nat)
    requires 0 <= c <= |lines|
    ensures |UpRun(lines, c, n)| == n
    ensures forall i :: 0 <= i < n ==> (UpRun(lines, c, n)[i] <==> i < c)
    decreases n
  {
    if n > 0 {
      UpNil(lines, c);
      var s := UpStep(lines, c, None);
      UpRunCount(lines, s.pos, n - 1);
      var rest := UpRun(lines, s.pos, n - 1);
      assert UpRun(lines, c, n) == [s.ok] + rest;
      forall i | 1 <= i < n
        ensures UpRun(lines, c, n)[i] <==> i < c
      {
        assert UpRun(lines, c, n)[i] == rest[i - 1];
      }
    }
  }

  /** The position after `n` successive `Down(nil)` calls. */
  function DownNilTimes(lines: seq<Line>, pos: int, n: nat): (r: int)
    requires 0 <= pos <= |lines|
    ensures 0 <= r <= |lines|
    decreases n
  {
    if n == 0 then pos else DownNilTimes(lines, DownStep(lines, pos, None).pos, n - 1)
  }

  /** The position after `n` successive `Up(nil)` calls. */
  function UpNilTimes(lines: seq<Line>, pos: int, n: nat): (r: int)
    requires 0 <= pos <= |lines|
    ensures 0 <= r <= |lines|
    decreases n
  {
    if n == 0 then pos else UpNilTimes(lines, UpStep(lines, pos, None).pos, n - 1)
  }

  /** `n` steps down move `n` lines, stopping at the tail. */
  lemma {:induction false} DownNilTimesValue(lines: seq<Line>, pos: int, n: nat)
    requires 0 <= pos <= |lines|
    ensures DownNilTimes(lines, pos, n) == if pos + n <= |lines| then pos + n else |lines|
    decreases n
  {
    if n > 0 {
      DownNil(lines, pos);
      DownNilTimesValue(lines, DownStep(lines, pos, None).pos, n - 1);
    }
  }

  /** `n` steps up move `n` lines, stopping at 0. */
  lemma {:induction false} UpNilTimesValue(lines: seq<Line>, pos: int, n: nat)
    requires 0 <= pos <= |lines|
    ensures UpNilTimes(lines, pos, n) == if pos >= n then pos - n else 0
    decreases n
  {
    if n > 0 {
      UpNil(lines, pos);
      UpNilTimesValue(lines, UpStep(lines, pos, None).pos, n - 1);
    }
  }
}
