/**
 * The query editor (util/input.go): a text split at the caret into `left`
 * and `right`, and a history of such texts with a current index.
 */
module Edit {
  import opened Wrappers

  /** `Chop`: split off the last character ("" when there is none). */
  function Chop(s: string): (r: (string, string))
    ensures r.0 + r.1 == s
    ensures |r.1| == if s == "" then 0 else 1
  {
    if s == "" then ("", "") else (s[..|s| - 1], [s[|s| - 1]])
  }

  /** `Shift`: split off the first character ("" when there is none). */
  function Shift(s: string): (r: (string, string))
    ensures r.0 + r.1 == s
    ensures |r.0| == if s == "" then 0 else 1
  {
    if s == "" then ("", "") else ([s[0]], s[1..])
  }

  class Input {
    var left: string
    var right: string

    /** `&Input{}` */
    constructor ()
      ensures left == "" && right == ""
    {
      left, right := "", "";
    }

    /** `String`: the whole text. */
    function String(): string
      reads this
    {
      left + right
    }

    /** `Details`: the text before and after the caret; together they are the whole text. */
    function Details(): (r: (string, string))
      reads this
      ensures r.0 + r.1 == String()
      ensures |r.0| == |left|
    {
      (left, right)
    }

    /** `Append`: type text at the caret. */
    method Append(s: string)
      modifies this
      ensures left == old(left) + s && right == old(right)
      ensures String() == old(left) + s + old(right)
    {
      left := left + s;
    }

    /** `Backspace`: delete the character before the caret, if any. */
    method Backspace()
      modifies this
      ensures right == old(right)
      ensures old(left) == "" ==> left == ""
      ensures old(left) != "" ==> left == old(left)[..|old(left)| - 1]
    {
      var (rest, _) := Chop(left);
      left := rest;
    }

    /** `Left`: move the caret one character left; the text does not change. */
    method Left()
      modifies this
      ensures String() == old(String())
      ensures old(left) == "" ==> left == "" && right == old(right)
      ensures old(left) != "" ==>
                left == old(left)[..|old(left)| - 1] && right == [old(left)[|old(left)| - 1]] + old(right)
    {
      var (rest, ch) := Chop(left);
      left := rest;
      right := ch + right;
    }

    /** `Right`: move the caret one character right; the text does not change. */
    method Right()
      modifies this
      ensures String() == old(String())
      ensures old(right) == "" ==> right == "" && left == old(left)
      ensures old(right) != "" ==> left == old(left) + [old(right)[0]] && right == old(right)[1..]
    {
      var (ch, rest) := Shift(right);
      right := rest;
      left := left + ch;
    }
  }

  class HistoryInput {
    var pos: int
    var history: seq<Input>

    /** `Last` on an empty history leaves `pos` at -1; otherwise `pos` names an entry. */
    ghost predicate Valid()
      reads this
    {
      if history == [] then pos == 0 || pos == -1 else 0 <= pos < |history|
    }

    /** `&HistoryInput{}` */
    constructor ()
      ensures Valid() && pos == 0 && history == []
    {
      pos, history := 0, [];
    }

    /** `Get`: the current entry; Go indexes the slice, so `pos` must name one. */
    function Get(): (i: Input)
      reads this
      requires 0 <= pos < |history|
      ensures i in history
    {
      history[pos]
    }

    /** `Last`: select the newest entry (`nil` when there is none). */
    method Last() returns (i: Option<Input>)
      requires Valid()
      modifies this`pos
      ensures Valid()
      ensures pos == |history| - 1
      ensures i == if history == [] then None else Some(history[pos])
    {
      pos := |history| - 1;
      if pos < 0 {
        return None;
      }
      return Some(history[pos]);
    }

    /**
     * `NewUnlessEmpty`: reuse the newest entry while it is still empty,
     * otherwise add a fresh empty one; either way it becomes current.
     */
    method NewUnlessEmpty() returns (i: Input)
      requires Valid()
      modifies this
      ensures Valid()
      ensures |history| > 0 && pos == |history| - 1 && i == history[pos]
      ensures i.String() == ""
      ensures old(history) != [] && old(history[|history| - 1].String()) == "" ==>
                history == old(history)
      ensures !(old(history) != [] && old(history[|history| - 1].String()) == "") ==>
                fresh(i) && history == old(history) + [i]
    {
      if |history| > 0 {
        var last := Last();
        if last.value.String() == "" {
          return last.value;
        }
      }
      i := new Input();
      history := history + [i];
      pos := |history| - 1;
    }

    /** `Up`: the previous entry, stopping at the oldest. */
    method Up() returns (i: Input)
      requires 0 <= pos < |history|
      modifies this`pos
      ensures Valid()
      ensures pos == if old(pos) > 0 then old(pos) - 1 else 0
      ensures i == history[pos]
    {
      if pos > 0 {
        pos := pos - 1;
      }
      return history[pos];
    }

    /** `Down`: the next entry, stopping at the newest. */
    method Down() returns (i: Input)
      requires 0 <= pos < |history|
      modifies this`pos
      ensures Valid()
      ensures pos == if old(pos) < |history| - 1 then old(pos) + 1 else |history| - 1
      ensures i == history[pos]
    {
      if pos < |history| - 1 {
        pos := pos + 1;
      }
      return history[pos];
    }
  }

  /** The editor scenario of util/input_test.go, replayed step by step. */
  method EditorScenario() {
    var h := new HistoryInput();
    var i := h.NewUnlessEmpty();
    i.Left();
    i.Right();
    i.Append("1");
    i.Left();
    i.Append("0");
    assert i.left == "0" && i.right == "1";
    assert i.String() == "01";
    i := h.Up();
    assert i.String() == "01";
    i := h.NewUnlessEmpty();
    assert i.String() == "";
    i := h.Up();
    assert i.String() == "01";
  }
}
