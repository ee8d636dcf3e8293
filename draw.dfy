/**
 * The text-run cursor of the screen (screen/cursor.go): a position and a
 * style that drawing calls thread through, writing characters into the
 * terminal's cell grid. Colours are tcell palette indices.
 */
module Draw {
  import opened Wrappers
  import opened Lines
  import opened Regex

  const ColorDefault := -1
  const ColorBlack := 0
  const ColorRed := 9
  const ColorYellow := 11
  const ColorWhite := 15
  const Color52 := 52     // background of a marked line
  const Color66 := 66     // debug
  const Color87 := 87     // user-pattern highlight
  const Color116 := 116   // info
  const Color173 := 173   // keyword highlight
  const Color220 := 220   // tab and newline glyphs
  const Color234 := 234   // background of a fresh cursor
  const Color246 := 246   // timestamp

  datatype Style = Style(fg: int, bg: int, bold: bool, dim: bool, reverse: bool)

  datatype Cell = Cell(ch: char, style: Style)

  /** The drawing cursor: where the next character goes, how it looks, what it highlights. */
  datatype Cur = Cur(x: int, y: int, style: Style, pattern: Option<Pattern>)

  /** `NewCursor(x, y)`: white on colour 234, highlighting the screen's pattern. */
  function NewCur(x: int, y: int, pattern: Option<Pattern>): (c: Cur)
    ensures c.x == x && c.y == y && c.pattern == pattern
    ensures c.style == Style(ColorWhite, Color234, false, false, false)
  {
    Cur(x, y, Style(ColorWhite, Color234, false, false, false), pattern)
  }

  /** A palette colour's red, green and blue parts (tcell's `Color.RGB`). */
  type Rgb = int -> (int, int, int)

  /** The terminal's cell grid. Writes outside the screen are dropped, as tcell drops them. */
  class Grid {
    const width: int
    const height: int
    var cells: map<(int, int), Cell>

    constructor (w: int, h: int)
      ensures width == w && height == h && cells == map[]
    {
      width, height, cells := w, h, map[];
    }

    /** `SetContent` */
    method SetContent(x: int, y: int, ch: char, st: Style)
      modifies this
      ensures cells == Put(width, height, old(cells), x, y, Cell(ch, st))
    {
      cells := Put(width, height, cells, x, y, Cell(ch, st));
    }
  }

  function Put(w: int, h: int, cells: map<(int, int), Cell>, x: int, y: int, c: Cell): map<(int, int), Cell> {
    if 0 <= x < w && 0 <= y < h then cells[(x, y) := c] else cells
  }

  /** The grid after writing `cs` left to right from `(x, y)`. */
  function Paint(w: int, h: int, cells: map<(int, int), Cell>, x: int, y: int, cs: seq<Cell>): map<(int, int), Cell>
    decreases |cs|
  {
    if cs == [] then cells else Paint(w, h, Put(w, h, cells, x, y, cs[0]), x + 1, y, cs[1..])
  }

  lemma {:induction false} PaintAppend(w: int, h: int, cells: map<(int, int), Cell>, x: int, y: int, a: seq<Cell>, b: seq<Cell>)
    ensures Paint(w, h, cells, x, y, a + b) == Paint(w, h, Paint(w, h, cells, x, y, a), x + |a|, y, b)
    decreases |a|
  {
    if a == [] {
      assert a + b == b;
    } else {
      assert (a + b)[1..] == a[1..] + b;
      PaintAppend(w, h, Put(w, h, cells, x, y, a[0]), x + 1, y, a[1..], b);
    }
  }

  /** Writing a run leaves every cell outside the run's span as it was. */
  lemma {:induction false} PaintFrame(w: int, h: int, cells: map<(int, int), Cell>, x: int, y: int, cs: seq<Cell>, q: (int, int))
    requires q.1 != y || q.0 < x || q.0 >= x + |cs|
    ensures q in Paint(w, h, cells, x, y, cs) <==> q in cells
    ensures q in cells ==> Paint(w, h, cells, x, y, cs)[q] == cells[q]
    decreases |cs|
  {
    if cs != [] {
      PaintFrame(w, h, Put(w, h, cells, x, y, cs[0]), x + 1, y, cs[1..], q);
    }
  }

  /** Writing a run puts its k-th cell at `(x + k, y)` whenever that is on screen. */
  lemma {:induction false} PaintHit(w: int, h: int, cells: map<(int, int), Cell>, x: int, y: int, cs: seq<Cell>, k: int)
    requires 0 <= k < |cs| && 0 <= x + k < w && 0 <= y < h
    ensures (x + k, y) in Paint(w, h, cells, x, y, cs)
    ensures Paint(w, h, cells, x, y, cs)[(x + k, y)] == cs[k]
    decreases |cs|
  {
    var next := Put(w, h, cells, x, y, cs[0]);
    if k == 0 {
      PaintFrame(w, h, next, x + 1, y, cs[1..], (x, y));
    } else {
      PaintHit(w, h, next, x + 1, y, cs[1..], k - 1);
      assert (x + 1) + (k - 1) == x + k;
    }
  }

  /** Characters that `print` may dim. */
  predicate Punct(ch: char) {
    ch in "\"'({}),:[]/"
  }

  /** The character drawn for `ch`: tab and newline get visible stand-ins. */
  function Glyph(ch: char): char {
    if ch == '\t' then '⇥' else if ch == '\n' then '␍' else ch
  }

  /** The style `ch` is drawn in: punctuation dimmed on request, stand-ins bold in colour 220. */
  function GlyphStyle(ch: char, st: Style, dim: bool): Style {
    if Punct(ch) then st.(dim := dim)
    else if ch == '\t' || ch == '\n' then st.(bold := true, fg := Color220)
    else st
  }

  /** The cells `print(s, dim)` writes. */
  function EmitCells(s: string, st: Style, dim: bool): (cs: seq<Cell>)
    ensures |cs| == |s|
    ensures forall k :: 0 <= k < |s| ==> cs[k] == Cell(Glyph(s[k]), GlyphStyle(s[k], st, dim))
  {
    seq(|s|, k requires 0 <= k < |s| => Cell(Glyph(s[k]), GlyphStyle(s[k], st, dim)))
  }

  /**
   * `print(s, dim)`: one cell per character, left to right. The cursor
   * moves right by the length of `s`; its row and style stay.
   */
  method Emit(g: Grid, c: Cur, s: string, dim: bool) returns (r: Cur)
    modifies g
    ensures r == c.(x := c.x + |s|)
    ensures g.cells == Paint(g.width, g.height, old(g.cells), c.x, c.y, EmitCells(s, c.style, dim))
  {
    r := c;
    var i := 0;
    while i < |s|
      invariant 0 <= i <= |s|
      invariant r == c.(x := c.x + i)
      invariant g.cells == Paint(g.width, g.height, old(g.cells), c.x, c.y, EmitCells(s[..i], c.style, dim))
    {
      var ch := s[i];
      if Punct(ch) {
        g.SetContent(r.x, r.y, ch, r.style.(dim := dim));
      } else if ch == '\t' {
        g.SetContent(r.x, r.y, '⇥', r.style.(bold := true, fg := Color220));
      } else if ch == '\n' {
        g.SetContent(r.x, r.y, '␍', r.style.(bold := true, fg := Color220));
      } else {
        g.SetContent(r.x, r.y, ch, r.style);
      }
      PaintAppend(g.width, g.height, old(g.cells), c.x, c.y, EmitCells(s[..i], c.style, dim), [Cell(Glyph(ch), GlyphStyle(ch, c.style, dim))]);
      assert EmitCells(s[..i + 1], c.style, dim) == EmitCells(s[..i], c.style, dim) + [Cell(Glyph(ch), GlyphStyle(ch, c.style, dim))];
      r := r.(x := r.x + 1);
      i := i + 1;
    }
    assert s[..i] == s;
  }

  /** `Print(s)` */
  method EmitPlain(g: Grid, c: Cur, s: string) returns (r: Cur)
    modifies g
    ensures r == c.(x := c.x + |s|)
    ensures g.cells == Paint(g.width, g.height, old(g.cells), c.x, c.y, EmitCells(s, c.style, false))
  {
    r := Emit(g, c, s, false);
  }

  /** The cells `Fill` writes from column `x` to the right edge. */
  function FillCells(w: int, x: int, ch: char, st: Style): (cs: seq<Cell>)
    ensures |cs| == if x < w then w - x else 0
    ensures forall k :: 0 <= k < |cs| ==> cs[k] == Cell(ch, st)
  {
    seq(if x < w then w - x else 0, _ => Cell(ch, st))
  }

  /** `Fill(ch)`: paint to the right edge of the screen, then go to the start of the next row. */
  method Fill(g: Grid, c: Cur, ch: char) returns (r: Cur)
    modifies g
    ensures r == c.(x := 0, y := c.y + 1)
    ensures g.cells == Paint(g.width, g.height, old(g.cells), c.x, c.y, FillCells(g.width, c.x, ch, c.style))
  {
    r := c;
    while r.x < g.width
      invariant c.x <= r.x || g.width <= c.x
      invariant r == c.(x := r.x)
      invariant r.x == c.x || r.x <= g.width
      invariant g.cells == Paint(g.width, g.height, old(g.cells), c.x, c.y, FillCells(r.x, c.x, ch, c.style))
      decreases g.width - r.x
    {
      g.SetContent(r.x, r.y, ch, r.style);
      PaintAppend(g.width, g.height, old(g.cells), c.x, c.y, FillCells(r.x, c.x, ch, c.style), [Cell(ch, c.style)]);
      assert FillCells(r.x + 1, c.x, ch, c.style) == FillCells(r.x, c.x, ch, c.style) + [Cell(ch, c.style)];
      r := r.(x := r.x + 1);
    }
    assert FillCells(r.x, c.x, ch, c.style) == FillCells(g.width, c.x, ch, c.style);
    r := r.(x := 0, y := r.y + 1);
  }

  /** `Clear`: `Fill` with blanks. */
  method Clear(g: Grid, c: Cur) returns (r: Cur)
    modifies g
    ensures r == c.(x := 0, y := c.y + 1)
    ensures g.cells == Paint(g.width, g.height, old(g.cells), c.x, c.y, FillCells(g.width, c.x, ' ', c.style))
  {
    r := Fill(g, c, ' ');
  }

  /** `CR(x)`: carriage return to column `x` of the next row. */
  function CR(c: Cur, x: int): (r: Cur)
    ensures r.x == x && r.y == c.y + 1
    ensures r.style == c.style && r.pattern == c.pattern
  {
    c.(x := x, y := c.y + 1)
  }

  function Fg(c: Cur, col: int): Cur {
    c.(style := c.style.(fg := col))
  }

  function Bg(c: Cur, col: int): Cur {
    c.(style := c.style.(bg := col))
  }

  function Col(c: Cur, fg: int, bg: int): Cur {
    c.(style := c.style.(fg := fg, bg := bg))
  }

  function Reverse(c: Cur, on: bool): Cur {
    c.(style := c.style.(reverse := on))
  }

  /** `cs` draws `s`: one cell per character, showing that character's glyph. */
  ghost predicate Shows(cs: seq<Cell>, s: string) {
    |cs| == |s| && forall k :: 0 <= k < |s| ==> cs[k].ch == Glyph(s[k])
  }

  /**
   * The drawing function `printHL` hands each piece of text to: `DimPunct`
   * is `print(s, true)`; `Keywords` first picks out the built-in keywords
   * in colour 173 and hands every piece on to `DimPunct`.
   */
  datatype Layer = DimPunct | Keywords

  function Rank(layer: Layer): nat {
    if layer.DimPunct? then 0 else 2
  }

  /**
   * The cells `printHL(s, p, st, layer)` writes from a cursor in style
   * `base`: the text before each match in `base`, the match in `st`, both
   * drawn through `layer`, then the search goes on after the match. The
   * search ends at the first empty match at the start of what is left,
   * which the source would repeat forever (see `HLAfterAsWritten`).
   */
  function HLCells(find: Finder, p: Pattern, s: string, st: Style, base: Style, layer: Layer): (cs: seq<Cell>)
    ensures |cs| == |s|
    decreases Rank(layer) + 1, |s|
  {
    match find(p, s)
    case None => LayerCells(find, s, base, layer)
    case Some((a, b)) =>
      if b == 0 then LayerCells(find, s, base, layer)
      else
        assert s == s[..a] + s[a..b] + s[b..];
        LayerCells(find, s[..a], base, layer) + LayerCells(find, s[a..b], st, layer) + HLCells(find, p, s[b..], st, base, layer)
  }

  /** Cells showing the three parts of a text, one after the other, show the text. */
  lemma ShowsSplit(x: seq<Cell>, y: seq<Cell>, z: seq<Cell>, s: string, a: nat, b: nat)
    requires a <= b <= |s|
    requires Shows(x, s[..a]) && Shows(y, s[a..b]) && Shows(z, s[b..])
    ensures Shows(x + y + z, s)
  {
    forall k | 0 <= k < |s|
      ensures (x + y + z)[k].ch == Glyph(s[k])
    {
      if k < a {
        assert (x + y + z)[k] == x[k] && s[..a][k] == s[k];
      } else if k < b {
        assert (x + y + z)[k] == y[k - a] && s[a..b][k - a] == s[k];
      } else {
        assert (x + y + z)[k] == z[k - b] && s[b..][k - b] == s[k];
      }
    }
  }

  /** Whatever the highlighting, `printHL` shows every character of the text, in order. */
  lemma {:induction false} HLShows(find: Finder, p: Pattern, s: string, st: Style, base: Style, layer: Layer)
    ensures Shows(HLCells(find, p, s, st, base, layer), s)
    decreases Rank(layer) + 1, |s|
  {
    match find(p, s)
    case None => LayerShows(find, s, base, layer);
    case Some((a, b)) =>
      if b == 0 {
        LayerShows(find, s, base, layer);
      } else {
        HLCellsSplit(find, p, s, st, base, layer, a, b);
        LayerShows(find, s[..a], base, layer);
        LayerShows(find, s[a..b], st, layer);
        HLShows(find, p, s[b..], st, base, layer);
        ShowsSplit(LayerCells(find, s[..a], base, layer), LayerCells(find, s[a..b], st, layer),
                   HLCells(find, p, s[b..], st, base, layer), s, a, b);
      }
  }

  lemma {:induction false} LayerShows(find: Finder, s: string, style: Style, layer: Layer)
    ensures Shows(LayerCells(find, s, style, layer), s)
    decreases Rank(layer), |s|
  {
    match layer
    case DimPunct =>
    case Keywords => HLShows(find, KeywordPattern, s, style.(fg := Color173), style, DimPunct);
  }

  /** One pass of `printHL`: a non-empty match splits the text in three. */
  lemma HLCellsSplit(find: Finder, p: Pattern, s: string, st: Style, base: Style, layer: Layer, a: nat, b: nat)
    requires find(p, s) == Some((a, b)) && b > 0
    ensures a <= b <= |s|
    ensures HLCells(find, p, s, st, base, layer) ==
              LayerCells(find, s[..a], base, layer) + LayerCells(find, s[a..b], st, layer) + HLCells(find, p, s[b..], st, base, layer)
  {
    assert SpanIn(find(p, s), s);
  }

  /** The last pass of `printHL`: no match, or an empty one at the start, leaves the text to `layer`. */
  lemma HLCellsStop(find: Finder, p: Pattern, s: string, st: Style, base: Style, layer: Layer)
    requires find(p, s).None? || find(p, s).value.1 == 0
    ensures HLCells(find, p, s, st, base, layer) == LayerCells(find, s, base, layer)
  {
  }

  /** The cells `layer` writes for `s` from a cursor in `style`. */
  function LayerCells(find: Finder, s: string, style: Style, layer: Layer): (cs: seq<Cell>)
    ensures |cs| == |s|
    decreases Rank(layer), |s|
  {
    match layer
    case DimPunct => EmitCells(s, style, true)
    case Keywords => HLCells(find, KeywordPattern, s, style.(fg := Color173), style, DimPunct)
  }

  /**
   * The cells `PrintHL(s)` writes from a cursor in `style`: without a user
   * pattern only the keywords stand out (colour 173); with one, its matches
   * are bold in colour 87, and keywords are picked out both inside and
   * outside them.
   */
  function PrintHLCells(find: Finder, pattern: Option<Pattern>, s: string, style: Style): (cs: seq<Cell>)
    ensures |cs| == |s|
  {
    match pattern
    case None => HLCells(find, KeywordPattern, s, style.(fg := Color173), style, DimPunct)
    case Some(p) => HLCells(find, p, s, style.(fg := Color87, bold := true), style, Keywords)
  }

  /**
   * One layer of highlighting over plain printing: up to the first
   * non-empty match the text is drawn in the cursor's style, the match
   * itself in `st`; with no usable match the whole text is drawn plainly.
   */
  lemma HLFirstMatch(find: Finder, p: Pattern, s: string, st: Style, base: Style)
    ensures var cs := HLCells(find, p, s, st, base, DimPunct);
            match find(p, s)
            case None => cs == EmitCells(s, base, true)
            case Some((a, b)) =>
              if b == 0 then cs == EmitCells(s, base, true)
              else
                (forall k :: 0 <= k < a ==> cs[k].style == GlyphStyle(s[k], base, true)) &&
                (forall k :: a <= k < b ==> cs[k].style == GlyphStyle(s[k], st, true))
  {
    match find(p, s)
    case None =>
    case Some((a, b)) =>
      if b > 0 {
        HLCellsSplit(find, p, s, st, base, DimPunct, a, b);
        var cs := HLCells(find, p, s, st, base, DimPunct);
        var pre := EmitCells(s[..a], base, true);
        var hit := EmitCells(s[a..b], st, true);
        var rest := HLCells(find, p, s[b..], st, base, DimPunct);
        assert cs == pre + hit + rest;
        forall k | 0 <= k < a
          ensures cs[k].style == GlyphStyle(s[k], base, true)
        {
          assert cs[k] == pre[k];
          assert s[..a][k] == s[k];
        }
        forall k | a <= k < b
          ensures cs[k].style == GlyphStyle(s[k], st, true)
        {
          assert cs[k] == hit[k - a];
          assert s[a..b][k - a] == s[k];
        }
      }
  }

  /** No drawing layer touches the background: every cell keeps the cursor's. */
  ghost predicate OnBackground(cs: seq<Cell>, bg: int) {
    forall k :: 0 <= k < |cs| ==> cs[k].style.bg == bg
  }

  lemma {:induction false} HLKeepsBackground(find: Finder, p: Pattern, s: string, st: Style, base: Style, layer: Layer)
    requires st.bg == base.bg
    ensures OnBackground(HLCells(find, p, s, st, base, layer), base.bg)
    decreases Rank(layer) + 1, |s|
  {
    match find(p, s)
    case None => LayerKeepsBackground(find, s, base, layer);
    case Some((a, b)) =>
      if b == 0 {
        LayerKeepsBackground(find, s, base, layer);
      } else {
        LayerKeepsBackground(find, s[..a], base, layer);
        LayerKeepsBackground(find, s[a..b], st, layer);
        HLKeepsBackground(find, p, s[b..], st, base, layer);
      }
  }

  lemma {:induction false} LayerKeepsBackground(find: Finder, s: string, style: Style, layer: Layer)
    ensures OnBackground(LayerCells(find, s, style, layer), style.bg)
    decreases Rank(layer), |s|
  {
    match layer
    case DimPunct =>
    case Keywords => HLKeepsBackground(find, KeywordPattern, s, style.(fg := Color173), style, DimPunct);
  }

  /** `PrintHL` draws on the cursor's background. */
  lemma PrintHLKeepsBackground(find: Finder, pattern: Option<Pattern>, s: string, style: Style)
    ensures OnBackground(PrintHLCells(find, pattern, s, style), style.bg)
  {
    match pattern
    case None => HLKeepsBackground(find, KeywordPattern, s, style.(fg := Color173), style, DimPunct);
    case Some(p) => HLKeepsBackground(find, p, s, style.(fg := Color87, bold := true), style, Keywords);
  }

  /** Every cell of a user-pattern match is bold, keywords inside it included. */
  lemma PrintHLMatchBold(find: Finder, p: Pattern, s: string, style: Style, a: nat, b: nat)
    requires find(p, s) == Some((a, b)) && b > 0
    ensures forall k :: a <= k < b ==> PrintHLCells(find, Some(p), s, style)[k].style.bold
  {
    var st := style.(fg := Color87, bold := true);
    HLCellsSplit(find, p, s, st, style, Keywords, a, b);
    var pre := LayerCells(find, s[..a], style, Keywords);
    var hit := LayerCells(find, s[a..b], st, Keywords);
    var rest := HLCells(find, p, s[b..], st, style, Keywords);
    var cs := PrintHLCells(find, Some(p), s, style);
    assert cs == pre + hit + rest;
    AllBold(find, KeywordPattern, s[a..b], st.(fg := Color173), st);
    forall k | a <= k < b
      ensures cs[k].style.bold
    {
      assert cs[k] == hit[k - a];
    }
  }

  /** Keyword highlighting over bold text stays bold. */
  lemma {:induction false} AllBold(find: Finder, p: Pattern, s: string, st: Style, base: Style)
    requires st.bold && base.bold
    ensures forall k :: 0 <= k < |s| ==> HLCells(find, p, s, st, base, DimPunct)[k].style.bold
    decreases |s|
  {
    match find(p, s)
    case None =>
    case Some((a, b)) =>
      if b > 0 {
        AllBold(find, p, s[b..], st, base);
        HLCellsSplit(find, p, s, st, base, DimPunct, a, b);
        var cs := HLCells(find, p, s, st, base, DimPunct);
        var pre := EmitCells(s[..a], base, true);
        var hit := EmitCells(s[a..b], st, true);
        var tail := HLCells(find, p, s[b..], st, base, DimPunct);
        assert cs == pre + hit + tail;
        forall k | 0 <= k < |s|
          ensures cs[k].style.bold
        {
          if k < a {
            assert cs[k] == pre[k];
          } else if k < b {
            assert cs[k] == hit[k - a];
          } else {
            assert cs[k] == tail[k - b];
          }
        }
      }
  }

  /** After one pass of the `printHL` loop, what is drawn and what is left still make up the whole. */
  lemma HLStep(find: Finder, p: Pattern, rest: string, st: Style, base: Style, layer: Layer, a: nat, b: nat,
               done: seq<Cell>, whole: seq<Cell>)
    requires find(p, rest) == Some((a, b)) && b > 0
    requires done + HLCells(find, p, rest, st, base, layer) == whole
    ensures a <= b <= |rest|
    ensures |LayerCells(find, rest[..a], base, layer) + LayerCells(find, rest[a..b], st, layer)| == b
    ensures (done + (LayerCells(find, rest[..a], base, layer) + LayerCells(find, rest[a..b], st, layer)))
              + HLCells(find, p, rest[b..], st, base, layer) == whole
  {
    HLCellsSplit(find, p, rest, st, base, layer, a, b);
  }

  /**
   * `printHL(s, p, st, layer)`: walk `s` match by match, drawing the text
   * before each match in the cursor's style and the match in `st`, both
   * through `layer`, and restoring the style after each match.
   */
  method EmitHL(g: Grid, c: Cur, s: string, find: Finder, p: Pattern, st: Style, layer: Layer) returns (r: Cur)
    modifies g
    ensures r == c.(x := c.x + |s|)
    ensures g.cells == Paint(g.width, g.height, old(g.cells), c.x, c.y, HLCells(find, p, s, st, c.style, layer))
    decreases Rank(layer) + 1, 1
  {
    r := c;
    var rest := s;
    ghost var done: seq<Cell> := [];
    ghost var g0 := g.cells;
    while true
      invariant |done| + |rest| == |s|
      invariant r == c.(x := c.x + |done|)
      invariant done + HLCells(find, p, rest, st, c.style, layer) == HLCells(find, p, s, st, c.style, layer)
      invariant g.cells == Paint(g.width, g.height, g0, c.x, c.y, done)
      decreases |rest|
    {
      var m := find(p, rest);
      if m.None? || m.value.1 == 0 {
        break;
      }
      var (a, b) := m.value;
      HLStep(find, p, rest, st, c.style, layer, a, b, done, HLCells(find, p, s, st, c.style, layer));
      ghost var seg := LayerCells(find, rest[..a], c.style, layer) + LayerCells(find, rest[a..b], st, layer);
      r := EmitMatch(g, r, rest, a, b, find, st, layer);
      PaintAppend(g.width, g.height, g0, c.x, c.y, done, seg);
      done := done + seg;
      rest := rest[b..];
    }
    HLCellsStop(find, p, rest, st, c.style, layer);
    ghost var last := LayerCells(find, rest, c.style, layer);
    r := EmitLayer(g, r, rest, find, layer);
    PaintAppend(g.width, g.height, g0, c.x, c.y, done, last);
    assert done + last == HLCells(find, p, s, st, c.style, layer);
  }

  /** One pass of `printHL`: the text before a match in the cursor's style, then the match in `st`. */
  method EmitMatch(g: Grid, c: Cur, s: string, a: nat, b: nat, find: Finder, st: Style, layer: Layer) returns (r: Cur)
    requires a <= b <= |s|
    modifies g
    ensures r == c.(x := c.x + b)
    ensures g.cells == Paint(g.width, g.height, old(g.cells), c.x, c.y,
                             LayerCells(find, s[..a], c.style, layer) + LayerCells(find, s[a..b], st, layer))
    decreases Rank(layer) + 1, 0
  {
    r := EmitLayer(g, c, s[..a], find, layer);
    PaintAppend(g.width, g.height, old(g.cells), c.x, c.y, LayerCells(find, s[..a], c.style, layer), LayerCells(find, s[a..b], st, layer));
    r := EmitLayer(g, r.(style := st), s[a..b], find, layer);
    r := r.(style := c.style);
  }

  /** The drawing function `printHL` hands each piece to. */
  method EmitLayer(g: Grid, c: Cur, s: string, find: Finder, layer: Layer) returns (r: Cur)
    modifies g
    ensures r == c.(x := c.x + |s|)
    ensures g.cells == Paint(g.width, g.height, old(g.cells), c.x, c.y, LayerCells(find, s, c.style, layer))
    decreases Rank(layer)
  {
    match layer
    case DimPunct => r := Emit(g, c, s, true);
    case Keywords => r := EmitHL(g, c, s, find, KeywordPattern, c.style.(fg := Color173), DimPunct);
  }

  /** `PrintHL(s)` */
  method EmitHighlighted(g: Grid, c: Cur, s: string, find: Finder) returns (r: Cur)
    modifies g
    ensures r == c.(x := c.x + |s|)
    ensures g.cells == Paint(g.width, g.height, old(g.cells), c.x, c.y, PrintHLCells(find, c.pattern, s, c.style))
  {
    match c.pattern
    case None => r := EmitHL(g, c, s, find, KeywordPattern, c.style.(fg := Color173), DimPunct);
    case Some(p) => r := EmitHL(g, c, s, find, p, c.style.(fg := Color87, bold := true), Keywords);
  }

  /**
   * The `printHL` loop as written: after `n` passes, the text still to be
   * searched, or `None` once the loop has exited. Each pass drops the text
   * up to the end of the match, however short the match is.
   */
  function HLAfterAsWritten(find: Finder, p: Pattern, s: string, n: nat): (r: Option<string>)
    ensures r.Some? ==> |r.value| <= |s|
    decreases n
  {
    if n == 0 then Some(s)
    else
      match find(p, s)
      case None => None
      case Some((_, b)) => HLAfterAsWritten(find, p, s[b..], n - 1)
  }

  /**
   * As written, an empty match at the start of the remaining text (as `^`
   * or `x*` give on "abc") drops nothing, so the loop never exits.
   */
  lemma {:induction false} EmptyMatchNeverExits(find: Finder, p: Pattern, s: string, n: nat)
    requires find(p, s) == Some((0, 0))
    ensures HLAfterAsWritten(find, p, s, n) == Some(s)
    decreases n
  {
    if n > 0 {
      assert s[0..] == s;
      EmptyMatchNeverExits(find, p, s, n - 1);
    }
  }

  /** `strings.ToLower` as it acts on the level names, which are ASCII. */
  function Lower(s: string): (r: string)
    ensures |r| == |s|
    ensures forall k :: 0 <= k < |s| ==> r[k] == LowerChar(s[k])
  {
    seq(|s|, k requires 0 <= k < |s| => LowerChar(s[k]))
  }

  function LowerChar(ch: char): char {
    if 'A' <= ch <= 'Z' then (ch as int - 'A' as int + 'a' as int) as char else ch
  }

  datatype Severity = Debug | Info | Notice | Warn | Error

  /** The lower-case name a level is written with. */
  function Name(v: Severity): string {
    match v
    case Debug => "debug"
    case Info => "info"
    case Notice => "notice"
    case Warn => "warn"
    case Error => "error"
  }

  /** The severity a level string names, in any letter case; `None` for any other string. */
  function SeverityOf(l: string): (r: Option<Severity>)
    ensures r.Some? ==> Lower(l) == Name(r.value)
    ensures r.None? ==> forall v: Severity :: Lower(l) != Name(v)
  {
    var t := Lower(l);
    if t == "debug" then Some(Debug)
    else if t == "info" then Some(Info)
    else if t == "notice" then Some(Notice)
    else if t == "warn" then Some(Warn)
    else if t == "error" then Some(Error)
    else None
  }

  /** The three-letter label of a severity; warnings and errors shout. */
  function Label(v: Severity): string {
    match v
    case Debug => "dbg"
    case Info => "inf"
    case Notice => "ntc"
    case Warn => "WRN"
    case Error => "ERR"
  }

  /** The palette colour of a severity. */
  function LevelColor(v: Severity): int {
    match v
    case Debug => Color66
    case Info => Color116
    case Notice => ColorWhite
    case Warn => ColorYellow
    case Error => ColorRed
  }

  /** The text `Level(l)` draws: a known level's label, any other string as it is. */
  function LevelLabel(l: string): (text: string)
    ensures SeverityOf(l).None? ==> text == l
    ensures SeverityOf(l).Some? ==> |text| == 3
  {
    match SeverityOf(l)
    case None => l
    case Some(v) => Label(v)
  }

  /** Distinct severities get distinct labels, and letter case does not matter. */
  lemma LevelLabels(l: string, m: string)
    requires SeverityOf(l).Some? && SeverityOf(m).Some?
    ensures LevelLabel(l) == LevelLabel(m) <==> Lower(l) == Lower(m)
  {
    var v, u := SeverityOf(l).value, SeverityOf(m).value;
    if Lower(l) == Lower(m) {
      NameInjective(v, u);
    } else {
      assert Name(v) != Name(u);
      assert v != u;
    }
  }

  lemma NameInjective(v: Severity, u: Severity)
    requires Name(v) == Name(u)
    ensures v == u
  {
  }

  /**
   * `ColByLevel(l)`: the style a level label is drawn in. A known level
   * sets its colour as background on a light background (r + g + b > 200,
   * and not the terminal default), otherwise as foreground; any other
   * level leaves the style as it is.
   */
  function ColByLevel(st: Style, l: string, rgb: Rgb): (r: Style)
    ensures SeverityOf(l).None? ==> r == st
    ensures SeverityOf(l).Some? ==>
              var col := LevelColor(SeverityOf(l).value);
              var (red, green, blue) := rgb(st.bg);
              if st.bg != ColorDefault && red + green + blue > 200 then r == st.(bg := col) else r == st.(fg := col)
  {
    var (red, green, blue) := rgb(st.bg);
    var invert := if st.bg == ColorDefault then false else red + green + blue > 200;
    match SeverityOf(l)
    case None => st
    case Some(v) => if invert then st.(bg := LevelColor(v)) else st.(fg := LevelColor(v))
  }

  /** `ColByLevel` changes one colour at most: with `fg` and `bg` put back, the style is the original. */
  lemma ColByLevelRestores(st: Style, l: string, rgb: Rgb)
    ensures ColByLevel(st, l, rgb).(fg := st.fg, bg := st.bg) == st
    ensures ColByLevel(st, l, rgb).fg == st.fg || ColByLevel(st, l, rgb).bg == st.bg
  {
  }

  /** `Level(l)`: the level label in the level's colours, after which fg and bg are restored. */
  method Level(g: Grid, c: Cur, l: string, rgb: Rgb) returns (r: Cur)
    modifies g
    ensures r == c.(x := c.x + |LevelLabel(l)|)
    ensures g.cells == Paint(g.width, g.height, old(g.cells), c.x, c.y, EmitCells(LevelLabel(l), ColByLevel(c.style, l, rgb), false))
  {
    var fg, bg := c.style.fg, c.style.bg;
    var text := l;
    var t := Lower(l);
    if t == "debug" {
      text := "dbg";
    } else if t == "info" {
      text := "inf";
    } else if t == "notice" {
      text := "ntc";
    } else if t == "warn" {
      text := "WRN";
    } else if t == "error" {
      text := "ERR";
    }
    r := c.(style := ColByLevel(c.style, l, rgb));
    r := Emit(g, r, text, false);
    r := r.(style := r.style.(fg := fg, bg := bg));
  }

  /** The text of a log line shown on its row: the message when there is one, else the raw line. */
  function Body(l: Line): string {
    if l.short != "" then l.short else l.str
  }

  /** The style a line is drawn in: a marked line on colour 52. */
  function LineStyle(st: Style, l: Line): Style {
    if l.mark then st.(bg := Color52) else st
  }

  /**
   * The cells on the row of `Line(l)` before the message: the time
   * (already formatted as `timeText`) and a blank in colour 246 unless the
   * time is zero, the level label, and a blank.
   */
  function LineHead(c: Cur, l: Line, timeText: string, rgb: Rgb): seq<Cell> {
    var st := LineStyle(c.style, l);
    TimeCells(l, st, timeText) + LabelCells(l, st, rgb)
  }

  /** The time column of a line's head: nothing for a line without a time, else the time and a blank in grey. */
  function TimeCells(l: Line, st: Style, timeText: string): seq<Cell> {
    if l.time.Zero? then [] else EmitCells(timeText, st.(fg := Color246), false) + EmitCells(" ", st.(fg := Color246), false)
  }

  /** Every cell `Line(l)` writes, left to right from the cursor, ending with blanks to the right edge. */
  function LineCells(w: int, c: Cur, l: Line, timeText: string, find: Finder, rgb: Rgb): seq<Cell> {
    var head := LineHead(c, l, timeText, rgb);
    head + BodyCells(w, c.(x := c.x + |head|, style := LineStyle(c.style, l)), l, find)
  }

  /** The row shows the line's body right after its head. */
  lemma LineShowsBody(w: int, c: Cur, l: Line, timeText: string, find: Finder, rgb: Rgb)
    ensures var head := LineHead(c, l, timeText, rgb);
            var cs := LineCells(w, c, l, timeText, find, rgb);
            |head| + |Body(l)| <= |cs| &&
            forall k :: 0 <= k < |Body(l)| ==> cs[|head| + k].ch == Glyph(Body(l)[k])
  {
    var st := LineStyle(c.style, l);
    var head := LineHead(c, l, timeText, rgb);
    var body := PrintHLCells(find, c.pattern, Body(l), st);
    match c.pattern {
      case None => HLShows(find, KeywordPattern, Body(l), st.(fg := Color173), st, DimPunct);
      case Some(p) => HLShows(find, p, Body(l), st.(fg := Color87, bold := true), st, Keywords);
    }
    var fill := FillCells(w, c.x + |head + body|, ' ', st);
    var cs := LineCells(w, c, l, timeText, find, rgb);
    assert cs == head + body + fill;
    forall k | 0 <= k < |Body(l)|
      ensures cs[|head| + k].ch == Glyph(Body(l)[k])
    {
      assert cs[|head| + k] == body[k];
    }
  }

  /**
   * A marked line is drawn on colour 52 from the blank after the level
   * label to the right edge; only the label may show another background.
   */
  lemma MarkedLineBackground(w: int, c: Cur, l: Line, timeText: string, find: Finder, rgb: Rgb)
    requires l.mark
    ensures var head := LineHead(c, l, timeText, rgb);
            var cs := LineCells(w, c, l, timeText, find, rgb);
            0 < |head| <= |cs| &&
            forall k :: |head| - 1 <= k < |cs| ==> cs[k].style.bg == Color52
  {
    var st := LineStyle(c.style, l);
    var head := LineHead(c, l, timeText, rgb);
    var body := PrintHLCells(find, c.pattern, Body(l), st);
    match c.pattern {
      case None => HLShows(find, KeywordPattern, Body(l), st.(fg := Color173), st, DimPunct);
      case Some(p) => HLShows(find, p, Body(l), st.(fg := Color87, bold := true), st, Keywords);
    }
    var fill := FillCells(w, c.x + |head + body|, ' ', st);
    var cs := LineCells(w, c, l, timeText, find, rgb);
    assert cs == head + body + fill;
    assert head[|head| - 1] == Cell(' ', st);
    PrintHLKeepsBackground(find, c.pattern, Body(l), st);
    forall k | |head| - 1 <= k < |cs|
      ensures cs[k].style.bg == Color52
    {
      if k < |head| {
        assert cs[k] == head[k];
      } else if k < |head| + |body| {
        assert cs[k] == body[k - |head|];
      } else {
        assert cs[k] == fill[k - |head| - |body|];
      }
    }
  }

  /** The time, the level label and the blank after it. */
  method DrawHead(g: Grid, c: Cur, l: Line, timeText: string, rgb: Rgb) returns (r: Cur)
    modifies g
    ensures r == c.(x := c.x + |LineHead(c, l, timeText, rgb)|, style := LineStyle(c.style, l))
    ensures g.cells == Paint(g.width, g.height, old(g.cells), c.x, c.y, LineHead(c, l, timeText, rgb))
  {
    ghost var g0 := g.cells;
    ghost var st := LineStyle(c.style, l);
    r := c;
    if l.mark {
      r := Bg(r, Color52);
    }
    ghost var time := TimeCells(l, st, timeText);
    r := DrawTime(g, r, l, timeText);
    ghost var tag := LabelCells(l, st, rgb);
    r := DrawLabel(g, r, l, rgb);
    PaintAppend(g.width, g.height, g0, c.x, c.y, time, tag);
  }

  /** The level label and the blank after it. */
  function LabelCells(l: Line, st: Style, rgb: Rgb): seq<Cell> {
    EmitCells(LevelLabel(l.level), ColByLevel(st, l.level, rgb), false) + EmitCells(" ", st, false)
  }

  /** `Level(l.Level)`, then a blank in the line's own colours. */
  method DrawLabel(g: Grid, c: Cur, l: Line, rgb: Rgb) returns (r: Cur)
    modifies g
    ensures r == c.(x := c.x + |LabelCells(l, c.style, rgb)|)
    ensures g.cells == Paint(g.width, g.height, old(g.cells), c.x, c.y, LabelCells(l, c.style, rgb))
  {
    ghost var g0 := g.cells;
    ghost var lev := EmitCells(LevelLabel(l.level), ColByLevel(c.style, l.level, rgb), false);
    r := Level(g, c, l.level, rgb);
    r := EmitPlain(g, r, " ");
    PaintAppend(g.width, g.height, g0, c.x, c.y, lev, EmitCells(" ", c.style, false));
  }

  /** The time column, in grey, leaving the cursor's colours as they were. */
  method DrawTime(g: Grid, c: Cur, l: Line, timeText: string) returns (r: Cur)
    modifies g
    ensures r == c.(x := c.x + |TimeCells(l, c.style, timeText)|)
    ensures g.cells == Paint(g.width, g.height, old(g.cells), c.x, c.y, TimeCells(l, c.style, timeText))
  {
    r := c;
    if !l.time.Zero? {
      ghost var g0 := g.cells;
      ghost var t1 := EmitCells(timeText, c.style.(fg := Color246), false);
      ghost var t2 := EmitCells(" ", c.style.(fg := Color246), false);
      var fg := r.style.fg;
      r := Fg(r, Color246);
      r := EmitPlain(g, r, timeText);
      r := EmitPlain(g, r, " ");
      PaintAppend(g.width, g.height, g0, c.x, c.y, t1, t2);
      r := Fg(r, fg);
    }
  }

  /**
   * `Line(l, padding)`: one log line on the cursor's row, then blanks to
   * the right edge; the cursor ends at the start of the next row.
   */
  method DrawLine(g: Grid, c: Cur, l: Line, timeText: string, find: Finder, rgb: Rgb) returns (r: Cur)
    modifies g
    ensures r == c.(x := 0, y := c.y + 1, style := LineStyle(c.style, l))
    ensures g.cells == Paint(g.width, g.height, old(g.cells), c.x, c.y, LineCells(g.width, c, l, timeText, find, rgb))
  {
    ghost var g0 := g.cells;
    ghost var head := LineHead(c, l, timeText, rgb);
    r := DrawHead(g, c, l, timeText, rgb);
    ghost var rest := BodyCells(g.width, r, l, find);
    r := DrawBody(g, r, l, find);
    PaintAppend(g.width, g.height, g0, c.x, c.y, head, rest);
  }

  /** The body of a line, highlighted, then blanks to the right edge. */
  function BodyCells(w: int, c: Cur, l: Line, find: Finder): seq<Cell> {
    var hl := PrintHLCells(find, c.pattern, Body(l), c.style);
    hl + FillCells(w, c.x + |hl|, ' ', c.style)
  }

  /** The rest of `Line(l, padding)` after the head: the highlighted body, then `Clear`. */
  method DrawBody(g: Grid, c: Cur, l: Line, find: Finder) returns (r: Cur)
    modifies g
    ensures r == c.(x := 0, y := c.y + 1)
    ensures g.cells == Paint(g.width, g.height, old(g.cells), c.x, c.y, BodyCells(g.width, c, l, find))
  {
    ghost var g0 := g.cells;
    var body := if l.short != "" then l.short else l.str;
    ghost var hl := PrintHLCells(find, c.pattern, body, c.style);
    r := EmitHighlighted(g, c, body, find);
    ghost var fill := FillCells(g.width, c.x + |hl|, ' ', c.style);
    r := Clear(g, r);
    PaintAppend(g.width, g.height, g0, c.x, c.y, hl, fill);
  }
}
