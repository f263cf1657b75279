/**
 * The renderer's pixel buffer (scripts/renderer.mjs): a 64 x 32 display stored
 * row-major in one array, toggled one cell at a time by the draw opcode.
 *
 * The source keeps the cells in a plain JavaScript array created with
 * `new Array(cols * rows)`: a cell is `undefined` until first toggled, then 1
 * or 0, and both `undefined` and 0 read as "off". The model keeps exactly the
 * observable part, the set of indices whose cell is on. Like the JavaScript
 * array, the set accepts any index. One wrap step does not bring every
 * coordinate on screen: an x left at cols or beyond spills into a lower row
 * (x = 200 on row 0 is column 8 of row 2), and a y left at rows or beyond
 * lands past cols * rows - 1, where the cell is stored but never painted.
 */
module Display {

  const Cols: int := 64
  const Rows: int := 32

  /**
   * One wrap step of `setPixels`: a coordinate strictly greater than `size` is
   * pulled back by `size` once, a negative one is pushed forward once. The test
   * is `>`, so a coordinate equal to `size` is left alone.
   */
  function Wrap(c: int, size: int): (r: int)
    ensures r == c || r == c - size || r == c + size
    ensures 0 <= c <= size ==> r == c
  {
    if c > size then c - size else if c < 0 then c + size else c
  }

  /** The row-major array index `setPixels` toggles for (x, y). */
  function PixelIndex(x: int, y: int): (r: int)
    ensures 0 <= x < Cols && 0 <= y < Rows ==> OnScreen(r) && r % Cols == x && r / Cols == y
  {
    Wrap(x, Cols) + Wrap(y, Rows) * Cols
  }

  /** The lit set after XOR-ing 1 into cell p: p changes state, nothing else does. */
  function Toggle(lit: set<int>, p: int): (r: set<int>)
    ensures p in r <==> p !in lit
    ensures forall q :: q != p ==> (q in r <==> q in lit)
  {
    if p in lit then lit - {p} else lit + {p}
  }

  /** A cell the renderer paints: one of the cols * rows entries of the array. */
  predicate OnScreen(p: int)
  {
    0 <= p < Cols * Rows
  }

  class Renderer {
    /** The indices of the cells that hold 1. */
    var display: set<int>

    constructor ()
      ensures display == {}
    {
      display := {};
    }

    /**
     * Wraps (x, y) once, XORs 1 into the cell at x + y * cols and reports
     * whether that cell is now off, that is, whether the pixel was erased.
     */
    method SetPixels(x: int, y: int) returns (erased: bool)
      modifies this
      ensures display == Toggle(old(display), PixelIndex(x, y))
      ensures erased <==> PixelIndex(x, y) in old(display)
    {
      var px, py := x, y;
      if px > Cols {
        px := px - Cols;
      } else if px < 0 {
        px := px + Cols;
      }
      if py > Rows {
        py := py - Rows;
      } else if py < 0 {
        py := py + Rows;
      }
      var pixelLoc := px + py * Cols;
      if pixelLoc in display {
        display := display - {pixelLoc};
      } else {
        display := display + {pixelLoc};
      }
      erased := pixelLoc !in display;
    }

    /** Replaces the array by a fresh one: every cell reads as off. */
    method Clear()
      modifies this
      ensures display == {}
      ensures forall x: int, y: int :: PixelIndex(x, y) !in display
    {
      display := {};
    }
  }

  /** Toggling the same cell twice restores the lit set exactly. */
  lemma ToggleTwice(lit: set<int>, p: int)
    ensures Toggle(Toggle(lit, p), p) == lit
  {
  }

  /** Two toggles of different cells commute. */
  lemma ToggleCommutes(lit: set<int>, p: int, q: int)
    ensures Toggle(Toggle(lit, p), q) == Toggle(Toggle(lit, q), p)
  {
  }

  /**
   * One wrap step brings any coordinate in -size .. 2 * size into 0 .. size:
   * the far edge `size` itself is reachable, because the test is `>`.
   */
  lemma WrapOnce(c: int, size: int)
    requires size > 0 && -size <= c <= 2 * size
    ensures 0 <= Wrap(c, size) <= size
    ensures Wrap(c, size) == size <==> (c == size || c == 2 * size)
    ensures 0 <= c < size ==> Wrap(c, size) == c
  {
  }

  /**
   * x == cols is not wrapped, so it lands on column 0 of the NEXT row: the
   * same cell as (0, y + 1). On the last row that cell is off the screen.
   */
  lemma EdgeColumnAliasesNextRow(y: int)
    requires 0 <= y < Rows
    ensures PixelIndex(Cols, y) == PixelIndex(0, y + 1)
    ensures y < Rows - 1 ==> OnScreen(PixelIndex(Cols, y))
    ensures y == Rows - 1 ==> !OnScreen(PixelIndex(Cols, y))
  {
  }

  /**
   * An x that one wrap step leaves at cols or beyond spills over: it addresses
   * column (x - cols) % cols of the row (x - cols) / cols further down.
   */
  lemma WideColumnSpillsDown(x: int, y: int)
    requires x > Cols && 0 <= y < Rows
    ensures PixelIndex(x, y) == (x - Cols) % Cols + (y + (x - Cols) / Cols) * Cols
    ensures y + (x - Cols) / Cols < Rows ==> PixelIndex(x, y) == PixelIndex((x - Cols) % Cols, y + (x - Cols) / Cols)
    ensures PixelIndex(200, 0) == PixelIndex(8, 2)
  {
  }

  /** Coordinates already on the screen address distinct cells. */
  lemma PixelIndexInjective(x1: int, y1: int, x2: int, y2: int)
    requires 0 <= x1 < Cols && 0 <= y1 < Rows && 0 <= x2 < Cols && 0 <= y2 < Rows
    requires PixelIndex(x1, y1) == PixelIndex(x2, y2)
    ensures x1 == x2 && y1 == y2
  {
  }
}
