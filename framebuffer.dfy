/**
 * The render target: a colour buffer of RGBA8 pixels and a depth buffer,
 * both stored row by row in `w * h` cells, where cell (i, j) is row i,
 * column j.
 */
module Framebuffers {

  /** An unsigned 8-bit channel (`GLubyte`). */
  newtype byte = x: int | 0 <= x < 256

  /** One pixel of the colour buffer. */
  datatype RGBA8 = RGBA8(r: byte, g: byte, b: byte, a: byte)

  /** What `memset(.., 0, ..)` leaves in a pixel. */
  const Black := RGBA8(0, 0, 0, 0)

  /** The value `clearDepthBuffer` writes: far behind anything the pipeline draws. */
  const ClearDepth: real := 100.0

  class Framebuffer {
    var w: int
    var h: int
    var color: array?<RGBA8>
    var depth: array?<real>

    /**
     * Either the empty target the default constructor builds (no buffers,
     * zero size) or two buffers of exactly `w * h` cells.
     */
    predicate Valid()
      reads this
    {
      0 <= w && 0 <= h &&
      ((color == null && depth == null && w == 0 && h == 0) ||
       (color != null && depth != null && color.Length == w * h && depth.Length == w * h))
    }

    /** The pixel (i, j) lies in the target. */
    predicate InBounds(i: int, j: int)
      reads this
    {
      0 <= i < h && 0 <= j < w
    }

    /**
     * The row-major cell `i * w + j` of pixel (i, j) lies inside the buffers.
     * The accessors index with this sum and nothing else, so a column past
     * the end of a row reaches into the next row; only a cell outside the
     * buffers is beyond what they may touch.
     */
    predicate InBuffer(i: int, j: int)
      reads this
    {
      0 <= i * w + j < w * h
    }

    /** The row-major cell of pixel (i, j): a cell of both buffers. */
    function Cell(i: int, j: int): (k: int)
      reads this
      requires Valid() && InBuffer(i, j)
      ensures 0 <= k < w * h
      ensures color != null && depth != null && k < color.Length && k < depth.Length
    {
      i * w + j
    }

    /** `Framebuffer()`: no buffers, zero size. */
    constructor Empty()
      ensures Valid() && w == 0 && h == 0 && color == null && depth == null
    {
      color := null;
      depth := null;
      w, h := 0, 0;
    }

    /** `Framebuffer(w, h)`: fresh, uninitialised buffers of `width * height` cells. */
    constructor (width: int, height: int)
      requires 0 <= width && 0 <= height
      ensures Valid() && w == width && h == height
      ensures color != null && depth != null && fresh(color) && fresh(depth)
    {
      w, h := width, height;
      var n := width * height;
      assert 0 <= n by {
        CellProductNonNegative(width, height);
      }
      color := new RGBA8[n];
      depth := new real[n];
    }

    /** `resizeBuffer`: takes the new size and replaces both buffers by fresh ones of that size. */
    method ResizeBuffer(width: int, height: int)
      requires 0 <= width && 0 <= height
      modifies this
      ensures Valid() && w == width && h == height
      ensures color != null && depth != null && fresh(color) && fresh(depth)
    {
      w, h := width, height;
      var n := width * height;
      assert 0 <= n by {
        CellProductNonNegative(width, height);
      }
      color := new RGBA8[n];
      depth := new real[n];
    }

    /** `width()`: the number of columns; every row of both buffers holds that many cells. */
    function Width(): (r: int)
      reads this
      requires Valid()
      ensures 0 <= r && (r * h > 0 ==> color != null && color.Length == r * h)
    {
      w
    }

    /** `height()`: the number of rows; the buffers hold that many rows. */
    function Height(): (r: int)
      reads this
      requires Valid()
      ensures 0 <= r && (w * r > 0 ==> depth != null && depth.Length == w * r)
    {
      h
    }

    /** `setColorBuffer`: stores `c` at pixel (i, j) and leaves every other pixel as it was. */
    method SetColorBuffer(i: int, j: int, c: RGBA8)
      requires Valid() && InBuffer(i, j)
      modifies color
      ensures color != null && color[Cell(i, j)] == c
      ensures forall k :: 0 <= k < color.Length && k != Cell(i, j) ==> color[k] == old(color[k])
    {
      color[Cell(i, j)] := c;
    }

    /** `setDepthBuffer`: stores `d` at pixel (i, j) and leaves every other depth as it was. */
    method SetDepthBuffer(i: int, j: int, d: real)
      requires Valid() && InBuffer(i, j)
      modifies depth
      ensures GetDepthBuffer(i, j) == d
      ensures forall k :: 0 <= k < depth.Length && k != Cell(i, j) ==> depth[k] == old(depth[k])
    {
      depth[Cell(i, j)] := d;
    }

    /** `getDepthBuffer`: the depth stored at pixel (i, j). */
    function GetDepthBuffer(i: int, j: int): (d: real)
      reads this, depth
      requires Valid() && InBuffer(i, j)
      ensures depth != null && d == depth[Cell(i, j)]
    {
      depth[Cell(i, j)]
    }

    /** `clearColorBuffer`: every pixel becomes zero in all four channels. */
    method ClearColorBuffer()
      requires Valid()
      modifies color
      ensures color != null ==> forall k :: 0 <= k < color.Length ==> color[k] == Black
    {
      if color != null {
        forall k | 0 <= k < color.Length {
          color[k] := Black;
        }
      }
    }

    /** `clearDepthBuffer`: every cell of the depth buffer becomes 100. */
    method ClearDepthBuffer()
      requires Valid()
      modifies depth
      ensures depth != null ==> forall k :: 0 <= k < depth.Length ==> depth[k] == ClearDepth
    {
      if depth != null {
        for k := 0 to w * h
          invariant forall m :: 0 <= m < k ==> depth[m] == ClearDepth
        {
          depth[k] := ClearDepth;
        }
      }
    }

    /** A pixel of the target has its cell in the buffers, so the target is not the empty one. */
    lemma InBoundsInBuffer(i: int, j: int)
      requires Valid() && InBounds(i, j)
      ensures InBuffer(i, j) && color != null && depth != null
    {
      CellBound(i, j, w, h);
    }

    /** Distinct pixels of the target occupy distinct cells, so a write to one pixel never reaches another. */
    lemma CellInjective(i: int, j: int, i': int, j': int)
      requires Valid() && InBounds(i, j) && InBounds(i', j')
      ensures InBuffer(i, j) && InBuffer(i', j') && (Cell(i, j) == Cell(i', j') <==> i == i' && j == j')
    {
      InBoundsInBuffer(i, j);
      InBoundsInBuffer(i', j');
      if Cell(i, j) == Cell(i', j') {
        RowMajorInjective(i, j, i', j', w);
      }
    }
  }

  /** A target of non-negative width and height has a non-negative number of cells. */
  lemma CellProductNonNegative(w: int, h: int)
    requires 0 <= w && 0 <= h
    ensures 0 <= w * h
  {
  }

  /** Row i, column j of a `w`-wide grid lands inside the first `w * h` cells. */
  lemma CellBound(i: int, j: int, w: int, h: int)
    requires 0 <= i < h && 0 <= j < w
    ensures 0 <= i * w + j < w * h
  {
    assert i * w <= (h - 1) * w;
  }

  /** Two in-row positions at the same row-major offset are the same position. */
  lemma RowMajorInjective(i: int, j: int, i': int, j': int, w: int)
    requires 0 <= j < w && 0 <= j' < w && 0 <= i && 0 <= i'
    requires i * w + j == i' * w + j'
    ensures i == i' && j == j'
  {
    var d := i - i';
    assert d * w == j' - j;
    RowStep(d, w);
  }

  /** A nonzero number of whole rows spans at least one row width. */
  lemma RowStep(d: int, w: int)
    requires 0 <= w
    ensures d >= 1 ==> d * w >= w
    ensures d <= -1 ==> d * w <= -w
  {
  }
}
