/**
 * The pieces of the scanline rasterizer whose logic does not depend on the
 * interpolation numerics: the whole-vertex helpers, the mapping of a vertex
 * to the screen, the sort by y, the choice and switch of the active edges,
 * the depth test with its colour write, and the conversion of a shaded colour
 * to bytes.
 */
module Raster {
  import opened Matrix
  import opened Transforms
  import opened VertexBuffers
  import opened Framebuffers

  // ---------------------------------------------------------------------
  // Whole-vertex helpers
  // ---------------------------------------------------------------------

  /** `sub_vertex`: the first `n` slots of `target` become `lhs - rhs`; `target` may be `lhs` or `rhs`. */
  method SubVertex(lhs: array<real>, rhs: array<real>, target: array<real>, n: int)
    requires 0 <= n <= lhs.Length && n <= rhs.Length && n <= target.Length
    modifies target
    ensures target[..n] == SubV(old(lhs[..n]), old(rhs[..n]))
    ensures target[n..] == old(target[n..])
  {
    var i := 0;
    while i < n
      invariant 0 <= i <= n
      invariant forall k :: 0 <= k < i ==> target[k] == old(lhs[k]) - old(rhs[k])
      invariant forall k :: i <= k < n ==> lhs[k] == old(lhs[k]) && rhs[k] == old(rhs[k])
      invariant forall k :: i <= k < target.Length ==> target[k] == old(target[k])
    {
      target[i] := lhs[i] - rhs[i];
      i := i + 1;
    }
  }

  /** `scalar_vertex`: the first `n` slots of `target` become `lhs * k`; `target` may be `lhs`. */
  method ScalarVertex(lhs: array<real>, k: real, target: array<real>, n: int)
    requires 0 <= n <= lhs.Length && n <= target.Length
    modifies target
    ensures target[..n] == ScaleV(old(lhs[..n]), k)
    ensures target[n..] == old(target[n..])
  {
    ghost var scaled := ScaleV(old(lhs[..n]), k);
    var i := 0;
    while i < n
      invariant 0 <= i <= n
      invariant forall m :: 0 <= m < i ==> target[m] == old(lhs[m]) * k
      invariant forall m :: i <= m < n ==> lhs[m] == old(lhs[m])
      invariant forall m :: i <= m < target.Length ==> target[m] == old(target[m])
    {
      target[i] := lhs[i] * k;
      i := i + 1;
    }
    assert forall m :: 0 <= m < n ==> target[..n][m] == scaled[m];
  }

  /** `inc_vertex`: the first `n` slots of `target` grow by `inc`. */
  method IncVertex(target: array<real>, inc: array<real>, n: int)
    requires 0 <= n <= target.Length && n <= inc.Length
    modifies target
    ensures target[..n] == AddV(old(target[..n]), old(inc[..n]))
    ensures target[n..] == old(target[n..])
  {
    var i := 0;
    while i < n
      invariant 0 <= i <= n
      invariant forall m :: 0 <= m < i ==> target[m] == old(target[m]) + old(inc[m])
      invariant forall m :: i <= m < n ==> inc[m] == old(inc[m])
      invariant forall m :: i <= m < target.Length ==> target[m] == old(target[m])
    {
      target[i] := target[i] + inc[i];
      i := i + 1;
    }
  }

  // ---------------------------------------------------------------------
  // Screen mapping
  // ---------------------------------------------------------------------

  /**
   * `ROUND(x)`: add one half and cast to `int`, which cuts toward zero. From
   * -1/2 up this is the nearest integer, halves going up; below -1/2 the
   * cast rounds `x + 1/2` up instead of down.
   */
  function Round(x: real): (r: int)
    ensures -0.5 <= x ==> x - 0.5 < r as real <= x + 0.5
    ensures x < -0.5 ==> x + 0.5 <= r as real < x + 1.5
  {
    Trunc(x + 0.5)
  }

  /**
   * An element mapped to the screen: x and y through the viewport at z = w = 1,
   * rounded to whole pixels; z kept; w replaced by the last slot (1/w after
   * the division); the attributes copied.
   */
  function ScreenVertex(viewport: Mat4, v: seq<real>): (r: seq<real>)
    requires 5 <= |v|
    ensures |r| == |v|
  {
    var p := Apply(viewport, Vec4(v[0], v[1], 1.0, 1.0));
    [Round(p.x) as real, Round(p.y) as real, v[2], v[|v| - 1]] + v[4..]
  }

  /**
   * Under the viewport for a `width` by `height` target the screen vertex
   * holds the pixel column and row of the point, its depth, its 1/w and its
   * attributes.
   */
  lemma ScreenVertexSlots(width: int, height: int, v: seq<real>)
    requires 5 <= |v|
    ensures var r := ScreenVertex(Viewport(width, height), v);
            r[0] == Round(width as real * (v[0] + 1.0) / 2.0) as real &&
            r[1] == Round(height as real * (1.0 - v[1]) / 2.0) as real &&
            r[2] == v[2] && r[3] == v[|v| - 1] && r[4..] == v[4..]
  {
    var p := Apply(Viewport(width, height), Vec4(v[0], v[1], 1.0, 1.0));
    ViewportMaps(width, height, v[0], v[1], 1.0);
    assert p.x == width as real * (v[0] + 1.0) / 2.0;
    assert p.y == height as real * (1.0 - v[1]) / 2.0;
    assert ScreenVertex(Viewport(width, height), v) == [Round(p.x) as real, Round(p.y) as real, v[2], v[|v| - 1]] + v[4..];
  }

  /**
   * A vertex on the corner (1, -1) of the view volume survives clipping, yet
   * it lands on column `width` and row `height`, one past the last pixel of
   * the target in both directions.
   */
  lemma CornerPixelOutsideTarget(width: int, height: int, z: real, rest: seq<real>)
    requires 0 <= width && 0 <= height && -1.0 <= z <= 1.0 && 1 <= |rest|
    ensures InsideFrustum([1.0, -1.0, z, 1.0] + rest, 0)
    ensures var r := ScreenVertex(Viewport(width, height), [1.0, -1.0, z, 1.0] + rest);
            r[0] == width as real && r[1] == height as real
  {
    var v := [1.0, -1.0, z, 1.0] + rest;
    assert v[0] == 1.0 && v[1] == -1.0 && v[2] == z && v[3] == 1.0;
    ScreenVertexSlots(width, height, v);
    assert width as real * (v[0] + 1.0) / 2.0 == width as real;
    assert height as real * (1.0 - v[1]) / 2.0 == height as real;
    RoundWhole(width);
    RoundWhole(height);
  }

  /** A whole number from zero up rounds to itself. */
  lemma RoundWhole(n: int)
    requires 0 <= n
    ensures Round(n as real) == n
  {
    assert n as real <= n as real + 0.5 < (n + 1) as real;
  }

  // ---------------------------------------------------------------------
  // Triangle setup
  // ---------------------------------------------------------------------

  /** The three conditional swaps: the same three vertices, ordered by their y (slot 1). */
  method SortByY(a: seq<real>, b: seq<real>, c: seq<real>) returns (v0: seq<real>, v1: seq<real>, v2: seq<real>)
    requires 2 <= |a| && 2 <= |b| && 2 <= |c|
    ensures 2 <= |v0| && 2 <= |v1| && 2 <= |v2|
    ensures v0[1] <= v1[1] <= v2[1]
    ensures multiset{v0, v1, v2} == multiset{a, b, c}
  {
    v0, v1, v2 := a, b, c;
    if v0[1] > v1[1] {
      v0, v1 := v1, v0;
    }
    if v0[1] > v2[1] {
      v0, v2 := v2, v0;
    }
    if v1[1] > v2[1] {
      v1, v2 := v2, v1;
    }
  }

  /** The three edges a triangle's scanline bounds can follow: v0v1, v0v2 and v1v2. */
  datatype Edge = V0V1 | V0V2 | V1V2

  /** The edges the start and the end of the scanline follow when they are incremented. */
  datatype Increments = Increments(start: Edge, end: Edge)

  /** Positive when v1 lies on the right of the edge from v0 to v2 (z of the screen-plane cross product). */
  function RightSide(x0: real, y0: real, x1: real, y1: real, x2: real, y2: real): real
  {
    Cross(Vec3(x1 - x0, y1 - y0, 0.0), Vec3(x2 - x0, y2 - y0, 0.0)).z
  }

  /** The start/end edges chosen before the first scanline when the triangle has no flat top. */
  function InitialEdges(right: bool): Increments
  {
    if right then Increments(V0V2, V0V1) else Increments(V0V1, V0V2)
  }

  /**
   * The edge bookkeeping of the scanline loop for a y-sorted triangle with
   * rows `y0 .. y2`: entry `k` names the edges along which start and end are
   * incremented after row `y0 + k`. Below row `y1` the bounds follow v0v1 and
   * v0v2; the switch to v1v2 happens on row `y1` before the increment, so from
   * row `y1` on no bound follows v0v1 any more.
   */
  method EdgeSchedule(x0: real, y0: int, x1: real, y1: int, x2: real, y2: int) returns (rows: seq<Increments>)
    requires y0 <= y1 <= y2
    ensures |rows| == y2 - y0 + 1
    ensures var right := RightSide(x0, y0 as real, x1, y1 as real, x2, y2 as real) > 0.0;
            forall k :: 0 <= k < y1 - y0 ==> rows[k] == InitialEdges(right)
    ensures var right := RightSide(x0, y0 as real, x1, y1 as real, x2, y2 as real) > 0.0;
            forall k :: y1 - y0 <= k < |rows| ==>
              rows[k].start != V0V1 && rows[k].end != V0V1 &&
              (if right then rows[k].end == V1V2 else rows[k].start == V1V2)
    ensures var right := RightSide(x0, y0 as real, x1, y1 as real, x2, y2 as real) > 0.0;
            y0 < y1 ==> forall k :: y1 - y0 <= k < |rows| ==>
              if right then rows[k].start == V0V2 else rows[k].end == V0V2
  {
    var right := RightSide(x0, y0 as real, x1, y1 as real, x2, y2 as real) > 0.0;
    var start, end := InitialEdges(right).start, InitialEdges(right).end;
    // the bound that v1v2 replaces: the end when v1 is on the right
    var nextIsEnd := right;
    if y0 == y1 {
      if x0 < x1 {
        end := V1V2;
      } else {
        start := V1V2;
      }
    }
    rows := [];
    var y := y0;
    while y <= y2
      invariant y0 <= y <= y2 + 1
      invariant |rows| == y - y0
      invariant right ==> start != V0V1
      invariant !right ==> end != V0V1
      invariant y0 < y1 && y <= y1 ==> Increments(start, end) == InitialEdges(right)
      invariant y > y1 ==> if right then end == V1V2 else start == V1V2
      invariant y0 < y1 ==> if right then start == V0V2 else end == V0V2
      invariant forall k :: 0 <= k < |rows| && k < y1 - y0 ==> rows[k] == InitialEdges(right)
      invariant forall k :: y1 - y0 <= k < |rows| ==>
                  rows[k].start != V0V1 && rows[k].end != V0V1 &&
                  (if right then rows[k].end == V1V2 else rows[k].start == V1V2) &&
                  (y0 < y1 ==> if right then rows[k].start == V0V2 else rows[k].end == V0V2)
    {
      if y == y1 {
        if nextIsEnd {
          end := V1V2;
        } else {
          start := V1V2;
        }
      }
      rows := rows + [Increments(start, end)];
      y := y + 1;
    }
  }

  // ---------------------------------------------------------------------
  // Colour conversion
  // ---------------------------------------------------------------------

  /** A C cast of a float to `int`: the fraction is dropped toward zero. */
  function Trunc(x: real): (r: int)
    ensures 0.0 <= x ==> r as real <= x < r as real + 1.0
    ensures x < 0.0 ==> r as real - 1.0 < x <= r as real
  {
    if x >= 0.0 then x.Floor else -((-x).Floor)
  }

  /** `std::min` on the integer channel: the smaller argument. */
  function Min(a: int, b: int): (r: int)
    ensures r <= a && r <= b && (r == a || r == b)
  {
    if a < b then a else b
  }

  /** The larger of two integers, for the lower clamp of the corrected channel. */
  function Max(a: int, b: int): int { if a < b then b else a }

  /**
   * One channel as written: scale to 0..255, cut toward zero, take the
   * smaller of that and 255, and store the `int` in an unsigned byte, which
   * keeps it modulo 256.
   */
  function ChannelAsWritten(c: real): byte
  {
    (Min(255, Trunc(c * 255.0)) % 256) as byte
  }

  /** One channel clamped from both sides: scale to 0..255, cut toward zero, and keep it within 0..255. */
  function Channel(c: real): byte
  {
    Max(0, Min(255, Trunc(c * 255.0))) as byte
  }

  /** A slightly negative channel, which the upper clamp lets through, wraps around to a nearly full byte. */
  lemma NegativeChannelWraps()
    ensures ChannelAsWritten(-0.01) == 254
    ensures Channel(-0.01) == 0
  {
    assert -0.01 * 255.0 == -2.55;
    assert (2.55).Floor == 2;
  }

  /** The two conversions agree on every non-negative channel. */
  lemma ChannelAgreesWhenNonNegative(c: real)
    requires 0.0 <= c
    ensures ChannelAsWritten(c) == Channel(c)
  {
  }

  /** The clamped conversion: 0 below zero, 255 from one up, and the whole part of `c * 255` in between; never decreasing. */
  lemma ChannelRange(c: real, d: real)
    ensures c <= 0.0 ==> Channel(c) == 0
    ensures 1.0 <= c ==> Channel(c) == 255
    ensures 0.0 <= c <= 1.0 ==> Channel(c) as int == (c * 255.0).Floor
    ensures c <= d ==> Channel(c) <= Channel(d)
  {
    if c <= d {
      assert c * 255.0 <= d * 255.0;
      TruncMonotone(c * 255.0, d * 255.0);
    }
    if 1.0 <= c {
      assert 255.0 <= c * 255.0;
    }
    if c <= 0.0 {
      assert c * 255.0 <= 0.0;
    }
  }

  /** Cutting toward zero keeps the order of its arguments. */
  lemma TruncMonotone(x: real, y: real)
    requires x <= y
    ensures Trunc(x) <= Trunc(y)
  {
    if y < 0.0 {
      assert (-y).Floor <= (-x).Floor;
    } else if 0.0 <= x {
      assert x.Floor <= y.Floor;
    }
  }

  /** A shaded colour converted to a pixel channel by channel, as the code writes it. */
  function ToPixel(c: Vec4): RGBA8
  {
    RGBA8(ChannelAsWritten(c.x), ChannelAsWritten(c.y), ChannelAsWritten(c.z), ChannelAsWritten(c.w))
  }

  // ---------------------------------------------------------------------
  // Depth test and colour write
  // ---------------------------------------------------------------------

  /** A shaded fragment: its depth and the colour the fragment shader returned for it. */
  datatype Fragment = Fragment(depth: real, color: Vec4)

  /** Cell `k` is the cell the accessors reach for pixel (y, x). */
  predicate Covers(fb: Framebuffer, y: int, x: int, k: int)
    reads fb
    requires fb.Valid()
  {
    fb.InBuffer(y, x) && fb.Cell(y, x) == k
  }

  /**
   * The early depth test and colour write for one fragment at pixel (y, x),
   * on the cell `y * w + x` the accessors index: the cell takes the
   * fragment's depth and colour exactly when the fragment is strictly
   * nearer; every other cell keeps its depth and colour. A pixel whose cell
   * lies outside the buffers is beyond what the accessors may touch, and
   * the model leaves the target unchanged for it.
   */
  method ShadeFragment(fb: Framebuffer, y: int, x: int, f: Fragment)
    requires fb.Valid()
    modifies fb.color, fb.depth
    ensures fb.depth != null ==> forall k :: 0 <= k < fb.depth.Length ==>
              fb.depth[k] == if Covers(fb, y, x, k) && f.depth < old(fb.depth[k]) then f.depth else old(fb.depth[k])
    ensures fb.color != null ==> forall k :: 0 <= k < fb.color.Length ==>
              fb.color[k] == if Covers(fb, y, x, k) && f.depth < old(fb.depth[k]) then ToPixel(f.color) else old(fb.color[k])
  {
    if fb.InBuffer(y, x) {
      if f.depth < fb.GetDepthBuffer(y, x) {
        fb.SetDepthBuffer(y, x, f.depth);
        fb.SetColorBuffer(y, x, ToPixel(f.color));
      }
    }
  }

  /**
   * Column `w` of any row but the last is not a pixel of the target, yet its
   * cell is that of the first pixel of the next row, so a fragment there is
   * depth-tested against, and written over, pixel (y + 1, 0).
   */
  lemma ColumnPastRowWraps(fb: Framebuffer, y: int)
    requires fb.Valid() && 0 <= y < fb.h - 1 && 0 < fb.w
    ensures !fb.InBounds(y, fb.w) && fb.InBounds(y + 1, 0)
    ensures fb.InBuffer(y, fb.w) && fb.InBuffer(y + 1, 0) && fb.Cell(y, fb.w) == fb.Cell(y + 1, 0)
  {
    fb.InBoundsInBuffer(y + 1, 0);
    assert y * fb.w + fb.w == (y + 1) * fb.w;
  }

  /** The corner pixel (h, w) of a non-empty target has its cell past the end of the buffers. */
  lemma CornerCellOutsideBuffer(fb: Framebuffer)
    requires fb.Valid() && 0 < fb.w
    ensures !fb.InBuffer(fb.h, fb.w)
  {
    assert fb.h * fb.w + fb.w > fb.w * fb.h;
  }

  /**
   * The depth test and colour write restricted to pixels of the target: a
   * fragment inside the target lowers the depth of its own pixel to the
   * nearer of the two, paints it when it is strictly nearer, and changes no
   * other pixel; a fragment outside the
   * target changes nothing.
   */
  method ShadeFragmentInTarget(fb: Framebuffer, y: int, x: int, f: Fragment)
    requires fb.Valid()
    modifies fb.color, fb.depth
    ensures fb.InBounds(y, x) ==>
              fb.InBuffer(y, x) && fb.GetDepthBuffer(y, x) == RealMin(old(fb.GetDepthBuffer(y, x)), f.depth)
    ensures fb.InBounds(y, x) ==>
              fb.InBuffer(y, x) &&
              fb.color[fb.Cell(y, x)] == if f.depth < old(fb.GetDepthBuffer(y, x)) then ToPixel(f.color) else old(fb.color[fb.Cell(y, x)])
    ensures forall i, j :: fb.InBounds(i, j) && !(i == y && j == x) ==>
              fb.InBuffer(i, j) && fb.GetDepthBuffer(i, j) == old(fb.GetDepthBuffer(i, j)) &&
              fb.color[fb.Cell(i, j)] == old(fb.color[fb.Cell(i, j)])
    ensures !fb.InBounds(y, x) && fb.depth != null ==> forall k :: 0 <= k < fb.depth.Length ==> fb.depth[k] == old(fb.depth[k])
    ensures !fb.InBounds(y, x) && fb.color != null ==> forall k :: 0 <= k < fb.color.Length ==> fb.color[k] == old(fb.color[k])
  {
    if fb.InBounds(y, x) {
      fb.InBoundsInBuffer(y, x);
      ShadeFragment(fb, y, x, f);
    }
    forall i, j | fb.InBounds(i, j) && !(i == y && j == x)
      ensures fb.InBuffer(i, j) && fb.GetDepthBuffer(i, j) == old(fb.GetDepthBuffer(i, j)) &&
              fb.color[fb.Cell(i, j)] == old(fb.color[fb.Cell(i, j)])
    {
      fb.InBoundsInBuffer(i, j);
      if fb.InBounds(y, x) {
        OtherPixelOtherCell(fb, y, x, i, j);
      }
      var k := fb.Cell(i, j);
      assert fb.depth[k] == old(fb.depth[k]);
      assert fb.color[k] == old(fb.color[k]);
    }
  }

  /** Another pixel of the target is not covered by a fragment at pixel (y, x) of the target. */
  lemma OtherPixelOtherCell(fb: Framebuffer, y: int, x: int, i: int, j: int)
    requires fb.Valid() && fb.InBounds(y, x) && fb.InBounds(i, j) && !(i == y && j == x)
    ensures fb.InBuffer(i, j) && !Covers(fb, y, x, fb.Cell(i, j))
  {
    fb.CellInjective(i, j, y, x);
  }

  /** Pixel `x` of the span `s .. e` is drawn: every pixel when filling, only the two ends otherwise. */
  predicate Drawn(fill: bool, s: int, e: int, x: int)
  {
    s <= x <= e && (fill || x == s || x == e)
  }

  /**
   * How many times the code has added the horizontal step to the fragment
   * when it reaches column `x` of a span starting at `s`: the step follows
   * each drawn pixel only, so when the span is not filled, the skipped
   * columns add nothing and every column after `s` has seen one step.
   */
  function IncrementsBefore(fill: bool, s: int, x: int): nat
    requires s <= x
  {
    if fill || x == s then x - s else 1
  }

  /**
   * One scanline: the fragments of the drawn pixels of row `y` go through the
   * depth test in turn, the fragment at column `x` being the one reached
   * after `IncrementsBefore(fill, s, x)` steps. Depths never grow, the cell
   * of a drawn pixel ends at the nearer of its old depth and its fragment's,
   * every other cell is untouched, and a cell's colour changes only where
   * its depth went down, to the colour of the fragment that lowered it.
   */
  method DrawScanline(fb: Framebuffer, y: int, s: int, e: int, fill: bool, frag: nat -> Fragment)
    requires fb.Valid()
    modifies fb.color, fb.depth
    ensures fb.depth != null ==> forall k :: 0 <= k < fb.depth.Length ==> fb.depth[k] <= old(fb.depth[k])
    ensures forall x :: Drawn(fill, s, e, x) && fb.InBuffer(y, x) ==>
              fb.GetDepthBuffer(y, x) == RealMin(old(fb.GetDepthBuffer(y, x)), frag(IncrementsBefore(fill, s, x)).depth)
    ensures fb.depth != null ==> forall k :: 0 <= k < fb.depth.Length && !Drawn(fill, s, e, k - y * fb.w) ==>
              fb.depth[k] == old(fb.depth[k])
    ensures fb.color != null && fb.depth != null ==> forall k :: 0 <= k < fb.color.Length && fb.color[k] != old(fb.color[k]) ==>
              fb.depth[k] < old(fb.depth[k])
    ensures forall x :: Drawn(fill, s, e, x) && fb.InBuffer(y, x) ==>
              fb.color[fb.Cell(y, x)] ==
                if frag(IncrementsBefore(fill, s, x)).depth < old(fb.GetDepthBuffer(y, x))
                then ToPixel(frag(IncrementsBefore(fill, s, x)).color)
                else old(fb.color[fb.Cell(y, x)])
  {
    if fb.depth == null {
      return;
    }
    ghost var d0, c0 := fb.depth[..], fb.color[..];
    var x := s;
    var steps: nat := 0;
    while x <= e
      invariant s <= x || e < s
      invariant x <= e ==> steps == IncrementsBefore(fill, s, x)
      invariant fb.Valid()
      invariant ScanlineCells(fb, y, s, e, fill, frag, x, d0, c0)
    {
      if !fill && x != s && x != e {
        ScanlineSkip(fb, y, s, e, fill, frag, x, d0, c0);
        x := x + 1;
        continue;
      }
      ShadeColumn(fb, y, s, e, fill, frag, x, steps, d0, c0);
      steps := steps + 1;
      x := x + 1;
    }
    ScanlineOutcome(fb, y, s, e, fill, frag, x, d0, c0);
  }

  /**
   * The cells of the target once the pixels of row `y` drawn before column
   * `x` went through the depth test, from depths `d0` and colours `c0`: a
   * cell whose pixel is one of them and whose fragment is strictly nearer
   * holds that fragment's depth and colour, and every other cell its old ones.
   */
  predicate ScanlineCells(fb: Framebuffer, y: int, s: int, e: int, fill: bool, frag: nat -> Fragment, x: int,
                          d0: seq<real>, c0: seq<RGBA8>)
    reads fb, fb.depth, fb.color
    requires fb.Valid()
  {
    fb.depth != null && |d0| == |c0| == fb.depth.Length &&
    forall k :: 0 <= k < fb.depth.Length ==>
      var hit := Drawn(fill, s, e, k - y * fb.w) && k - y * fb.w < x &&
                 frag(IncrementsBefore(fill, s, k - y * fb.w)).depth < d0[k];
      fb.depth[k] == (if hit then frag(IncrementsBefore(fill, s, k - y * fb.w)).depth else d0[k]) &&
      fb.color[k] == (if hit then ToPixel(frag(IncrementsBefore(fill, s, k - y * fb.w)).color) else c0[k])
  }

  /**
   * The depth test of the drawn pixel at column `x` with the fragment reached
   * after `steps` increments, which extends the cells of the scanline by that column.
   */
  method ShadeColumn(fb: Framebuffer, y: int, s: int, e: int, fill: bool, frag: nat -> Fragment, x: int, steps: nat,
                     ghost d0: seq<real>, ghost c0: seq<RGBA8>)
    requires fb.Valid() && Drawn(fill, s, e, x) && steps == IncrementsBefore(fill, s, x)
    requires ScanlineCells(fb, y, s, e, fill, frag, x, d0, c0)
    modifies fb.color, fb.depth
    ensures fb.Valid() && ScanlineCells(fb, y, s, e, fill, frag, x + 1, d0, c0)
  {
    ShadeFragment(fb, y, x, frag(steps));
  }

  /** A column that is not drawn leaves the cells of the scanline as they are. */
  lemma ScanlineSkip(fb: Framebuffer, y: int, s: int, e: int, fill: bool, frag: nat -> Fragment, x: int,
                     d0: seq<real>, c0: seq<RGBA8>)
    requires fb.Valid() && !Drawn(fill, s, e, x) && ScanlineCells(fb, y, s, e, fill, frag, x, d0, c0)
    ensures ScanlineCells(fb, y, s, e, fill, frag, x + 1, d0, c0)
  {
  }

  /**
   * Once the whole span has gone through the depth test, pixel by pixel:
   * depths only go down, a drawn pixel holds the nearer of its old depth and
   * its fragment's, and the colour of its fragment when that one is strictly
   * nearer; a cell off the drawn pixels keeps its depth, and a colour changes
   * only where the depth went down.
   */
  lemma ScanlineOutcome(fb: Framebuffer, y: int, s: int, e: int, fill: bool, frag: nat -> Fragment, x: int,
                        d0: seq<real>, c0: seq<RGBA8>)
    requires fb.Valid() && e < x && ScanlineCells(fb, y, s, e, fill, frag, x, d0, c0)
    ensures forall k :: 0 <= k < fb.depth.Length ==> fb.depth[k] <= d0[k]
    ensures forall x' :: Drawn(fill, s, e, x') && fb.InBuffer(y, x') ==>
              fb.GetDepthBuffer(y, x') == RealMin(d0[fb.Cell(y, x')], frag(IncrementsBefore(fill, s, x')).depth)
    ensures forall k :: 0 <= k < fb.depth.Length && !Drawn(fill, s, e, k - y * fb.w) ==> fb.depth[k] == d0[k]
    ensures forall k :: 0 <= k < fb.color.Length && fb.color[k] != c0[k] ==> fb.depth[k] < d0[k]
    ensures forall x' :: Drawn(fill, s, e, x') && fb.InBuffer(y, x') ==>
              fb.color[fb.Cell(y, x')] ==
                if frag(IncrementsBefore(fill, s, x')).depth < d0[fb.Cell(y, x')]
                then ToPixel(frag(IncrementsBefore(fill, s, x')).color)
                else c0[fb.Cell(y, x')]
  {
    forall x' | Drawn(fill, s, e, x') && fb.InBuffer(y, x')
      ensures fb.GetDepthBuffer(y, x') == RealMin(d0[fb.Cell(y, x')], frag(IncrementsBefore(fill, s, x')).depth)
      ensures fb.color[fb.Cell(y, x')] ==
                if frag(IncrementsBefore(fill, s, x')).depth < d0[fb.Cell(y, x')]
                then ToPixel(frag(IncrementsBefore(fill, s, x')).color)
                else c0[fb.Cell(y, x')]
    {
      assert fb.Cell(y, x') - y * fb.w == x';
    }
  }

  /**
   * When the span is not filled, its end is reached after a single step: on
   * the span from column 0 to column 2 of a one-slot fragment going from 0
   * to 2, the fragment tested at the end is 1, the value of column 1, and
   * not the end value 2.
   */
  lemma OutlineEndFragmentAsWritten()
    ensures var start, end, s, e := [0.0], [2.0], 0, 2;
            var step := ScaleV(SubV(end, start), 1.0 / ((e - s) as real));
            IncrementsBefore(false, s, e) == 1 &&
            Steps(start, step, IncrementsBefore(false, s, e)) == [1.0] != end
  {
    var start, end := [0.0], [2.0];
    var step := ScaleV(SubV(end, start), 1.0 / 2.0);
    assert step == [1.0];
    assert Steps(start, step, 1) == AddV(start, step);
  }

  /**
   * Stepping once per column, drawn or skipped, the fragment at the end of
   * a span `s .. e` is the end vertex whether or not the span is filled:
   * `e - s` steps of `(end - start) / (e - s)` from the start.
   */
  lemma SpanEndReachesEnd(start: seq<real>, end: seq<real>, s: int, e: int)
    requires |start| == |end| && s < e
    ensures Steps(start, ScaleV(SubV(end, start), 1.0 / ((e - s) as real)), e - s) == end
  {
    StepsReachEnd(start, end, e - s);
  }

  /** The nearer of two depths, the one a strict depth test keeps. */
  function RealMin(a: real, b: real): real { if a <= b then a else b }
}
