/**
 * The mesh helpers: the directory prefix of an .obj path, the bounding box
 * and centering transform of the loaded positions, and the loop that
 * flattens the loader's indexed faces into the `pos` and `uv` arrays.
 */
module Mesh {
  import opened Matrix

  // ---------------------------------------------------------------------
  // basedir_from_path
  // ---------------------------------------------------------------------

  /** Number of values of a 64-bit `std::size_t`. */
  const SizeRange: int := 0x1_0000_0000_0000_0000

  /** `std::string::npos`, the largest `size_t`. */
  const NPos: int := SizeRange - 1

  /** `std::string::find_last_of(c)`: the last position holding `c`, or `npos`. */
  function FindLastOf(s: string, c: char): (r: int)
    requires |s| < NPos
    ensures r == NPos <==> c !in s
    ensures r != NPos ==> 0 <= r < |s| && s[r] == c && c !in s[r + 1..]
  {
    if |s| == 0 then NPos
    else if s[|s| - 1] == c then |s| - 1
    else
      var r := FindLastOf(s[..|s| - 1], c);
      assert s == s[..|s| - 1] + [s[|s| - 1]];
      assert r != NPos ==> s[r + 1..] == s[..|s| - 1][r + 1..] + [s[|s| - 1]];
      r
  }

  /**
   * `basedir_from_path`: `substr(0, found + 1)` where `found + 1` is computed
   * in `size_t`, so `npos + 1` wraps to 0. The result is the prefix of the
   * path up to and including its last '/', and empty when there is none.
   */
  function BasedirFromPath(path: string): (r: string)
    requires |path| < NPos
    ensures |r| <= |path| && r == path[..|r|]
    ensures '/' in path ==> 0 < |r| && r[|r| - 1] == '/'
    ensures '/' !in path[|r|..]
    ensures '/' !in path ==> r == []
  {
    var found := FindLastOf(path, '/');
    var count := (found + 1) % SizeRange;
    path[..if count < |path| then count else |path|]
  }

  // ---------------------------------------------------------------------
  // transform_to_center: the bounding box
  // ---------------------------------------------------------------------

  /** `FLT_MAX`, the start value of the running minimum (and, negated, maximum). */
  const FltMax: real := 340282346638528859811704183484516925440.0

  /** `std::min(a, b)`: `b` only when it is strictly smaller. */
  function MinF(a: real, b: real): real { if b < a then b else a }

  /** `std::max(a, b)`: `b` only when `a` is strictly smaller. */
  function MaxF(a: real, b: real): real { if a < b then b else a }

  /** Axis `j` of vertex `v` of a flat position array. */
  function Coord(pos: seq<real>, v: int, j: int): real
    requires 0 <= v && 0 <= j < 3 && 3 * v + j < |pos|
  {
    pos[3 * v + j]
  }

  /** The running minimum on axis `j` after the first `n` vertices. */
  function MinAxis(pos: seq<real>, j: int, n: nat): real
    requires 0 <= j < 3 && 3 * n <= |pos|
  {
    if n == 0 then FltMax else MinF(MinAxis(pos, j, n - 1), Coord(pos, n - 1, j))
  }

  /** The running maximum on axis `j` after the first `n` vertices. */
  function MaxAxis(pos: seq<real>, j: int, n: nat): real
    requires 0 <= j < 3 && 3 * n <= |pos|
  {
    if n == 0 then -FltMax else MaxF(MaxAxis(pos, j, n - 1), Coord(pos, n - 1, j))
  }

  /** The box corner of least coordinates over all vertices. */
  function BoxMin(pos: seq<real>): Vec3
    requires |pos| % 3 == 0
  {
    Vec3(MinAxis(pos, 0, |pos| / 3), MinAxis(pos, 1, |pos| / 3), MinAxis(pos, 2, |pos| / 3))
  }

  /** The box corner of greatest coordinates over all vertices. */
  function BoxMax(pos: seq<real>): Vec3
    requires |pos| % 3 == 0
  {
    Vec3(MaxAxis(pos, 0, |pos| / 3), MaxAxis(pos, 1, |pos| / 3), MaxAxis(pos, 2, |pos| / 3))
  }

  /** The running bounds enclose every vertex seen so far. */
  lemma {:induction false} AxisBounds(pos: seq<real>, j: int, n: nat)
    requires 0 <= j < 3 && 3 * n <= |pos|
    ensures forall v :: 0 <= v < n ==> MinAxis(pos, j, n) <= Coord(pos, v, j) <= MaxAxis(pos, j, n)
  {
    if n > 0 {
      AxisBounds(pos, j, n - 1);
    }
  }

  /** Each running bound is a coordinate actually seen, unless no vertex beat the start value. */
  lemma {:induction false} AxisAttained(pos: seq<real>, j: int, n: nat)
    requires 0 <= j < 3 && 3 * n <= |pos|
    ensures MinAxis(pos, j, n) == FltMax || exists v :: 0 <= v < n && MinAxis(pos, j, n) == Coord(pos, v, j)
    ensures MaxAxis(pos, j, n) == -FltMax || exists v :: 0 <= v < n && MaxAxis(pos, j, n) == Coord(pos, v, j)
  {
    if n > 0 {
      AxisAttained(pos, j, n - 1);
    }
  }

  /** Replaces axis `j` of `v`, as `min(j) = ...` does. */
  function WithAxis(v: Vec3, j: int, a: real): (r: Vec3)
    requires 0 <= j < 3
    ensures r.At(j) == a && forall k :: 0 <= k < 3 && k != j ==> r.At(k) == v.At(k)
  {
    if j == 0 then Vec3(a, v.y, v.z) else if j == 1 then Vec3(v.x, a, v.z) else Vec3(v.x, v.y, a)
  }

  /**
   * The bounding-box loop of `transform_to_center`: one pass over the vertex
   * triples keeping a running minimum and maximum per axis. The result
   * encloses every vertex.
   */
  method BoundingBox(pos: seq<real>) returns (mn: Vec3, mx: Vec3)
    requires |pos| % 3 == 0
    ensures mn == BoxMin(pos) && mx == BoxMax(pos)
    ensures forall v, j :: 0 <= v < |pos| / 3 && 0 <= j < 3 ==> mn.At(j) <= Coord(pos, v, j) <= mx.At(j)
  {
    mn := Vec3(FltMax, FltMax, FltMax);
    mx := Vec3(-FltMax, -FltMax, -FltMax);
    var t := 0;
    while t < |pos|
      invariant 0 <= t <= |pos| && t % 3 == 0
      invariant forall j :: 0 <= j < 3 ==> mn.At(j) == MinAxis(pos, j, t / 3) && mx.At(j) == MaxAxis(pos, j, t / 3)
    {
      var n := t / 3;
      for j := 0 to 3
        invariant forall k :: 0 <= k < j ==> mn.At(k) == MinAxis(pos, k, n + 1) && mx.At(k) == MaxAxis(pos, k, n + 1)
        invariant forall k :: j <= k < 3 ==> mn.At(k) == MinAxis(pos, k, n) && mx.At(k) == MaxAxis(pos, k, n)
      {
        assert pos[t + j] == Coord(pos, n, j);
        mn := WithAxis(mn, j, MinF(mn.At(j), pos[t + j]));
        mx := WithAxis(mx, j, MaxF(mx.At(j), pos[t + j]));
      }
      t := t + 3;
    }
    forall j | 0 <= j < 3
      ensures forall v :: 0 <= v < |pos| / 3 ==> mn.At(j) <= Coord(pos, v, j) <= mx.At(j)
    {
      AxisBounds(pos, j, |pos| / 3);
    }
  }

  // ---------------------------------------------------------------------
  // transform_to_center: the centering matrix
  // ---------------------------------------------------------------------

  /** The distance of the frustum's mid depth from the eye: halfway between near 1 and far 10. */
  const MidDepth: real := 5.5

  /** The centre of the box, `(min + max) * 0.5`. */
  function Center(mn: Vec3, mx: Vec3): Vec3 { Scale3(Add3(mn, mx), 0.5) }

  /** `to_origin`: the translation by minus the centre. */
  function ToOrigin(c: Vec3): Mat4
  {
    Columns(Vec4(1.0, 0.0, 0.0, 0.0), Vec4(0.0, 1.0, 0.0, 0.0),
            Vec4(0.0, 0.0, 1.0, 0.0), Vec4(-c.x, -c.y, -c.z, 1.0))
  }

  /** `scale`: the uniform scaling by `s`. */
  function UniformScale(s: real): Mat4
  {
    Columns(Vec4(s, 0.0, 0.0, 0.0), Vec4(0.0, s, 0.0, 0.0),
            Vec4(0.0, 0.0, s, 0.0), Vec4(0.0, 0.0, 0.0, 1.0))
  }

  /** `from_origin`: the translation to depth -5.5. */
  function FromOrigin(): Mat4
  {
    Columns(Vec4(1.0, 0.0, 0.0, 0.0), Vec4(0.0, 1.0, 0.0, 0.0),
            Vec4(0.0, 0.0, 1.0, 0.0), Vec4(0.0, 0.0, -MidDepth, 1.0))
  }

  /**
   * `from_origin * scale * to_origin`: move the box centre to the origin,
   * scale uniformly by `1 / (max.x - min.x)`, then push it to depth -5.5.
   */
  function Centering(mn: Vec3, mx: Vec3): Mat4
    requires mx.x - mn.x != 0.0
  {
    Product(Product(FromOrigin(), UniformScale(1.0 / (mx.x - mn.x))), ToOrigin(Center(mn, mx)))
  }

  /** `to_origin` subtracts the centre from a point. */
  lemma ToOriginMaps(c: Vec3, x: real, y: real, z: real)
    ensures Apply(ToOrigin(c), Vec4(x, y, z, 1.0)) == Vec4(x - c.x, y - c.y, z - c.z, 1.0)
  {
    ApplyColumns(Vec4(1.0, 0.0, 0.0, 0.0), Vec4(0.0, 1.0, 0.0, 0.0),
                 Vec4(0.0, 0.0, 1.0, 0.0), Vec4(-c.x, -c.y, -c.z, 1.0), Vec4(x, y, z, 1.0));
  }

  /** `scale` multiplies a point's coordinates by `s`. */
  lemma UniformScaleMaps(s: real, x: real, y: real, z: real)
    ensures Apply(UniformScale(s), Vec4(x, y, z, 1.0)) == Vec4(s * x, s * y, s * z, 1.0)
  {
    ApplyColumns(Vec4(s, 0.0, 0.0, 0.0), Vec4(0.0, s, 0.0, 0.0),
                 Vec4(0.0, 0.0, s, 0.0), Vec4(0.0, 0.0, 0.0, 1.0), Vec4(x, y, z, 1.0));
  }

  /** `from_origin` moves a point 5.5 units along -z. */
  lemma FromOriginMaps(x: real, y: real, z: real)
    ensures Apply(FromOrigin(), Vec4(x, y, z, 1.0)) == Vec4(x, y, z - MidDepth, 1.0)
  {
    ApplyColumns(Vec4(1.0, 0.0, 0.0, 0.0), Vec4(0.0, 1.0, 0.0, 0.0),
                 Vec4(0.0, 0.0, 1.0, 0.0), Vec4(0.0, 0.0, -MidDepth, 1.0), Vec4(x, y, z, 1.0));
  }

  /** The centering matrix scales offsets from the centre by `1 / width` and lands the centre on depth -5.5. */
  lemma CenteringMaps(mn: Vec3, mx: Vec3, x: real, y: real, z: real)
    requires mx.x - mn.x != 0.0
    ensures var c, s := Center(mn, mx), 1.0 / (mx.x - mn.x);
            Apply(Centering(mn, mx), Vec4(x, y, z, 1.0))
            == Vec4(s * (x - c.x), s * (y - c.y), s * (z - c.z) - MidDepth, 1.0)
  {
    var c, s := Center(mn, mx), 1.0 / (mx.x - mn.x);
    var v := Vec4(x, y, z, 1.0);
    ApplyProduct(Product(FromOrigin(), UniformScale(s)), ToOrigin(c), v);
    ApplyProduct(FromOrigin(), UniformScale(s), Apply(ToOrigin(c), v));
    ToOriginMaps(c, x, y, z);
    UniformScaleMaps(s, x - c.x, y - c.y, z - c.z);
    FromOriginMaps(s * (x - c.x), s * (y - c.y), s * (z - c.z));
  }

  /** The box centre lands on (0, 0, -5.5), the middle of the assumed frustum. */
  lemma CenterToMidDepth(mn: Vec3, mx: Vec3)
    requires mx.x - mn.x != 0.0
    ensures Apply(Centering(mn, mx), Extend(Center(mn, mx), 1.0)) == Vec4(0.0, 0.0, -MidDepth, 1.0)
  {
    var c, s := Center(mn, mx), 1.0 / (mx.x - mn.x);
    CenteringMaps(mn, mx, c.x, c.y, c.z);
    assert Extend(c, 1.0) == Vec4(c.x, c.y, c.z, 1.0);
    assert s * (c.x - c.x) == 0.0 && s * (c.y - c.y) == 0.0 && s * (c.z - c.z) == 0.0;
  }

  /** The box's x-extent becomes exactly 1: the two x-faces map one unit apart. */
  lemma CenteringUnitWidth(mn: Vec3, mx: Vec3, y: real, z: real)
    requires mx.x - mn.x != 0.0
    ensures Apply(Centering(mn, mx), Vec4(mx.x, y, z, 1.0)).x
          - Apply(Centering(mn, mx), Vec4(mn.x, y, z, 1.0)).x == 1.0
  {
    var c, s := Center(mn, mx), 1.0 / (mx.x - mn.x);
    CenteringMaps(mn, mx, mx.x, y, z);
    CenteringMaps(mn, mx, mn.x, y, z);
    assert s * (mx.x - c.x) - s * (mn.x - c.x) == s * (mx.x - mn.x);
  }

  // ---------------------------------------------------------------------
  // load_geometry_data: the loader's data and its flattening
  // ---------------------------------------------------------------------

  /** A face corner: indices into the loader's vertex, normal and texcoord arrays. */
  datatype IndexT = IndexT(vertexIndex: int, normalIndex: int, texcoordIndex: int)

  /** A loaded shape: its face corners in order and the number of corners of each face. */
  datatype ShapeMesh = ShapeMesh(indices: seq<IndexT>, numFaceVertices: seq<nat>)

  /** The loader's attribute arrays: 3 floats per vertex, 3 per normal, 2 per texcoord. */
  datatype Attrib = Attrib(vertices: seq<real>, normals: seq<real>, texcoords: seq<real>)

  /** Number of corners of the first `n` faces: where face `n`'s corners start. */
  function FaceTotal(nfv: seq<nat>, n: nat): nat
    requires n <= |nfv|
  {
    if n == 0 then 0 else FaceTotal(nfv, n - 1) + nfv[n - 1]
  }

  /** Number of corners of all faces of a shape. */
  function ShapeCorners(s: ShapeMesh): nat
  {
    FaceTotal(s.numFaceVertices, |s.numFaceVertices|)
  }

  /** The corner's position (and texcoord, when there are any) can be read. */
  predicate ValidCorner(a: Attrib, v: IndexT)
  {
    0 <= v.vertexIndex && 3 * v.vertexIndex + 2 < |a.vertices| &&
    (|a.texcoords| > 0 ==> 0 <= v.texcoordIndex && 2 * v.texcoordIndex + 1 < |a.texcoords|)
  }

  /** The first `n` corners exist and can be read. */
  predicate ValidCorners(a: Attrib, idx: seq<IndexT>, n: nat)
  {
    n <= |idx| && forall k :: 0 <= k < n ==> ValidCorner(a, idx[k])
  }

  /** What the loader guarantees: every corner the faces use exists and can be read. */
  predicate WellFormedShape(s: ShapeMesh, a: Attrib)
  {
    ValidCorners(a, s.indices, ShapeCorners(s))
  }

  predicate WellFormed(shapes: seq<ShapeMesh>, a: Attrib)
  {
    forall i :: 0 <= i < |shapes| ==> WellFormedShape(shapes[i], a)
  }

  /** The position a corner contributes: its vertex's three floats. */
  function CornerPos(a: Attrib, v: IndexT): seq<real>
    requires ValidCorner(a, v)
  {
    [a.vertices[3 * v.vertexIndex], a.vertices[3 * v.vertexIndex + 1], a.vertices[3 * v.vertexIndex + 2]]
  }

  /** The texcoord a corner contributes: two floats, or nothing when the file has no texcoords. */
  function CornerUV(a: Attrib, v: IndexT): seq<real>
    requires ValidCorner(a, v)
  {
    if |a.texcoords| == 0 then [] else [a.texcoords[2 * v.texcoordIndex], a.texcoords[2 * v.texcoordIndex + 1]]
  }

  /** The positions of the first `n` corners, in corner order. */
  function FlatPos(a: Attrib, idx: seq<IndexT>, n: nat): seq<real>
    requires ValidCorners(a, idx, n)
  {
    if n == 0 then [] else FlatPos(a, idx, n - 1) + CornerPos(a, idx[n - 1])
  }

  /** The texcoords of the first `n` corners, in corner order. */
  function FlatUV(a: Attrib, idx: seq<IndexT>, n: nat): seq<real>
    requires ValidCorners(a, idx, n)
  {
    if n == 0 then [] else FlatUV(a, idx, n - 1) + CornerUV(a, idx[n - 1])
  }

  /** The positions `load_geometry_data` appends for the first `n` shapes. */
  function ShapesPos(shapes: seq<ShapeMesh>, a: Attrib, n: nat): seq<real>
    requires n <= |shapes| && WellFormed(shapes, a)
  {
    if n == 0 then [] else ShapesPos(shapes, a, n - 1) + FlatPos(a, shapes[n - 1].indices, ShapeCorners(shapes[n - 1]))
  }

  /** The texcoords `load_geometry_data` appends for the first `n` shapes. */
  function ShapesUV(shapes: seq<ShapeMesh>, a: Attrib, n: nat): seq<real>
    requires n <= |shapes| && WellFormed(shapes, a)
  {
    if n == 0 then [] else ShapesUV(shapes, a, n - 1) + FlatUV(a, shapes[n - 1].indices, ShapeCorners(shapes[n - 1]))
  }

  /** Number of corners of the first `n` shapes. */
  function CornerTotal(shapes: seq<ShapeMesh>, n: nat): nat
    requires n <= |shapes|
  {
    if n == 0 then 0 else CornerTotal(shapes, n - 1) + ShapeCorners(shapes[n - 1])
  }

  /** Three position floats per corner. */
  lemma {:induction false} FlatPosLength(a: Attrib, idx: seq<IndexT>, n: nat)
    requires ValidCorners(a, idx, n)
    ensures |FlatPos(a, idx, n)| == 3 * n
  {
    if n > 0 {
      FlatPosLength(a, idx, n - 1);
    }
  }

  /** Two texcoord floats per corner when the file has texcoords, none otherwise. */
  lemma {:induction false} FlatUVLength(a: Attrib, idx: seq<IndexT>, n: nat)
    requires ValidCorners(a, idx, n)
    ensures |FlatUV(a, idx, n)| == if |a.texcoords| == 0 then 0 else 2 * n
  {
    if n > 0 {
      FlatUVLength(a, idx, n - 1);
    }
  }

  /** `pos` grows by 3 floats per face corner. */
  lemma {:induction false} ShapesPosLength(shapes: seq<ShapeMesh>, a: Attrib, n: nat)
    requires n <= |shapes| && WellFormed(shapes, a)
    ensures |ShapesPos(shapes, a, n)| == 3 * CornerTotal(shapes, n)
  {
    if n > 0 {
      var s := shapes[n - 1];
      assert WellFormedShape(s, a);
      var flat := FlatPos(a, s.indices, ShapeCorners(s));
      assert ShapesPos(shapes, a, n) == ShapesPos(shapes, a, n - 1) + flat;
      ShapesPosLength(shapes, a, n - 1);
      FlatPosLength(a, s.indices, ShapeCorners(s));
    }
  }

  /** `uv` grows by 2 floats per face corner when the file has texcoords, and not at all otherwise. */
  lemma {:induction false} ShapesUVLength(shapes: seq<ShapeMesh>, a: Attrib, n: nat)
    requires n <= |shapes| && WellFormed(shapes, a)
    ensures |ShapesUV(shapes, a, n)| == if |a.texcoords| == 0 then 0 else 2 * CornerTotal(shapes, n)
  {
    if n > 0 {
      var s := shapes[n - 1];
      assert WellFormedShape(s, a);
      var flat := FlatUV(a, s.indices, ShapeCorners(s));
      assert ShapesUV(shapes, a, n) == ShapesUV(shapes, a, n - 1) + flat;
      ShapesUVLength(shapes, a, n - 1);
      FlatUVLength(a, s.indices, ShapeCorners(s));
    }
  }

  /** Corner `k`'s floats sit at offset `3 * k` of the flattened positions: the order of corners is kept. */
  lemma {:induction false} FlatPosAt(a: Attrib, idx: seq<IndexT>, n: nat, k: nat)
    requires ValidCorners(a, idx, n) && k < n
    ensures |FlatPos(a, idx, n)| == 3 * n
    ensures FlatPos(a, idx, n)[3 * k..3 * k + 3] == CornerPos(a, idx[k])
  {
    FlatPosLength(a, idx, n);
    FlatPosLength(a, idx, n - 1);
    if k < n - 1 {
      FlatPosAt(a, idx, n - 1, k);
      assert FlatPos(a, idx, n)[3 * k..3 * k + 3] == FlatPos(a, idx, n - 1)[3 * k..3 * k + 3];
    } else {
      assert FlatPos(a, idx, n)[3 * k..3 * k + 3] == CornerPos(a, idx[k]);
    }
  }

  /** Concatenation is associative: regroups `pos + earlier + corner` for FlatStep and ShapesStep. */
  lemma ConcatAssoc(x: seq<real>, y: seq<real>, z: seq<real>)
    ensures (x + y) + z == x + (y + z)
  {
  }

  /** One more corner appends that corner's floats to what the earlier corners gave. */
  lemma FlatStep(pos: seq<real>, uv: seq<real>, a: Attrib, idx: seq<IndexT>, n: nat, k: nat)
    requires ValidCorners(a, idx, n) && k < n
    ensures ValidCorners(a, idx, k) && ValidCorner(a, idx[k])
    ensures pos + FlatPos(a, idx, k + 1) == (pos + FlatPos(a, idx, k)) + CornerPos(a, idx[k])
    ensures uv + FlatUV(a, idx, k + 1) == (uv + FlatUV(a, idx, k)) + CornerUV(a, idx[k])
  {
    ValidCornersPrefix(a, idx, n, k + 1);
    ConcatAssoc(pos, FlatPos(a, idx, k), CornerPos(a, idx[k]));
    ConcatAssoc(uv, FlatUV(a, idx, k), CornerUV(a, idx[k]));
  }

  /** One more shape appends that shape's flattened corners to what the earlier shapes gave. */
  lemma ShapesStep(pos: seq<real>, uv: seq<real>, shapes: seq<ShapeMesh>, a: Attrib, n: nat)
    requires n < |shapes| && WellFormed(shapes, a)
    ensures WellFormedShape(shapes[n], a)
    ensures pos + ShapesPos(shapes, a, n + 1) == (pos + ShapesPos(shapes, a, n)) + FlatPos(a, shapes[n].indices, ShapeCorners(shapes[n]))
    ensures uv + ShapesUV(shapes, a, n + 1) == (uv + ShapesUV(shapes, a, n)) + FlatUV(a, shapes[n].indices, ShapeCorners(shapes[n]))
  {
    assert WellFormedShape(shapes[n], a);
    ConcatAssoc(pos, ShapesPos(shapes, a, n), FlatPos(a, shapes[n].indices, ShapeCorners(shapes[n])));
    ConcatAssoc(uv, ShapesUV(shapes, a, n), FlatUV(a, shapes[n].indices, ShapeCorners(shapes[n])));
  }

  /** Readable corners stay readable in any shorter prefix. */
  lemma ValidCornersPrefix(a: Attrib, idx: seq<IndexT>, n: nat, m: nat)
    requires m <= n && ValidCorners(a, idx, n)
    ensures ValidCorners(a, idx, m)
  {
  }

  /** The face offsets never pass the shape's corner count. */
  lemma {:induction false} FaceTotalMonotone(nfv: seq<nat>, n: nat, m: nat)
    requires n <= m <= |nfv|
    ensures FaceTotal(nfv, n) <= FaceTotal(nfv, m)
    decreases m - n
  {
    if n < m {
      FaceTotalMonotone(nfv, n, m - 1);
    }
  }

  /**
   * One corner of the face loop of `load_geometry_data`: the vertex's three
   * floats go onto `pos` and, when the file has texcoords, the two texcoord
   * floats onto `uv`.
   */
  method PushCorner(pos: seq<real>, uv: seq<real>, attrib: Attrib, v: IndexT) returns (pos': seq<real>, uv': seq<real>)
    requires ValidCorner(attrib, v)
    ensures pos' == pos + CornerPos(attrib, v)
    ensures uv' == uv + CornerUV(attrib, v)
  {
    var vx := attrib.vertices[3 * v.vertexIndex + 0];
    var vy := attrib.vertices[3 * v.vertexIndex + 1];
    var vz := attrib.vertices[3 * v.vertexIndex + 2];
    pos' := pos + [vx];
    pos' := pos' + [vy];
    pos' := pos' + [vz];
    assert pos' == pos + [vx, vy, vz];
    uv' := uv;
    if |attrib.texcoords| > 0 {
      var tx := attrib.texcoords[2 * v.texcoordIndex + 0];
      var ty := attrib.texcoords[2 * v.texcoordIndex + 1];
      uv' := uv' + [tx];
      uv' := uv' + [ty];
      assert uv' == uv + [tx, ty];
    }
  }

  /**
   * The corner loop of one face in `load_geometry_data`: push the `f`
   * corners that start at offset `start`, in index order. What the earlier
   * corners contributed on top of `pos0` and `uv0` is extended by this face's.
   */
  method PushFace(pos: seq<real>, uv: seq<real>, attrib: Attrib, idx: seq<IndexT>, n: nat, start: nat, f: nat,
                  ghost pos0: seq<real>, ghost uv0: seq<real>)
    returns (pos': seq<real>, uv': seq<real>)
    requires ValidCorners(attrib, idx, n) && start + f <= n
    requires pos == pos0 + FlatPos(attrib, idx, start) && uv == uv0 + FlatUV(attrib, idx, start)
    ensures pos' == pos0 + FlatPos(attrib, idx, start + f)
    ensures uv' == uv0 + FlatUV(attrib, idx, start + f)
  {
    pos', uv' := pos, uv;
    var k := start;
    for vId := 0 to f
      invariant k == start + vId <= n
      invariant pos' == pos0 + FlatPos(attrib, idx, k)
      invariant uv' == uv0 + FlatUV(attrib, idx, k)
    {
      FlatStep(pos0, uv0, attrib, idx, n, k);
      pos', uv' := PushCorner(pos', uv', attrib, idx[k]);
      k := k + 1;
    }
  }

  /**
   * The body of the shape loop of `load_geometry_data`: walk the faces with
   * a corner offset starting at 0, push every corner of every face, and
   * advance the offset by each face's corner count. The corners come out
   * in index order, so the result is the shape's flattened corners.
   */
  method PushShape(pos: seq<real>, uv: seq<real>, s: ShapeMesh, attrib: Attrib) returns (pos': seq<real>, uv': seq<real>)
    requires WellFormedShape(s, attrib)
    ensures pos' == pos + FlatPos(attrib, s.indices, ShapeCorners(s))
    ensures uv' == uv + FlatUV(attrib, s.indices, ShapeCorners(s))
  {
    var n := ShapeCorners(s);
    pos', uv' := pos, uv;
    var attribOffset := 0;
    for fId := 0 to |s.numFaceVertices|
      invariant attribOffset == FaceTotal(s.numFaceVertices, fId) <= n
      invariant pos' == pos + FlatPos(attrib, s.indices, attribOffset)
      invariant uv' == uv + FlatUV(attrib, s.indices, attribOffset)
    {
      var f := s.numFaceVertices[fId];
      FaceTotalMonotone(s.numFaceVertices, fId + 1, |s.numFaceVertices|);
      pos', uv' := PushFace(pos', uv', attrib, s.indices, n, attribOffset, f, pos, uv);
      attribOffset := attribOffset + f;
    }
  }

  class Mesh {
    var pos: seq<real>
    var uv: seq<real>
    var normal: seq<real>

    /** Positions come in triples and texcoords in pairs. */
    predicate Valid()
      reads this
    {
      |pos| % 3 == 0 && |uv| % 2 == 0
    }

    /** `Mesh()`: no geometry. */
    constructor ()
      ensures Valid() && pos == [] && uv == [] && normal == []
    {
      pos, uv, normal := [], [], [];
    }

    /**
     * `transform_to_center`: the matrix that centres the mesh's bounding box
     * and scales it to unit x-width at depth -5.5. The box centre lands on
     * (0, 0, -5.5) and the box's x-faces one unit apart.
     */
    method TransformToCenter() returns (m: Mat4)
      requires Valid()
      requires BoxMax(pos).x - BoxMin(pos).x != 0.0
      ensures m == Centering(BoxMin(pos), BoxMax(pos))
      ensures Apply(m, Extend(Center(BoxMin(pos), BoxMax(pos)), 1.0)) == Vec4(0.0, 0.0, -MidDepth, 1.0)
    {
      var mn, mx := BoundingBox(pos);
      var center := Scale3(Add3(mn, mx), 0.5);
      var toOrigin := NewMat4FromColumns(Vec4(1.0, 0.0, 0.0, 0.0), Vec4(0.0, 1.0, 0.0, 0.0),
                                         Vec4(0.0, 0.0, 1.0, 0.0), Vec4(-center.x, -center.y, -center.z, 1.0));
      assert toOrigin == ToOrigin(Center(mn, mx));
      var bbSizeX := mx.x - mn.x;
      var halfFrustum := 1.0;
      var s := halfFrustum / bbSizeX;
      var scale := NewMat4FromColumns(Vec4(s, 0.0, 0.0, 0.0), Vec4(0.0, s, 0.0, 0.0),
                                      Vec4(0.0, 0.0, s, 0.0), Vec4(0.0, 0.0, 0.0, 1.0));
      assert scale == UniformScale(1.0 / (mx.x - mn.x));
      var fromOrigin := NewMat4FromColumns(Vec4(1.0, 0.0, 0.0, 0.0), Vec4(0.0, 1.0, 0.0, 0.0),
                                           Vec4(0.0, 0.0, 1.0, 0.0), Vec4(0.0, 0.0, -5.5, 1.0));
      assert fromOrigin == FromOrigin();
      var fs := Multiply(fromOrigin, scale);
      m := Multiply(fs, toOrigin);
      CenterToMidDepth(mn, mx);
    }

    /**
     * `load_geometry_data`: append the corners of every shape in order, so
     * `pos` grows by three floats per corner and `uv` by two per corner when
     * the file has texcoords.
     */
    method LoadGeometryData(shapes: seq<ShapeMesh>, attrib: Attrib)
      requires Valid() && WellFormed(shapes, attrib)
      modifies this
      ensures Valid()
      ensures pos == old(pos) + ShapesPos(shapes, attrib, |shapes|)
      ensures uv == old(uv) + ShapesUV(shapes, attrib, |shapes|)
      ensures normal == old(normal)
    {
      var p, u := pos, uv;
      ghost var pos0, uv0 := p, u;
      for si := 0 to |shapes|
        modifies {}
        invariant p == pos0 + ShapesPos(shapes, attrib, si)
        invariant u == uv0 + ShapesUV(shapes, attrib, si)
      {
        ShapesStep(pos0, uv0, shapes, attrib, si);
        p, u := PushShape(p, u, shapes[si], attrib);
      }
      ShapesPosLength(shapes, attrib, |shapes|);
      ShapesUVLength(shapes, attrib, |shapes|);
      pos, uv := p, u;
    }
  }
}
