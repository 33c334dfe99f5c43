/**
 * The graphic pipeline's working vertex buffer and the rules its fixed
 * stages apply to it, as functions of the flat buffer contents.
 *
 * The buffer is a run of elements of `e` slots each (`e` is the pipeline's
 * element size, `vertex_size + 5`): slots 0..3 hold the clip position
 * x, y, z, w, the next slots hold what the vertex shader wrote, and the last
 * slot holds the constant 1.0 that perspective division turns into 1/w.
 * Three consecutive elements form a triangle of `3 * e` slots.
 */
module VertexBuffers {
  import opened Matrix

  // ---------------------------------------------------------------------
  // Layout and arithmetic helpers
  // ---------------------------------------------------------------------

  /** An exact quotient times the divisor gives the dividend back. */
  lemma DivMul(s: int, t: int)
    requires 0 < t && s % t == 0
    ensures (s / t) * t == s
  {
  }

  /** One more block adds one block size. */
  lemma MulSucc(k: int, t: int)
    ensures k * t + t == (k + 1) * t
  {
  }

  /** Multiplying by a non-negative `t` keeps the order of the factors. */
  lemma MulLe(a: int, b: int, t: int)
    requires a <= b && 0 <= t
    ensures a * t <= b * t
  {
    assert b * t - a * t == (b - a) * t;
  }

  // ---------------------------------------------------------------------
  // The tests applied by clipping and culling
  // ---------------------------------------------------------------------

  /** `std::fabs`. */
  function Abs(x: real): (r: real)
    ensures 0.0 <= r && (r == x || r == -x)
  {
    if x < 0.0 then -x else x
  }

  /** The vertex whose position starts at slot `b` of `tri` is in front of the camera and inside the view frustum. */
  predicate InsideFrustum(tri: seq<real>, b: nat)
    requires b + 4 <= |tri|
  {
    var w := tri[b + 3];
    0.0 < w && Abs(tri[b]) <= w && Abs(tri[b + 1]) <= w && Abs(tri[b + 2]) <= w
  }

  /**
   * The z component of the cross product of the two edges leaving vertex 0,
   * each vertex taken as (x, y, 1): the signed doubled area of the triangle
   * projected on the screen plane.
   */
  function FacingZ(tri: seq<real>, e: nat): real
    requires 4 <= e && |tri| == 3 * e
  {
    (tri[e] - tri[0]) * (tri[2 * e + 1] - tri[1]) - (tri[e + 1] - tri[1]) * (tri[2 * e] - tri[0])
  }

  /** The two compaction stages. */
  datatype Stage = Clipping | Culling(cullBack: bool)

  /** Whether `stage` keeps the triangle `tri`. */
  predicate Keeps(stage: Stage, tri: seq<real>, e: nat)
    requires 4 <= e && |tri| == 3 * e
  {
    match stage
    case Clipping => InsideFrustum(tri, 0) && InsideFrustum(tri, e) && InsideFrustum(tri, 2 * e)
    case Culling(cullBack) =>
      var cz := FacingZ(tri, e);
      (cullBack && cz >= 0.0) || (!cullBack && cz <= 0.0)
  }

  // ---------------------------------------------------------------------
  // Stable compaction of whole triangles
  // ---------------------------------------------------------------------

  /** `len` slots make a whole number of blocks of `t` slots. */
  predicate Aligned(len: int, t: nat)
    decreases len
  {
    len == 0 || (0 < t <= len && Aligned(len - t, t))
  }

  /** Whole numbers of blocks lie at least a block apart. */
  lemma {:induction false} AlignedGap(a: int, b: int, t: nat)
    requires Aligned(a, t) && Aligned(b, t) && a < b
    ensures a + t <= b
    decreases b
  {
    if a < b - t {
      AlignedGap(a, b - t, t);
    } else if b - t < a {
      AlignedGap(b - t, a, t);
    }
  }

  /** `k` blocks of `t` slots are aligned to `t`. */
  lemma {:induction false} AlignedMul(k: nat, t: nat)
    ensures Aligned(k * t, t)
  {
    if k > 0 && t > 0 {
      AlignedMul(k - 1, t);
      MulSucc(k - 1, t);
    }
  }

  /** A whole number of triangles is a whole number of elements. */
  lemma {:induction false} AlignedElements(len: int, e: nat)
    requires Aligned(len, 3 * e)
    ensures Aligned(len, e)
    decreases len
  {
    if len != 0 {
      AlignedElements(len - 3 * e, e);
      assert Aligned(len - 2 * e, e);
      assert Aligned(len - e, e);
    }
  }

  /** The first `len` slots of `s` with every triangle the stage rejects removed, the rest in their original order. */
  function Compacted(s: seq<real>, e: nat, stage: Stage, len: int): (r: seq<real>)
    requires 4 <= e && len <= |s| && Aligned(len, 3 * e)
    ensures |r| <= len && Aligned(|r|, 3 * e)
    decreases len
  {
    if len == 0 then []
    else
      var tri := s[len - 3 * e .. len];
      Compacted(s, e, stage, len - 3 * e) + (if Keeps(stage, tri, e) then tri else [])
  }

  /** Compacting one more triangle appends it exactly when the stage keeps it. */
  lemma CompactedSnoc(s: seq<real>, e: nat, stage: Stage, len: int)
    requires 4 <= e && 0 <= len && len + 3 * e <= |s| && Aligned(len, 3 * e)
    ensures Aligned(len + 3 * e, 3 * e)
    ensures Compacted(s, e, stage, len + 3 * e)
         == Compacted(s, e, stage, len) + (if Keeps(stage, s[len .. len + 3 * e], e) then s[len .. len + 3 * e] else [])
  {
    assert len + 3 * e - 3 * e == len;
  }

  /** Every triangle in the first `len` slots of `s` passes the stage. */
  predicate AllKeep(s: seq<real>, e: nat, stage: Stage, len: int)
    requires 4 <= e && len <= |s| && Aligned(len, 3 * e)
    decreases len
  {
    len == 0 || (AllKeep(s, e, stage, len - 3 * e) && Keeps(stage, s[len - 3 * e .. len], e))
  }

  /** Whether the leading triangles pass depends only on those triangles. */
  lemma {:induction false} AllKeepAppend(a: seq<real>, b: seq<real>, e: nat, stage: Stage, len: int)
    requires 4 <= e && len <= |a| && Aligned(len, 3 * e)
    ensures AllKeep(a + b, e, stage, len) == AllKeep(a, e, stage, len)
    decreases len
  {
    if len != 0 {
      AllKeepAppend(a, b, e, stage, len - 3 * e);
      assert (a + b)[len - 3 * e .. len] == a[len - 3 * e .. len];
    }
  }

  /** Every triangle that survives the compaction passes the stage's test. */
  lemma {:induction false} CompactedKeeps(s: seq<real>, e: nat, stage: Stage, len: int)
    requires 4 <= e && len <= |s| && Aligned(len, 3 * e)
    ensures var r := Compacted(s, e, stage, len); AllKeep(r, e, stage, |r|)
    decreases len
  {
    if len != 0 {
      var tri := s[len - 3 * e .. len];
      var prev := Compacted(s, e, stage, len - 3 * e);
      CompactedKeeps(s, e, stage, len - 3 * e);
      if Keeps(stage, tri, e) {
        assert Compacted(s, e, stage, len) == prev + tri;
        AllKeepSnoc(prev, tri, e, stage);
      } else {
        assert Compacted(s, e, stage, len) == prev;
      }
    }
  }

  /** Appending a triangle that passes to slots whose triangles all pass gives slots whose triangles all pass. */
  lemma AllKeepSnoc(prev: seq<real>, tri: seq<real>, e: nat, stage: Stage)
    requires 4 <= e && |tri| == 3 * e && Aligned(|prev|, 3 * e)
    requires AllKeep(prev, e, stage, |prev|) && Keeps(stage, tri, e)
    ensures Aligned(|prev + tri|, 3 * e) && AllKeep(prev + tri, e, stage, |prev + tri|)
  {
    var r := prev + tri;
    AllKeepAppend(prev, tri, e, stage, |prev|);
    assert r[|prev| .. |r|] == tri;
  }

  /** A triangle the stage keeps is never dropped: when all pass, the compaction returns the slots unchanged. */
  lemma {:induction false} CompactedAllKept(s: seq<real>, e: nat, stage: Stage, len: int)
    requires 4 <= e && len <= |s| && Aligned(len, 3 * e)
    requires AllKeep(s, e, stage, len)
    ensures Compacted(s, e, stage, len) == s[..len]
    decreases len
  {
    if len != 0 {
      CompactedAllKept(s, e, stage, len - 3 * e);
      assert s[..len - 3 * e] + s[len - 3 * e .. len] == s[..len];
    }
  }

  /** Compacting an already compacted buffer changes nothing. */
  lemma CompactedIdempotent(s: seq<real>, e: nat, stage: Stage, len: int)
    requires 4 <= e && len <= |s| && Aligned(len, 3 * e)
    ensures var r := Compacted(s, e, stage, len); Compacted(r, e, stage, |r|) == r
  {
    var r := Compacted(s, e, stage, len);
    CompactedKeeps(s, e, stage, len);
    CompactedAllKept(r, e, stage, |r|);
    assert r[..|r|] == r;
  }

  /** The compaction looks at the first `len` slots only. */
  lemma {:induction false} CompactedPrefix(s: seq<real>, s': seq<real>, e: nat, stage: Stage, len: int)
    requires 4 <= e && len <= |s| && len <= |s'| && Aligned(len, 3 * e) && s[..len] == s'[..len]
    ensures Compacted(s, e, stage, len) == Compacted(s', e, stage, len)
    decreases len
  {
    if len != 0 {
      assert s[..len - 3 * e] == s'[..len - 3 * e];
      assert s[len - 3 * e .. len] == s'[len - 3 * e .. len];
      CompactedPrefix(s, s', e, stage, len - 3 * e);
    }
  }

  /** A vertex count that is a multiple of three fills whole triangles. */
  lemma WholeTriangles(n: nat, e: nat)
    requires n % 3 == 0
    ensures Aligned(n * e, 3 * e)
  {
    var q := n / 3;
    assert n * e == q * (3 * e);
    AlignedMul(q, 3 * e);
  }

  // ---------------------------------------------------------------------
  // Perspective division
  // ---------------------------------------------------------------------

  /** Every element in the first `len` slots of `s` has a nonzero w (slot 3). */
  predicate NonZeroW(s: seq<real>, e: nat, len: int)
    requires 4 <= e && len <= |s| && Aligned(len, e)
    decreases len
  {
    len == 0 || (NonZeroW(s, e, len - e) && s[len - e + 3] != 0.0)
  }

  /** A nonzero w for the first `len` slots is one for each element there. */
  lemma {:induction false} NonZeroWAt(s: seq<real>, e: nat, len: int, b: int)
    requires 4 <= e && len <= |s| && Aligned(len, e) && NonZeroW(s, e, len)
    requires Aligned(b, e) && b < len
    ensures b + e <= len && s[b + 3] != 0.0
    decreases len
  {
    AlignedGap(b, len, e);
    if b < len - e {
      NonZeroWAt(s, e, len - e, b);
    }
  }

  /** A nonzero w for the first `len` slots holds for fewer of them too. */
  lemma {:induction false} NonZeroWPrefix(s: seq<real>, e: nat, len: int, m: int)
    requires 4 <= e && len <= |s| && Aligned(len, e) && NonZeroW(s, e, len)
    requires Aligned(m, e) && m <= len
    ensures NonZeroW(s, e, m)
    decreases len
  {
    if m < len {
      AlignedGap(m, len, e);
      NonZeroWPrefix(s, e, len - e, m);
    }
  }

  /** Every vertex of a triangle that survived clipping has w > 0, so it can be divided by. */
  lemma {:induction false} ClippedNonZeroW(r: seq<real>, e: nat, len: int)
    requires 4 <= e && len <= |r| && Aligned(len, 3 * e) && AllKeep(r, e, Clipping, len)
    ensures Aligned(len, e) && NonZeroW(r, e, len)
    decreases len
  {
    AlignedElements(len, e);
    if len != 0 {
      ClippedNonZeroW(r, e, len - 3 * e);
      var b := len - 3 * e;
      var t := r[b .. len];
      assert r[b + 3] == t[3] && r[b + e + 3] == t[e + 3] && r[b + 2 * e + 3] == t[2 * e + 3];
      assert NonZeroW(r, e, b + e);
      assert NonZeroW(r, e, b + 2 * e);
    }
  }

  /** One element divided by its own w: the w slot becomes 1. */
  function DivideVertex(v: seq<real>): (r: seq<real>)
    requires 4 <= |v| && v[3] != 0.0
    ensures |r| == |v| && r[3] == 1.0
  {
    seq(|v|, i requires 0 <= i < |v| => v[i] / v[3])
  }

  /** The division is undone by scaling back by w: no slot loses information. */
  lemma DivideVertexScales(v: seq<real>)
    requires 4 <= |v| && v[3] != 0.0
    ensures forall i :: 0 <= i < |v| ==> DivideVertex(v)[i] * v[3] == v[i]
  {
    var r := DivideVertex(v);
    forall i | 0 <= i < |v|
      ensures r[i] * v[3] == v[i]
    {
      assert r[i] == v[i] / v[3];
    }
  }

  /** The first `len` slots of `s`, each element divided by its own w. */
  function Divided(s: seq<real>, e: nat, len: int): (r: seq<real>)
    requires 4 <= e && len <= |s| && Aligned(len, e) && NonZeroW(s, e, len)
    ensures |r| == len
    decreases len
  {
    if len == 0 then []
    else Divided(s, e, len - e) + DivideVertex(s[len - e .. len])
  }

  /** The element at slot `b` of the divided buffer is the element at `b` of the input divided by its w. */
  lemma {:induction false} DividedElement(s: seq<real>, e: nat, len: int, b: int)
    requires 4 <= e && len <= |s| && Aligned(len, e) && NonZeroW(s, e, len)
    requires Aligned(b, e) && b < len
    ensures b + e <= len && s[b + 3] != 0.0
    ensures Divided(s, e, len)[b .. b + e] == DivideVertex(s[b .. b + e])
    decreases len
  {
    NonZeroWAt(s, e, len, b);
    var prev := len - e;
    var q, last := Divided(s, e, prev), DivideVertex(s[prev .. len]);
    if b < prev {
      DividedElement(s, e, prev, b);
      AlignedGap(b, prev, e);
      AppendSliceLeft(Divided(s, e, len), q, last, b, b + e);
    } else {
      AppendSliceRight(Divided(s, e, len), q, last);
    }
  }

  /**
   * After the division the w slot of every element is 1, and the last slot,
   * which vertex processing set to 1.0, holds 1/w.
   */
  lemma DividedSlots(s: seq<real>, e: nat, len: int, b: int)
    requires 4 <= e && len <= |s| && Aligned(len, e) && NonZeroW(s, e, len)
    requires Aligned(b, e) && b < len
    ensures b + e <= len && s[b + 3] != 0.0
    ensures Divided(s, e, len)[b + 3] == 1.0
    ensures s[b + e - 1] == 1.0 ==> Divided(s, e, len)[b + e - 1] == 1.0 / s[b + 3]
  {
    DividedElement(s, e, len, b);
    var d := Divided(s, e, len);
    var v := s[b .. b + e];
    assert d[b + 3] == d[b .. b + e][3];
    assert d[b + e - 1] == d[b .. b + e][e - 1] == v[e - 1] / v[3];
  }

  /** Dividing one more element appends that element divided by its w. */
  lemma DividedSnoc(s: seq<real>, e: nat, len: int)
    requires 4 <= e && 0 <= len && len + e <= |s| && Aligned(len, e) && NonZeroW(s, e, len) && s[len + 3] != 0.0
    ensures Aligned(len + e, e) && NonZeroW(s, e, len + e)
    ensures Divided(s, e, len + e) == Divided(s, e, len) + DivideVertex(s[len .. len + e])
  {
    assert len + e - e == len;
  }

  /** The w test and the division look at the first `len` slots only. */
  lemma {:induction false} DividedPrefix(s: seq<real>, s': seq<real>, e: nat, len: int)
    requires 4 <= e && len <= |s| && len <= |s'| && Aligned(len, e) && s[..len] == s'[..len]
    ensures NonZeroW(s, e, len) == NonZeroW(s', e, len)
    ensures NonZeroW(s, e, len) ==> Divided(s, e, len) == Divided(s', e, len)
    decreases len
  {
    if len != 0 {
      assert s[..len - e] == s'[..len - e];
      assert s[len - e .. len] == s'[len - e .. len];
      assert s[len - e + 3] == s'[len - e + 3];
      DividedPrefix(s, s', e, len - e);
    }
  }

  /** Clipping followed by perspective division: the surviving triangles with each vertex divided by its w. */
  function ClippedDivided(p: seq<real>, e: nat): (d: seq<real>)
    requires 4 <= e && Aligned(|p|, 3 * e)
    ensures |d| <= |p| && Aligned(|d|, 3 * e)
  {
    var c := Compacted(p, e, Clipping, |p|);
    CompactedKeeps(p, e, Clipping, |p|);
    ClippedNonZeroW(c, e, |c|);
    Divided(c, e, |c|)
  }

  // ---------------------------------------------------------------------
  // Vertex processing
  // ---------------------------------------------------------------------

  /** A named run of floats: `size` of them starting at slot `stride`. */
  datatype Attribute = Attribute(size: int, stride: int)

  /** What a shader sees of the pipeline: the attribute and uniform tables and the uniform arena. */
  datatype Bindings = Bindings(attribs: map<string, Attribute>, uniforms: map<string, Attribute>, uniformData: seq<real>)

  /** What the vertex shader produces for one vertex: its clip position and the outputs it writes in order. */
  datatype ShaderOut = ShaderOut(position: Vec4, outputs: seq<real>)

  /** The vertex shader, from the vertex's input floats and the bindings. */
  type VertexShader = (seq<real>, Bindings) -> ShaderOut

  /** The shader never writes more outputs than an element has room for. */
  ghost predicate Fits(shader: VertexShader, vertexSize: int)
  {
    forall input, env :: |shader(input, env).outputs| <= vertexSize
  }

  /** An element after the vertex shader ran on it: position, outputs, slots the shader left alone, and 1.0. */
  function ProcessedVertex(prev: seq<real>, out: ShaderOut): (r: seq<real>)
    requires 5 <= |prev| && |out.outputs| <= |prev| - 5
    ensures |r| == |prev|
  {
    var p := out.position;
    [p.x, p.y, p.z, p.w] + out.outputs + prev[4 + |out.outputs| .. |prev| - 1] + [1.0]
  }

  /** `a` slots of `s`-slot blocks and `b` slots of `t`-slot blocks hold the same number of blocks. */
  predicate Paired(a: int, s: nat, b: int, t: nat)
    decreases a
  {
    (a == 0 && b == 0) || (0 < s <= a && 0 < t <= b && Paired(a - s, s, b - t, t))
  }

  /** `n` blocks of each size are paired. */
  lemma {:induction false} PairedMul(n: nat, s: nat, t: nat)
    requires 0 < s && 0 < t
    ensures Paired(n * s, s, n * t, t)
  {
    if n > 0 {
      PairedMul(n - 1, s, t);
      MulSucc(n - 1, s);
      MulSucc(n - 1, t);
    }
  }

  /** A non-empty pairing is one block on each side more than a smaller pairing. */
  lemma PairedStep(a: int, s: nat, b: int, t: nat)
    requires Paired(a, s, b, t) && 0 < a
    ensures 0 < s <= a && 0 < t <= b && Paired(a - s, s, b - t, t)
  {
  }

  /** Fewer blocks on one side means fewer on the other, by at least one whole block. */
  lemma {:induction false} PairedLess(a: int, b: int, c: int, d: int, s: nat, t: nat)
    requires Paired(a, s, b, t) && Paired(c, s, d, t) && a < c
    ensures a + s <= c && b + t <= d
    decreases c
  {
    if a < c - s {
      PairedLess(a, b, c - s, d - t, s, t);
    } else if c - s < a {
      PairedLess(c - s, d - t, a, b, s, t);
    } else {
      PairedUnique(a, b, d - t, s, t);
    }
  }

  /** The block count on one side fixes the length on the other. */
  lemma {:induction false} PairedUnique(a: int, b: int, b': int, s: nat, t: nat)
    requires Paired(a, s, b, t) && Paired(a, s, b', t)
    ensures b == b'
    decreases a
  {
    if a != 0 {
      PairedUnique(a - s, b - t, b' - t, s, t);
    }
  }

  /**
   * The first `outLen` slots of the working buffer `prev` after vertex
   * processing of the first `inLen` slots of the input: one element of
   * `vs + 5` slots for each input vertex of `vs` slots.
   */
  function Processed(prev: seq<real>, input: seq<real>, vs: nat, shader: VertexShader, env: Bindings, inLen: int, outLen: int): (r: seq<real>)
    requires Paired(inLen, vs, outLen, vs + 5) && inLen <= |input| && outLen <= |prev| && Fits(shader, vs)
    ensures |r| == outLen
    decreases inLen
  {
    if inLen == 0 then []
    else
      Processed(prev, input, vs, shader, env, inLen - vs, outLen - (vs + 5))
        + ProcessedVertex(prev[outLen - (vs + 5) .. outLen], shader(input[inLen - vs .. inLen], env))
  }

  /** A slice inside the left operand of a concatenation is a slice of that operand. */
  lemma AppendSliceLeft(whole: seq<real>, q: seq<real>, last: seq<real>, lo: int, hi: int)
    requires whole == q + last && 0 <= lo <= hi <= |q|
    ensures whole[lo .. hi] == q[lo .. hi]
  {
    assert forall k :: lo <= k < hi ==> whole[k] == q[k];
  }

  /** The slice just past the left operand of a concatenation is the right operand. */
  lemma AppendSliceRight(whole: seq<real>, q: seq<real>, last: seq<real>)
    requires whole == q + last
    ensures whole[|q| .. |q| + |last|] == last
  {
    assert forall k :: 0 <= k < |last| ==> whole[|q| + k] == last[k];
  }

  /** A non-empty prefix of the processed buffer is the shorter prefix followed by the last element. */
  lemma ProcessedExtend(prev: seq<real>, input: seq<real>, vs: nat, shader: VertexShader, env: Bindings, bi: int, bo: int)
    requires Paired(bi + vs, vs, bo + (vs + 5), vs + 5) && bi + vs <= |input| && bo + (vs + 5) <= |prev| && Fits(shader, vs)
    requires 0 < vs && Paired(bi, vs, bo, vs + 5)
    ensures Processed(prev, input, vs, shader, env, bi + vs, bo + (vs + 5))
         == Processed(prev, input, vs, shader, env, bi, bo) + ProcessedVertex(prev[bo .. bo + (vs + 5)], shader(input[bi .. bi + vs], env))
  {
  }

  /** The last element of a non-empty processed prefix is the old element after the shader ran on the last input vertex. */
  lemma ProcessedLast(prev: seq<real>, input: seq<real>, vs: nat, shader: VertexShader, env: Bindings,
                      inLen: int, outLen: int, bi: int, bo: int)
    requires Paired(inLen, vs, outLen, vs + 5) && inLen <= |input| && outLen <= |prev| && Fits(shader, vs)
    requires 0 < vs && bi + vs == inLen && bo + (vs + 5) == outLen && Paired(bi, vs, bo, vs + 5)
    ensures Processed(prev, input, vs, shader, env, inLen, outLen)[bo .. bo + (vs + 5)]
         == ProcessedVertex(prev[bo .. bo + (vs + 5)], shader(input[bi .. bi + vs], env))
  {
    ProcessedExtend(prev, input, vs, shader, env, bi, bo);
    AppendSliceRight(Processed(prev, input, vs, shader, env, inLen, outLen), Processed(prev, input, vs, shader, env, bi, bo),
                     ProcessedVertex(prev[bo .. bo + (vs + 5)], shader(input[bi .. bi + vs], env)));
  }

  /** An element of a shorter processed prefix is unchanged in the longer one. */
  lemma ProcessedEarlier(prev: seq<real>, input: seq<real>, vs: nat, shader: VertexShader, env: Bindings,
                         inLen: int, outLen: int, bi: int, bo: int, b: int, block: seq<real>)
    requires Paired(inLen, vs, outLen, vs + 5) && inLen <= |input| && outLen <= |prev| && Fits(shader, vs)
    requires 0 < vs && bi + vs == inLen && bo + (vs + 5) == outLen && Paired(bi, vs, bo, vs + 5)
    requires 0 <= b && b + (vs + 5) <= bo
    requires Processed(prev, input, vs, shader, env, bi, bo)[b .. b + (vs + 5)] == block
    ensures Processed(prev, input, vs, shader, env, inLen, outLen)[b .. b + (vs + 5)] == block
  {
    ProcessedExtend(prev, input, vs, shader, env, bi, bo);
    AppendSliceLeft(Processed(prev, input, vs, shader, env, inLen, outLen), Processed(prev, input, vs, shader, env, bi, bo),
                    ProcessedVertex(prev[bo .. bo + (vs + 5)], shader(input[bi .. bi + vs], env)), b, b + (vs + 5));
  }

  /** The element at slot `bo` of the processed buffer is the old element there after the shader ran on the input vertex at slot `bi`. */
  lemma {:induction false} ProcessedBlock(prev: seq<real>, input: seq<real>, vs: nat, shader: VertexShader, env: Bindings,
                                          inLen: int, outLen: int, bi: int, bo: int)
    requires Paired(inLen, vs, outLen, vs + 5) && inLen <= |input| && outLen <= |prev| && Fits(shader, vs)
    requires Paired(bi, vs, bo, vs + 5) && bi < inLen
    ensures bi + vs <= inLen && bo + (vs + 5) <= outLen
    ensures Processed(prev, input, vs, shader, env, inLen, outLen)[bo .. bo + (vs + 5)]
         == ProcessedVertex(prev[bo .. bo + (vs + 5)], shader(input[bi .. bi + vs], env))
    decreases inLen
  {
    PairedLess(bi, bo, inLen, outLen, vs, vs + 5);
    PairedStep(inLen, vs, outLen, vs + 5);
    var li, lo := inLen - vs, outLen - (vs + 5);
    if bi < li {
      PairedLess(bi, bo, li, lo, vs, vs + 5);
      ProcessedBlock(prev, input, vs, shader, env, li, lo, bi, bo);
      ProcessedEarlier(prev, input, vs, shader, env, inLen, outLen, li, lo, bo,
                       ProcessedVertex(prev[bo .. bo + (vs + 5)], shader(input[bi .. bi + vs], env)));
    } else {
      PairedUnique(bi, bo, lo, vs, vs + 5);
      ProcessedLast(prev, input, vs, shader, env, inLen, outLen, bi, bo);
    }
  }

  /**
   * A processed element: its position is the shader's position, its next
   * slots are the shader's outputs, the slots the shader did not write keep
   * their old contents, and the last slot is 1.0.
   */
  lemma ProcessedVertexSlots(prev: seq<real>, out: ShaderOut)
    requires 5 <= |prev| && |out.outputs| <= |prev| - 5
    ensures var r := ProcessedVertex(prev, out);
            r[0] == out.position.x && r[1] == out.position.y && r[2] == out.position.z && r[3] == out.position.w &&
            (forall k :: 4 <= k < 4 + |out.outputs| ==> r[k] == out.outputs[k - 4]) &&
            (forall k :: 4 + |out.outputs| <= k < |prev| - 1 ==> r[k] == prev[k]) &&
            r[|prev| - 1] == 1.0
  {
  }

  // ---------------------------------------------------------------------
  // Whole-vertex arithmetic of the rasterizer
  // ---------------------------------------------------------------------

  /** `lhs - rhs`, slot by slot. */
  function SubV(lhs: seq<real>, rhs: seq<real>): (r: seq<real>)
    requires |lhs| == |rhs|
    ensures |r| == |lhs|
  {
    seq(|lhs|, i requires 0 <= i < |lhs| => lhs[i] - rhs[i])
  }

  /** `lhs * k`, slot by slot. */
  function ScaleV(lhs: seq<real>, k: real): (r: seq<real>)
    ensures |r| == |lhs|
  {
    seq(|lhs|, i requires 0 <= i < |lhs| => lhs[i] * k)
  }

  /** `target + inc`, slot by slot. */
  function AddV(target: seq<real>, inc: seq<real>): (r: seq<real>)
    requires |target| == |inc|
    ensures |r| == |target|
  {
    seq(|target|, i requires 0 <= i < |target| => target[i] + inc[i])
  }

  /** `v` after `k` increments by `d`. */
  function Steps(v: seq<real>, d: seq<real>, k: nat): (r: seq<real>)
    requires |v| == |d|
    ensures |r| == |v|
  {
    if k == 0 then v else AddV(Steps(v, d, k - 1), d)
  }

  /** `k` increments by `d` add `k * d`. */
  lemma {:induction false} StepsLinear(v: seq<real>, d: seq<real>, k: nat)
    requires |v| == |d|
    ensures forall i :: 0 <= i < |v| ==> Steps(v, d, k)[i] == v[i] + (k as real) * d[i]
  {
    if k > 0 {
      StepsLinear(v, d, k - 1);
    }
  }

  /**
   * Stepping from `v0` by `(v1 - v0) / dy` for `dy` rows lands exactly on
   * `v1`: the interpolation an edge performs between two vertices `dy`
   * scanlines apart.
   */
  lemma StepsReachEnd(v0: seq<real>, v1: seq<real>, dy: nat)
    requires |v0| == |v1| && 0 < dy
    ensures Steps(v0, ScaleV(SubV(v1, v0), 1.0 / (dy as real)), dy) == v1
  {
    var d := ScaleV(SubV(v1, v0), 1.0 / (dy as real));
    StepsLinear(v0, d, dy);
    forall i | 0 <= i < |v0|
      ensures Steps(v0, d, dy)[i] == v1[i]
    {
      assert (dy as real) * ((v1[i] - v0[i]) * (1.0 / (dy as real))) == v1[i] - v0[i];
    }
  }

  // ---------------------------------------------------------------------
  // Loop states of the in-place stages
  // ---------------------------------------------------------------------

  /**
   * `cur` with the slots from `lo` on overwritten by `block`: what an
   * in-place write of `block` at `lo` leaves behind.
   */
  function Spliced(cur: seq<real>, lo: int, block: seq<real>): (r: seq<real>)
    requires 0 <= lo && lo + |block| <= |cur|
    ensures |r| == |cur|
  {
    cur[..lo] + block + cur[lo + |block|..]
  }

  /**
   * Writing `block` at `lo` into a buffer that from `lo` on agrees with `s`
   * extends its first `lo` slots by `block` and leaves it agreeing with `s`
   * after the block.
   */
  lemma SplicedAppend(cur: seq<real>, s: seq<real>, lo: int, block: seq<real>)
    requires 0 <= lo && lo + |block| <= |cur| == |s| && cur[lo..] == s[lo..]
    ensures var r := Spliced(cur, lo, block);
            r[..lo + |block|] == cur[..lo] + block && r[lo + |block|..] == s[lo + |block|..]
  {
    var r := Spliced(cur, lo, block);
    assert r[..lo + |block|] == cur[..lo] + block;
    assert forall k :: lo + |block| <= k < |s| ==> r[k] == cur[lo..][k - lo];
  }

  /** Writing the next slot of `block` extends by one the prefix of `block` spliced in at `lo`. */
  lemma SplicedGrow(prev: seq<real>, lo: int, block: seq<real>, i: int)
    requires 0 <= lo && lo + |block| <= |prev| && 0 <= i < |block|
    ensures Spliced(prev, lo, block[..i])[lo + i] == prev[lo + i]
    ensures Spliced(prev, lo, block[..i])[lo + i := block[i]] == Spliced(prev, lo, block[..i + 1])
  {
    var a := Spliced(prev, lo, block[..i])[lo + i := block[i]];
    var b := Spliced(prev, lo, block[..i + 1]);
    assert forall k :: 0 <= k < |a| ==> a[k] == b[k];
  }

  /** Two buffers that agree from slot `from` on agree on every slice there. */
  lemma SuffixSlice(a: seq<real>, b: seq<real>, from: int, lo: int, hi: int)
    requires 0 <= from <= lo <= hi <= |a| == |b| && a[from..] == b[from..]
    ensures a[lo .. hi] == b[lo .. hi] && a[hi..] == b[hi..]
  {
    assert forall k :: lo <= k < hi ==> a[k] == a[from..][k - from];
    assert forall k :: hi <= k < |a| ==> a[k] == a[from..][k - from];
  }

  /**
   * The loop state of `vertex_processing`: the first `v` input slots have
   * been run through the shader into the first `elem` slots of `cur`, which
   * elsewhere still holds the buffer `prev` it started from.
   */
  ghost predicate ProcessedUpTo(cur: seq<real>, prev: seq<real>, input: seq<real>, vs: nat, shader: VertexShader,
                                env: Bindings, e: nat, v: int, elem: int)
  {
    0 < vs && e == vs + 5 && |cur| == |prev| && 0 <= v <= |input| && 0 <= elem <= |prev| && Paired(v, vs, elem, e) &&
    Fits(shader, vs) && cur[..elem] == Processed(prev, input, vs, shader, env, v, elem) && cur[elem..] == prev[elem..]
  }

  /** While input vertices remain, the next one and its element both fit. */
  lemma ProcessAhead(cur: seq<real>, prev: seq<real>, input: seq<real>, vs: nat, shader: VertexShader, env: Bindings,
                     e: nat, v: int, elem: int, inLen: int)
    requires ProcessedUpTo(cur, prev, input, vs, shader, env, e, v, elem)
    requires Paired(inLen, vs, |prev|, e) && v < inLen
    ensures v + vs <= inLen && elem + e <= |cur|
  {
    PairedLess(v, elem, inLen, |prev|, vs, e);
  }

  /**
   * The writes that store a processed element at `elem`: the shader's
   * outputs after the position slots, then the four position slots, then
   * 1.0 in the last slot, together put the processed element in place.
   */
  lemma ProcessedVertexWrites(prev: seq<real>, elem: int, e: nat, out: ShaderOut)
    requires 0 <= elem && elem + e <= |prev| && 5 <= e && |out.outputs| <= e - 5
    ensures var element := ProcessedVertex(prev[elem .. elem + e], out);
            Spliced(Spliced(prev, elem + 4, out.outputs), elem, element[..4])[elem + e - 1 := 1.0] == Spliced(prev, elem, element)
  {
    var element := ProcessedVertex(prev[elem .. elem + e], out);
    ProcessedVertexSlots(prev[elem .. elem + e], out);
    var inner := Spliced(prev, elem + 4, out.outputs);
    var a := Spliced(inner, elem, element[..4])[elem + e - 1 := 1.0];
    var b := Spliced(prev, elem, element);
    forall k | 0 <= k < |a|
      ensures a[k] == b[k]
    {
      SplicedAt(prev, elem, element, k);
      if k != elem + e - 1 {
        SplicedAt(inner, elem, element[..4], k);
        SplicedAt(prev, elem + 4, out.outputs, k);
      }
    }
  }

  /** Slot `k` of a spliced buffer comes from the block inside it and from the old buffer outside. */
  lemma SplicedAt(cur: seq<real>, lo: int, block: seq<real>, k: int)
    requires 0 <= lo && lo + |block| <= |cur| && 0 <= k < |cur|
    ensures Spliced(cur, lo, block)[k] == if lo <= k < lo + |block| then block[k - lo] else cur[k]
  {
  }


  /** Storing the shader's result for the next input vertex at `elem` processes one vertex more. */
  lemma ProcessStored(cur: seq<real>, after: seq<real>, prev: seq<real>, input: seq<real>, vs: nat, shader: VertexShader,
                      env: Bindings, e: nat, v: int, elem: int)
    requires ProcessedUpTo(cur, prev, input, vs, shader, env, e, v, elem)
    requires v + vs <= |input| && elem + e <= |cur|
    requires after == Spliced(cur, elem, ProcessedVertex(cur[elem .. elem + e], shader(input[v .. v + vs], env)))
    ensures ProcessedUpTo(after, prev, input, vs, shader, env, e, v + vs, elem + e)
  {
    SuffixSlice(cur, prev, elem, elem, elem + e);
    assert v + vs - vs == v && elem + e - (vs + 5) == elem;
    SplicedAppend(cur, prev, elem, ProcessedVertex(cur[elem .. elem + e], shader(input[v .. v + vs], env)));
  }

  /** Once every input vertex is processed, the whole buffer is the processed buffer. */
  lemma ProcessedDone(cur: seq<real>, prev: seq<real>, input: seq<real>, vs: nat, shader: VertexShader, env: Bindings,
                      e: nat, inLen: int, elem: int)
    requires ProcessedUpTo(cur, prev, input, vs, shader, env, e, inLen, elem) && Paired(inLen, vs, |prev|, e)
    ensures cur == Processed(prev, input, vs, shader, env, inLen, |prev|)
  {
    PairedUnique(inLen, elem, |prev|, vs, e);
    assert cur == cur[..elem];
  }

  /**
   * The loop state of the in-place compactions: the triangles before slot
   * `t` of the original buffer `s` have been compacted into the first `kept`
   * slots of `cur`, which from `kept` on still holds the original.
   */
  predicate CompactedUpTo(cur: seq<real>, s: seq<real>, e: nat, stage: Stage, t: int, kept: int)
  {
    4 <= e && |cur| == |s| && 0 <= kept <= t <= |s| && Aligned(t, 3 * e) &&
    cur[..kept] == Compacted(s, e, stage, t) && cur[kept..] == s[kept..]
  }

  /** While triangles remain, the next one lies inside the live part. */
  lemma CompactAhead(cur: seq<real>, s: seq<real>, e: nat, n: nat, stage: Stage, t: int, kept: int, len: int)
    requires CompactedUpTo(cur, s, e, stage, t, kept) && n == 3 * e && len <= |s| && Aligned(len, n) && t < len
    ensures t + n <= len
  {
    AlignedGap(t, len, n);
  }

  /** Moving the next triangle, which the stage keeps, down to `kept` compacts one triangle more. */
  lemma CompactKept(cur: seq<real>, after: seq<real>, s: seq<real>, e: nat, n: nat, stage: Stage, t: int, kept: int)
    requires CompactedUpTo(cur, s, e, stage, t, kept) && n == 3 * e && t + n <= |s|
    requires Keeps(stage, cur[t .. t + n], e) && after == Spliced(cur, kept, cur[t .. t + n])
    ensures CompactedUpTo(after, s, e, stage, t + n, kept + n)
  {
    CompactedSnoc(s, e, stage, t);
    SuffixSlice(cur, s, kept, t, t + n);
    SplicedAppend(cur, s, kept, cur[t .. t + n]);
  }

  /** Leaving the next triangle, which the stage rejects, where it is compacts one triangle more. */
  lemma CompactSkipped(cur: seq<real>, s: seq<real>, e: nat, n: nat, stage: Stage, t: int, kept: int)
    requires CompactedUpTo(cur, s, e, stage, t, kept) && n == 3 * e && t + n <= |s|
    requires !Keeps(stage, cur[t .. t + n], e)
    ensures CompactedUpTo(cur, s, e, stage, t + n, kept)
  {
    CompactedSnoc(s, e, stage, t);
    SuffixSlice(cur, s, kept, t, t + n);
  }

  /**
   * The loop state of `perspective_division`: the elements before slot `v`
   * of the original buffer `s` have been divided in `cur`, which from `v` on
   * still holds the original.
   */
  predicate DividedUpTo(cur: seq<real>, s: seq<real>, e: nat, v: int)
  {
    4 <= e && |cur| == |s| && 0 <= v <= |s| && Aligned(v, e) && NonZeroW(s, e, v) &&
    cur[..v] == Divided(s, e, v) && cur[v..] == s[v..]
  }

  /** While elements remain, the next one lies inside the live part and its w is not zero. */
  lemma DivideAhead(cur: seq<real>, s: seq<real>, e: nat, v: int, len: int)
    requires DividedUpTo(cur, s, e, v) && len <= |s| && Aligned(len, e) && NonZeroW(s, e, len) && v < len
    ensures v + e <= len && cur[v + 3] != 0.0
  {
    NonZeroWAt(s, e, len, v);
    assert cur[v + 3] == cur[v..][3];
  }

  /** Dividing the next element at `v` by its w divides one element more. */
  lemma DivideDone(cur: seq<real>, after: seq<real>, s: seq<real>, e: nat, v: int)
    requires DividedUpTo(cur, s, e, v) && v + e <= |s| && cur[v + 3] != 0.0
    requires after == Spliced(cur, v, DivideVertex(cur[v .. v + e]))
    ensures DividedUpTo(after, s, e, v + e)
  {
    SuffixSlice(cur, s, v, v, v + e);
    assert cur[v + 3] == cur[v .. v + e][3];
    DividedSnoc(s, e, v);
    SplicedAppend(cur, s, v, DivideVertex(cur[v .. v + e]));
  }

  /** After clipping, the kept part is whole elements, each with a nonzero w, ready for the division. */
  lemma ClippedReady(processed: seq<real>, clipped: seq<real>, e: nat, n: int)
    requires Aligned(|processed|, 3 * e) && CompactedUpTo(clipped, processed, e, Clipping, |processed|, n)
    ensures Aligned(n, e) && NonZeroW(clipped, e, n)
  {
    var c := Compacted(processed, e, Clipping, |processed|);
    CompactedKeeps(processed, e, Clipping, |processed|);
    AlignedElements(n, e);
    ClippedNonZeroW(c, e, n);
    DividedPrefix(c, clipped, e, n);
  }

  /**
   * Clipping, division and culling run one after the other in place leave
   * in front the culled compaction of the clipped, divided buffer.
   */
  lemma StagesCompose(processed: seq<real>, clipped: seq<real>, divided: seq<real>, culled: seq<real>,
                      e: nat, cullBack: bool, n: int, m: int)
    requires Aligned(|processed|, 3 * e) && CompactedUpTo(clipped, processed, e, Clipping, |processed|, n)
    requires Aligned(n, e) && NonZeroW(clipped, e, n) && DividedUpTo(divided, clipped, e, n)
    requires CompactedUpTo(culled, divided, e, Culling(cullBack), n, m)
    ensures var d := ClippedDivided(processed, e);
            culled[..m] == Compacted(d, e, Culling(cullBack), |d|)
  {
    var c := Compacted(processed, e, Clipping, |processed|);
    CompactedKeeps(processed, e, Clipping, |processed|);
    ClippedNonZeroW(c, e, |c|);
    DividedPrefix(c, clipped, e, n);
    CompactedPrefix(ClippedDivided(processed, e), divided, e, Culling(cullBack), n);
  }
}
