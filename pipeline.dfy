/**
 * The graphics pipeline object: the uploaded vertex data, the working
 * vertex buffer the fixed stages transform in place, the attribute and
 * uniform tables with the uniform arena, and the viewport; and the stages
 * that `render` runs in order — vertex processing, clipping, perspective
 * division, culling and rasterization.
 *
 * An element of the working buffer holds `vertexSize + 5` floats: the clip
 * position (four slots), the shader's outputs, and a final slot that starts
 * at 1.0 and becomes 1/w after the division.
 */
module Pipeline {
  import opened Matrix
  import opened VertexBuffers
  import opened Framebuffers
  import opened Raster

  /** The number of floats the constructor allocates for uniforms. */
  const UniformCapacity := 100

  /**
   * The rasterizer's per-row and per-pixel interpolation, which this model
   * leaves abstract. `span` gives the first and last column of row `y` of a
   * y-sorted screen-space triangle, given the edges along which the
   * scanline bounds were incremented on each row before `y`; `shade` gives
   * the fragment of row `y` reached after `k` additions of the horizontal
   * step to the start of the row: its interpolated depth and the colour the
   * fragment shader returns for it.
   */
  datatype Interpolation = Interpolation(
    span: (seq<real>, seq<real>, seq<real>, int, seq<Increments>) -> (int, int),
    shade: (seq<real>, seq<real>, seq<real>, int, nat) -> Fragment)

  /**
   * The sizes `upload_data` derives from `nFloats` floats of `vs` each: the
   * working buffer has one element of `e = vs + 5` slots per whole vertex
   * (there are `n` of them), and when no partial vertex is left over the
   * input has as many vertices.
   */
  lemma UploadShape(nFloats: nat, vs: int, n: int, e: int)
    requires 0 < vs && n == nFloats / vs && e == vs + 5
    ensures 0 <= n * e && Paired(n, 1, n * e, e)
    ensures nFloats % vs == 0 ==> Paired(nFloats, vs, n * e, e)
  {
    MulLe(0, n, e);
    PairedMul(n, 1, e);
    if nFloats % vs == 0 {
      PairedMul(n, vs, e);
      DivMul(nFloats, vs);
    }
  }

  // ---------------------------------------------------------------------
  // Writes into the working buffer
  //
  // Each stage copies the working buffer into a local, runs its loop on the
  // copy and stores the copy back; these are the loop bodies.
  // ---------------------------------------------------------------------

  /**
   * Stores the shader's result for the element of `e` slots at `elem`: the
   * outputs after the position slots, then the position, then 1.0 in the
   * last slot; no other slot changes.
   */
  method StoreVertex(buf: seq<real>, elem: int, e: nat, out: ShaderOut) returns (r: seq<real>)
    requires 0 <= elem && elem + e <= |buf| && 5 <= e && |out.outputs| <= e - 5
    ensures r == Spliced(buf, elem, ProcessedVertex(buf[elem .. elem + e], out))
  {
    ghost var element := ProcessedVertex(buf[elem .. elem + e], out);
    ProcessedVertexSlots(buf[elem .. elem + e], out);
    r := Spliced(buf, elem + 4, out.outputs);
    ghost var written := r;
    for i := 0 to 4
      invariant r == Spliced(written, elem, element[..i])
    {
      SplicedGrow(written, elem, element, i);
      r := r[elem + i := out.position.At(i)];
    }
    r := r[elem + e - 1 := 1.0];
    ProcessedVertexWrites(buf, elem, e, out);
  }

  /**
   * One pass of the `vertex_processing` loop: runs the shader on the input
   * vertex at slot `v` and stores the result in the element at `elem`,
   * which processes one vertex more.
   */
  method ProcessStep(buf: seq<real>, ghost prev: seq<real>, input: seq<real>, vs: nat, shader: VertexShader, env: Bindings,
                     e: nat, v: int, elem: int, inLen: int) returns (r: seq<real>)
    requires ProcessedUpTo(buf, prev, input, vs, shader, env, e, v, elem)
    requires Paired(inLen, vs, |prev|, e) && v < inLen && inLen <= |input|
    ensures ProcessedUpTo(r, prev, input, vs, shader, env, e, v + vs, elem + e)
  {
    ProcessAhead(buf, prev, input, vs, shader, env, e, v, elem, inLen);
    var out := shader(input[v .. v + vs], env);
    r := StoreVertex(buf, elem, e, out);
    ProcessStored(buf, r, prev, input, vs, shader, env, e, v, elem);
  }

  /**
   * The inner loop of `primitive_clipping`: the triangle of elements of `e`
   * slots at `t` is discarded exactly when one of its vertices has w <= 0 or
   * an x, y or z outside [-w, w].
   */
  method ClipDiscard(buf: seq<real>, t: int, e: nat) returns (discard: bool)
    requires 0 <= t && t + 3 * e <= |buf| && 4 <= e
    ensures discard <==> !Keeps(Clipping, buf[t .. t + 3 * e], e)
  {
    ghost var tri := buf[t .. t + 3 * e];
    discard := false;
    var vId, off := 0, 0;
    while vId < 3
      invariant 0 <= vId <= 3
      invariant off == if vId == 0 then 0 else if vId == 1 then e else if vId == 2 then 2 * e else 3 * e
      invariant vId >= 1 ==> InsideFrustum(tri, 0)
      invariant vId >= 2 ==> InsideFrustum(tri, e)
      invariant vId >= 3 ==> InsideFrustum(tri, 2 * e)
      invariant !discard
    {
      var w := buf[t + off + 3];
      if w <= 0.0 {
        discard := true;
        assert !InsideFrustum(tri, off);
        break;
      }
      if Abs(buf[t + off]) > w || Abs(buf[t + off + 1]) > w || Abs(buf[t + off + 2]) > w {
        discard := true;
        assert !InsideFrustum(tri, off);
        break;
      }
      assert InsideFrustum(tri, off);
      vId, off := vId + 1, off + e;
    }
  }

  /**
   * One pass of the compaction loops: the triangle of `n` slots at `t`,
   * which the stage keeps exactly when `keep` holds, is moved down to `kept`
   * (the `memmove`) when it is kept and left where it is otherwise.
   */
  method CompactStep(buf: seq<real>, ghost s: seq<real>, e: nat, n: nat, stage: Stage, t: int, kept: int, keep: bool)
    returns (r: seq<real>, kept': int)
    requires CompactedUpTo(buf, s, e, stage, t, kept) && n == 3 * e && t + n <= |s|
    requires keep == Keeps(stage, buf[t .. t + 3 * e], e)
    ensures CompactedUpTo(r, s, e, stage, t + n, kept')
  {
    if keep {
      r := Spliced(buf, kept, buf[t .. t + n]);
      CompactKept(buf, r, s, e, n, stage, t, kept);
      kept' := kept + n;
    } else {
      CompactSkipped(buf, s, e, n, stage, t, kept);
      r, kept' := buf, kept;
    }
  }

  /** Divides the element of `e` slots at `b` by its own w, read before the loop; no other slot changes. */
  method DivideElement(buf: seq<real>, b: int, e: nat) returns (r: seq<real>)
    requires 0 <= b && b + e <= |buf| && 4 <= e && buf[b + 3] != 0.0
    ensures r == Spliced(buf, b, DivideVertex(buf[b .. b + e]))
  {
    ghost var divided := DivideVertex(buf[b .. b + e]);
    var w := buf[b + 3];
    r := buf;
    for i := 0 to e
      invariant r == Spliced(buf, b, divided[..i])
    {
      SplicedGrow(buf, b, divided, i);
      r := r[b + i := r[b + i] / w];
    }
    assert divided[..e] == divided;
  }

  /**
   * The z of the cross product of the edges v0v1 and v0v2 of the triangle of
   * elements of `e` slots at `t`, each vertex taken as (x, y, 1).
   */
  method Facing(buf: seq<real>, t: int, e: nat) returns (cz: real)
    requires 0 <= t && t + 3 * e <= |buf| && 4 <= e
    ensures cz == FacingZ(buf[t .. t + 3 * e], e)
  {
    var p0 := Vec3(buf[t], buf[t + 1], 1.0);
    var p1 := Vec3(buf[t + e], buf[t + e + 1], 1.0);
    var p2 := Vec3(buf[t + 2 * e], buf[t + 2 * e + 1], 1.0);
    var c := Cross(Sub3(p1, p0), Sub3(p2, p0));
    cz := c.z;
  }

  /**
   * The test of `primitive_culling`: with back faces culled a triangle is
   * kept when its winding is counter-clockwise or degenerate, otherwise
   * when it is clockwise or degenerate.
   */
  method FacingKept(buf: seq<real>, t: int, e: nat, cullBack: bool) returns (keep: bool)
    requires 0 <= t && t + 3 * e <= |buf| && 4 <= e
    ensures keep == Keeps(Culling(cullBack), buf[t .. t + 3 * e], e)
  {
    var cz := Facing(buf, t, e);
    keep := (cullBack && cz >= 0.0) || (!cullBack && cz <= 0.0);
  }

  class GraphicPipeline {
    var vbufferIn: seq<real>
    var vbuffer: seq<real>
    var vertexSize: int
    var nVertices: int
    var vbufferInSz: int
    var vbufferElemSz: int
    var triSz: int
    var vbufferSz: int
    var attribs: map<string, Attribute>
    var uniforms: map<string, Attribute>
    var uniformData: array<real>
    var uniformDataIndex: int
    var viewport: Mat4

    /**
     * The sizes agree with each other: an element is position, `vertexSize`
     * floats and the trailing 1, a triangle is three elements, the working
     * buffer holds one element per uploaded vertex and the live part of it
     * never exceeds it; the uniform arena has its fixed capacity and the
     * next free slot lies inside it.
     */
    predicate Valid()
      reads this
    {
      0 <= vertexSize && vbufferElemSz == 4 + vertexSize + 1 && triSz == 3 * vbufferElemSz &&
      Paired(nVertices, 1, |vbuffer|, vbufferElemSz) &&
      0 <= vbufferSz <= |vbuffer| && vbufferInSz == |vbufferIn| &&
      uniformData.Length == UniformCapacity && 0 <= uniformDataIndex <= UniformCapacity
    }

    /** The input holds whole vertices: as many of `vertexSize` floats as the working buffer has elements. */
    predicate WholeVertices()
      reads this
    {
      0 < vertexSize && Paired(vbufferInSz, vertexSize, |vbuffer|, vertexSize + 5)
    }

    /** What the shaders are given: the two tables and the uniform arena. */
    function Env(): Bindings
      reads this`attribs, this`uniforms, this`uniformData, uniformData
    {
      Bindings(attribs, uniforms, uniformData[..])
    }

    /**
     * A pipeline with no data: no vertices, an empty uniform arena of the
     * fixed capacity, no attributes or uniforms.
     */
    constructor ()
      ensures Valid() && fresh(uniformData)
      ensures vbufferIn == [] && vbuffer == [] && vertexSize == 0 && nVertices == 0 && vbufferSz == 0
      ensures uniformDataIndex == 0 && attribs == map[] && uniforms == map[] && viewport == ZeroMat
    {
      vbufferIn := [];
      vbuffer := [];
      vertexSize := 0;
      nVertices := 0;
      vbufferInSz := 0;
      vbufferElemSz := 5;
      triSz := 15;
      vbufferSz := 0;
      attribs := map[];
      uniforms := map[];
      uniformData := new real[UniformCapacity];
      uniformDataIndex := 0;
      viewport := ZeroMat;
    }

    /**
     * Takes a copy of the vertex data, `vs` floats per vertex (a partial
     * trailing vertex is not counted), and allocates a fresh working buffer
     * of one element per vertex; the live part is the whole buffer. When the
     * data is a whole number of vertices, the input and the working buffer
     * hold the same number of them.
     */
    method UploadData(data: seq<real>, vs: int)
      requires Valid() && 0 < vs
      modifies this`vertexSize, this`nVertices, this`vbufferInSz, this`vbufferIn
      modifies this`vbufferElemSz, this`triSz, this`vbufferSz, this`vbuffer
      ensures Valid()
      ensures vbufferIn == data && vertexSize == vs && nVertices == |data| / vs
      ensures vbufferElemSz == vs + 5 && triSz == 3 * (vs + 5) && vbufferSz == |vbuffer|
      ensures |data| % vs == 0 ==> WholeVertices()
      ensures uniformData == old(uniformData) && uniformDataIndex == old(uniformDataIndex)
      ensures attribs == old(attribs) && uniforms == old(uniforms) && viewport == old(viewport)
    {
      var nFloats := |data|;
      var n := nFloats / vs;
      var e := 4 + vs + 1;
      var sz := n * e;
      UploadShape(nFloats, vs, n, e);
      assert |seq(sz, _ => 0.0)| == sz;
      var block: seq<real> :| |block| == sz;
      vertexSize, nVertices, vbufferInSz, vbufferIn := vs, n, nFloats, data;
      vbufferElemSz, triSz, vbufferSz, vbuffer := e, 3 * e, sz, block;
    }

    /** `define_attribute`: the attribute `name` now names `nFloats` floats at offset `stride`; nothing else changes. */
    method DefineAttribute(name: string, nFloats: int, stride: int)
      modifies this
      ensures attribs == old(attribs)[name := Attribute(nFloats, stride)]
      ensures name in attribs && attribs[name].size == nFloats && attribs[name].stride == stride
      ensures forall other :: other != name && other in old(attribs) ==> other in attribs && attribs[other] == old(attribs)[other]
      ensures vbufferIn == old(vbufferIn) && vbuffer == old(vbuffer) && uniforms == old(uniforms)
      ensures uniformData == old(uniformData) && uniformDataIndex == old(uniformDataIndex) && viewport == old(viewport)
      ensures vertexSize == old(vertexSize) && nVertices == old(nVertices) && vbufferInSz == old(vbufferInSz)
      ensures vbufferElemSz == old(vbufferElemSz) && triSz == old(triSz) && vbufferSz == old(vbufferSz)
    {
      attribs := attribs[name := Attribute(nFloats, stride)];
    }

    /**
     * Appends the first `n` floats of `data` to the uniform arena and names
     * them: afterwards the uniform `name` reads back exactly those floats,
     * the floats uploaded before are untouched, and the next free slot moves
     * past them.
     */
    method UploadUniform(name: string, data: seq<real>, n: int)
      requires Valid() && 0 <= n <= |data| && uniformDataIndex + n <= UniformCapacity
      modifies this, uniformData
      ensures Valid() && uniformData == old(uniformData) && uniformDataIndex == old(uniformDataIndex) + n
      ensures uniforms == old(uniforms)[name := Attribute(n, old(uniformDataIndex))]
      ensures uniformData[uniforms[name].stride .. uniforms[name].stride + uniforms[name].size] == data[..n]
      ensures uniformData[..old(uniformDataIndex)] == old(uniformData[..uniformDataIndex])
      ensures uniformData[uniformDataIndex..] == old(uniformData[uniformDataIndex + n..])
      ensures vbufferIn == old(vbufferIn) && vbuffer == old(vbuffer) && attribs == old(attribs) && viewport == old(viewport)
      ensures vertexSize == old(vertexSize) && nVertices == old(nVertices) && vbufferInSz == old(vbufferInSz)
      ensures vbufferElemSz == old(vbufferElemSz) && triSz == old(triSz) && vbufferSz == old(vbufferSz)
    {
      forall k | 0 <= k < n {
        uniformData[uniformDataIndex + k] := data[k];
      }
      uniforms := uniforms[name := Attribute(n, uniformDataIndex)];
      uniformDataIndex := uniformDataIndex + n;
    }

    /** The one-float overload: the same as uploading the single float `d`. */
    method UploadUniformValue(name: string, d: real)
      requires Valid() && uniformDataIndex < UniformCapacity
      modifies this, uniformData
      ensures Valid() && uniformData == old(uniformData) && uniformDataIndex == old(uniformDataIndex) + 1
      ensures uniforms == old(uniforms)[name := Attribute(1, old(uniformDataIndex))]
      ensures uniformData[uniforms[name].stride .. uniforms[name].stride + uniforms[name].size] == [d]
      ensures uniformData[..old(uniformDataIndex)] == old(uniformData[..uniformDataIndex])
      ensures uniformData[uniformDataIndex..] == old(uniformData[uniformDataIndex + 1..])
      ensures vbufferIn == old(vbufferIn) && vbuffer == old(vbuffer) && attribs == old(attribs) && viewport == old(viewport)
      ensures vertexSize == old(vertexSize) && nVertices == old(nVertices) && vbufferInSz == old(vbufferInSz)
      ensures vbufferElemSz == old(vbufferElemSz) && triSz == old(triSz) && vbufferSz == old(vbufferSz)
    {
      uniformData[uniformDataIndex] := d;
      uniforms := uniforms[name := Attribute(1, uniformDataIndex)];
      uniformDataIndex := uniformDataIndex + 1;
    }

    /** `set_viewport`: only the viewport matrix changes. */
    method SetViewport(m: Mat4)
      modifies this
      ensures viewport == m
      ensures vbufferIn == old(vbufferIn) && vbuffer == old(vbuffer) && attribs == old(attribs) && uniforms == old(uniforms)
      ensures uniformData == old(uniformData) && uniformDataIndex == old(uniformDataIndex)
      ensures vertexSize == old(vertexSize) && nVertices == old(nVertices) && vbufferInSz == old(vbufferInSz)
      ensures vbufferElemSz == old(vbufferElemSz) && triSz == old(triSz) && vbufferSz == old(vbufferSz)
    {
      viewport := m;
    }

    // -------------------------------------------------------------------
    // Vertex processing
    // -------------------------------------------------------------------

    /**
     * `vertex_processing`: runs the shader once per input vertex and leaves
     * in the working buffer one processed element per vertex, in order.
     */
    method VertexProcessing(shader: VertexShader)
      requires Valid() && WholeVertices() && Fits(shader, vertexSize)
      modifies this`vbuffer
      ensures Valid() && WholeVertices() && |vbuffer| == old(|vbuffer|)
      ensures vbuffer == Processed(old(vbuffer), vbufferIn, vertexSize, shader, old(Env()), vbufferInSz, |vbuffer|)
    {
      var buf := vbuffer;
      ghost var prev := buf;
      var input, env := vbufferIn, Env();
      var vs, e, inLen := vertexSize, vbufferElemSz, vbufferInSz;
      var v, elem := 0, 0;
      while v < inLen
        invariant ProcessedUpTo(buf, prev, input, vs, shader, env, e, v, elem)
        decreases inLen - v
      {
        buf := ProcessStep(buf, prev, input, vs, shader, env, e, v, elem, inLen);
        v, elem := v + vs, elem + e;
      }
      ProcessedDone(buf, prev, input, vs, shader, env, e, inLen, elem);
      vbuffer := buf;
    }

    // -------------------------------------------------------------------
    // Clipping, division and culling
    // -------------------------------------------------------------------

    /**
     * `primitive_clipping`: moves the triangles of the live part that lie
     * entirely inside the clip volume to the front, in their order, and
     * returns their size; the slots after them keep what they held.
     */
    method PrimitiveClipping() returns (nonClipped: int)
      requires Valid() && Aligned(vbufferSz, triSz)
      modifies this`vbuffer
      ensures Valid() && 0 <= nonClipped <= vbufferSz && Aligned(nonClipped, triSz)
      ensures CompactedUpTo(vbuffer, old(vbuffer), vbufferElemSz, Clipping, vbufferSz, nonClipped)
    {
      var buf := vbuffer;
      ghost var s := buf;
      var e, n, len := vbufferElemSz, triSz, vbufferSz;
      nonClipped := 0;
      var t := 0;
      while t < len
        invariant t <= len && CompactedUpTo(buf, s, e, Clipping, t, nonClipped)
        decreases len - t
      {
        CompactAhead(buf, s, e, n, Clipping, t, nonClipped, len);
        var discard := ClipDiscard(buf, t, e);
        buf, nonClipped := CompactStep(buf, s, e, n, Clipping, t, nonClipped, !discard);
        t := t + n;
      }
      vbuffer := buf;
    }

    /**
     * `perspective_division`: every element of the live part is divided by
     * its w; slots past the live part are untouched.
     */
    method PerspectiveDivision()
      requires Valid() && Aligned(vbufferSz, vbufferElemSz) && NonZeroW(vbuffer, vbufferElemSz, vbufferSz)
      modifies this`vbuffer
      ensures Valid() && DividedUpTo(vbuffer, old(vbuffer), vbufferElemSz, vbufferSz)
    {
      var buf := vbuffer;
      ghost var s := buf;
      var e, len := vbufferElemSz, vbufferSz;
      var vId := 0;
      while vId < len
        invariant vId <= len && DividedUpTo(buf, s, e, vId)
        decreases len - vId
      {
        DivideAhead(buf, s, e, vId, len);
        ghost var cur := buf;
        buf := DivideElement(buf, vId, e);
        DivideDone(cur, buf, s, e, vId);
        vId := vId + e;
      }
      vbuffer := buf;
    }

    /**
     * `primitive_culling`: keeps, in order, the triangles whose screen-plane
     * winding the flag accepts — counter-clockwise or degenerate ones when
     * culling back faces, clockwise or degenerate ones otherwise — and
     * returns their size; the slots after them keep what they held.
     */
    method PrimitiveCulling(cullBack: bool) returns (nonCulled: int)
      requires Valid() && Aligned(vbufferSz, triSz)
      modifies this`vbuffer
      ensures Valid() && 0 <= nonCulled <= vbufferSz && Aligned(nonCulled, triSz)
      ensures CompactedUpTo(vbuffer, old(vbuffer), vbufferElemSz, Culling(cullBack), vbufferSz, nonCulled)
    {
      var buf := vbuffer;
      ghost var s := buf;
      var e, n, len := vbufferElemSz, triSz, vbufferSz;
      nonCulled := 0;
      var t := 0;
      while t < len
        invariant t <= len && CompactedUpTo(buf, s, e, Culling(cullBack), t, nonCulled)
        decreases len - t
      {
        CompactAhead(buf, s, e, n, Culling(cullBack), t, nonCulled, len);
        var keep := FacingKept(buf, t, e, cullBack);
        buf, nonCulled := CompactStep(buf, s, e, n, Culling(cullBack), t, nonCulled, keep);
        t := t + n;
      }
      vbuffer := buf;
    }

    // -------------------------------------------------------------------
    // Rasterization
    // -------------------------------------------------------------------

    /**
     * `rasterization`: every live triangle is mapped to the screen, sorted
     * by y and scanned row by row from its lowest to its highest y, each row
     * going through the depth test. Over the whole pass depths only go down,
     * and a pixel's colour changes only where its depth went down.
     */
    method Rasterization(target: Framebuffer, fill: bool, interp: Interpolation)
      requires Valid() && target.Valid() && Aligned(vbufferSz, triSz)
      modifies target.color, target.depth
      ensures target.depth != null ==> forall k :: 0 <= k < target.depth.Length ==> target.depth[k] <= old(target.depth[k])
      ensures target.color != null && target.depth != null ==>
                forall k :: 0 <= k < target.color.Length && target.color[k] != old(target.color[k]) ==>
                  target.depth[k] < old(target.depth[k])
    {
      var buf, vp := vbuffer, viewport;
      var e, n, len := vbufferElemSz, triSz, vbufferSz;
      var t := 0;
      while t < len
        invariant 0 <= t <= len && Aligned(t, n) && target.Valid()
        invariant target.depth != null ==> forall k :: 0 <= k < target.depth.Length ==> target.depth[k] <= old(target.depth[k])
        invariant target.color != null && target.depth != null ==>
                    forall k :: 0 <= k < target.color.Length && target.color[k] != old(target.color[k]) ==>
                      target.depth[k] < old(target.depth[k])
        decreases len - t
      {
        AlignedGap(t, len, n);
        var a := ScreenVertex(vp, buf[t .. t + e]);
        var b := ScreenVertex(vp, buf[t + e .. t + 2 * e]);
        var c := ScreenVertex(vp, buf[t + 2 * e .. t + 3 * e]);
        var v0, v1, v2 := SortByY(a, b, c);
        var y0, y1, y2 := v0[1].Floor, v1[1].Floor, v2[1].Floor;
        var rows := EdgeSchedule(v0[0], y0, v1[0], y1, v2[0], y2);
        var y := y0;
        while y <= y2
          invariant y0 <= y <= y2 + 1 && target.Valid()
          invariant target.depth != null ==> forall k :: 0 <= k < target.depth.Length ==> target.depth[k] <= old(target.depth[k])
          invariant target.color != null && target.depth != null ==>
                      forall k :: 0 <= k < target.color.Length && target.color[k] != old(target.color[k]) ==>
                        target.depth[k] < old(target.depth[k])
        {
          var row := y;
          var span := interp.span(v0, v1, v2, row, rows[..row - y0]);
          DrawScanline(target, row, span.0, span.1, fill, (k: nat) => interp.shade(v0, v1, v2, row, k));
          y := y + 1;
        }
        t := t + n;
      }
    }

    // -------------------------------------------------------------------
    // The whole pass
    // -------------------------------------------------------------------

    /**
     * Clipping, perspective division and culling over the whole working
     * buffer, in that order: the live part ends up holding the triangles
     * that survive clipping, divided by w, that the culling flag accepts,
     * in their original order.
     */
    method ClipDivideCull(cullBack: bool)
      requires Valid() && Aligned(|vbuffer|, triSz) && vbufferSz == |vbuffer|
      modifies this`vbuffer, this`vbufferSz
      ensures Valid() && |vbuffer| == old(|vbuffer|) && Aligned(vbufferSz, triSz)
      ensures var divided := ClippedDivided(old(vbuffer), vbufferElemSz);
              vbuffer[..vbufferSz] == Compacted(divided, vbufferElemSz, Culling(cullBack), |divided|)
    {
      var e := vbufferElemSz;
      ghost var processed := vbuffer;
      vbufferSz := PrimitiveClipping();
      ghost var clipped := vbuffer;
      ghost var nClipped := vbufferSz;
      ClippedReady(processed, clipped, e, nClipped);
      PerspectiveDivision();
      ghost var divided := vbuffer;
      vbufferSz := PrimitiveCulling(cullBack);
      StagesCompose(processed, clipped, divided, vbuffer, e, cullBack, nClipped, vbufferSz);
    }

    /**
     * The geometry half of `render`: resets the live size to every uploaded
     * vertex and the uniform cursor to the start of the arena, then runs
     * vertex processing, clipping, perspective division and culling. The
     * live part ends up holding the processed triangles that survive
     * clipping, divided by w, that the culling flag accepts, in their
     * original order.
     */
    method Geometry(cullBack: bool, shader: VertexShader)
      requires Valid() && WholeVertices() && Fits(shader, vertexSize) && Aligned(|vbuffer|, triSz)
      modifies this`vbuffer, this`vbufferSz, this`uniformDataIndex
      ensures Valid() && WholeVertices() && |vbuffer| == old(|vbuffer|) && Aligned(vbufferSz, triSz)
      ensures uniformDataIndex == 0
      ensures var processed := Processed(old(vbuffer), vbufferIn, vertexSize, shader, old(Env()), vbufferInSz, |vbuffer|);
              var divided := ClippedDivided(processed, vbufferElemSz);
              vbuffer[..vbufferSz] == Compacted(divided, vbufferElemSz, Culling(cullBack), |divided|)
    {
      PairedMul(nVertices, 1, vbufferElemSz);
      PairedUnique(nVertices, |vbuffer|, nVertices * vbufferElemSz, 1, vbufferElemSz);
      vbufferSz := nVertices * vbufferElemSz;
      uniformDataIndex := 0;
      VertexProcessing(shader);
      ClipDivideCull(cullBack);
    }

    /**
     * `render`: the geometry stages, which start from every uploaded vertex
     * and an emptied uniform cursor, then the rasterization. The target's depths only go down, a colour changing
     * only where its depth did.
     */
    method Render(target: Framebuffer, cullBack: bool, fill: bool, shader: VertexShader, interp: Interpolation)
      requires Valid() && WholeVertices() && Fits(shader, vertexSize) && Aligned(|vbuffer|, triSz) && target.Valid()
      modifies this, target.color, target.depth
      ensures Valid() && uniformDataIndex == 0 && |vbuffer| == old(|vbuffer|)
      ensures uniformData == old(uniformData) && vbufferIn == old(vbufferIn) && vertexSize == old(vertexSize)
      ensures nVertices == old(nVertices) && viewport == old(viewport) && attribs == old(attribs) && uniforms == old(uniforms)
      ensures var processed := Processed(old(vbuffer), vbufferIn, vertexSize, shader, old(Env()), vbufferInSz, |vbuffer|);
              var divided := ClippedDivided(processed, vbufferElemSz);
              vbuffer[..vbufferSz] == Compacted(divided, vbufferElemSz, Culling(cullBack), |divided|)
      ensures target.depth != null ==> forall k :: 0 <= k < target.depth.Length ==> target.depth[k] <= old(target.depth[k])
      ensures target.color != null && target.depth != null ==>
                forall k :: 0 <= k < target.color.Length && target.color[k] != old(target.color[k]) ==>
                  target.depth[k] < old(target.depth[k])
    {
      Geometry(cullBack, shader);
      Rasterization(target, fill, interp);
    }
  }
}
