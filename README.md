# A software rasterization pipeline, modelled in Dafny

This project models the core of a small CPU graphics pipeline written in C++.
It covers these parts:

- **`GraphicPipeline`.** This object keeps:
  - a copy of the uploaded vertex data;
  - a flat *working vertex buffer* that the fixed stages transform in place;
  - the attribute and uniform tables;
  - a fixed 100-float uniform arena with a cursor;
  - a viewport matrix.

  `render` runs five stages in order: vertex processing, clipping, perspective division, back-face culling and scanline rasterization.
  - Clipping and culling are stable in-place compactions of whole triangles (`memmove` to the front).
  - The rasterizer maps each triangle to the screen, sorts its vertices by y, picks the edges the scanline bounds follow, and sends every fragment through an early depth test before writing its colour.
- **`Framebuffer`.** A row-major colour buffer (RGBA8) and a depth buffer, with set, get and clear.
- **The octree's point insertion.** This is `Node::Node` and `Octree::add_point`. The insertion descends `MAX_DEPTH - 1` levels, computes a 3-bit octant address at each level, and lazily creates missing children.
- **The linear-algebra kernel.**
  - `vec3` and `vec4` arithmetic, `cross` and `dot`.
  - The column-major `mat4`, its constructors and both products.
  - The `viewport` matrix and the shear/scale/norm factors of `perspective`.
- **The mesh helpers.**
  - `basedir_from_path`.
  - The bounding box and centering matrix of `transform_to_center`.
  - The face-flattening loop of `load_geometry_data`.

Floats are modelled as `real`, so every computation is exact. Pixel coordinates are `int`. The vertex shader, the fragment shader and the per-pixel interpolation are parameters.

The model keeps the source's form:

- **State that the source updates in place becomes a class.**
  - `GraphicPipeline` has `seq` fields for its buffers, `map` fields for its tables and an `array` for the uniform arena.
  - `Framebuffer` has two arrays.
  - `Octree` holds an arena of nodes.
  - `Mesh` has `seq` fields for `pos`, `uv` and `normal`.
- **Each loop of the pipeline stages, the matrix products and constructors, the octree, the mesh and the framebuffer is a method with invariants.** The zeroing loops of `vec3()` and `vec4()` and the copy loop of `vec4(const vec3&, float)` are the exceptions, written as the values they produce (see Left out). Each method is proved against a function that specifies it:
  - `Processed` for vertex processing;
  - `Compacted` for clipping and culling;
  - `Divided` for perspective division;
  - `Product` and `Apply` for the matrix products;
  - `InsertFrom` for `add_point`;
  - `ShapesPos` and `ShapesUV` for the mesh loader.
- **Separate lemmas prove what the source promises about those functions.** Examples: stability and idempotence of the compaction, the shape of a divided element, associativity of the product, what the viewport does to a point, and idempotence of the octree insertion.

Modules: `Wrappers`, `Matrix`, `Transforms`, `Framebuffers`, `VertexBuffers` (the functions that specify the buffer stages), `Raster`, `Pipeline`, `Octrees`, `Mesh`.

The pipeline and the octree are modelled as the code behaves, including four defects listed under Findings:

- `add_point` places new children by the `&&` split as written.
- The depth test and colour write index cell `y*w + x` with no range check.
- The colour write clamps each channel only from above.
- When the span is not filled, the fragment step is not added on skipped columns.

The corrected behaviour of each is modelled beside it, with its intended property proved.

The code does not check the uniform arena's capacity, and a write past it is undefined behaviour. The model therefore makes room in the arena a precondition of `UploadUniform`.

## Model

| member | source | states |
|---|---|---|
| Framebuffers.Framebuffer.Cell | src/pipeline/framebuffer.cpp:33-49 | the cell `i*w + j` that the accessors index lies in both buffers whenever it lies in the first `w*h` cells |
| Framebuffers.Framebuffer.InBounds | src/pipeline/framebuffer.cpp:35-47 | pixel (i, j) lies in the target, `0 <= i < h` and `0 <= j < w`: the range the accessors leave unchecked |
| Framebuffers.Framebuffer.InBuffer | src/pipeline/framebuffer.cpp:33-49 | the cell `i*w + j` lies in the `w*h` buffers: the only requirement the accessors place on (i, j) |
| Framebuffers.Framebuffer.Empty | src/pipeline/framebuffer.cpp:3-8 | the default target has zero size and no buffers |
| Framebuffers.Framebuffer.constructor | src/pipeline/framebuffer.cpp:10-15 | the sized target has fresh colour and depth buffers of exactly `w*h` cells |
| Framebuffers.Framebuffer.ResizeBuffer | src/pipeline/framebuffer.cpp:23-28 | after resizing, the size is the new one and both buffers are fresh with `w*h` cells |
| Framebuffers.Framebuffer.Width | src/pipeline/framebuffer.cpp:30 | the width is non-negative, and a non-empty colour buffer holds `width * h` cells |
| Framebuffers.Framebuffer.Height | src/pipeline/framebuffer.cpp:31 | the height is non-negative, and a non-empty depth buffer holds `w * height` cells |
| Framebuffers.Framebuffer.SetColorBuffer | src/pipeline/framebuffer.cpp:33-37 | for any (i, j) whose cell `i*w + j` lies in the buffer, that cell gets the colour and every other cell keeps its colour |
| Framebuffers.Framebuffer.SetDepthBuffer | src/pipeline/framebuffer.cpp:39-43 | for any (i, j) whose cell lies in the buffer, reading (i, j) back gives the stored depth, and every other cell keeps its depth |
| Framebuffers.Framebuffer.GetDepthBuffer | src/pipeline/framebuffer.cpp:45-49 | reads cell `i*w + j` of the depth buffer, for any (i, j) whose cell lies in it |
| Framebuffers.Framebuffer.ClearColorBuffer | src/pipeline/framebuffer.cpp:51 | every pixel becomes all-zero |
| Framebuffers.Framebuffer.ClearDepthBuffer | src/pipeline/framebuffer.cpp:52-56 | every depth cell becomes 100 |
| Framebuffers.Framebuffer.InBoundsInBuffer | src/pipeline/framebuffer.cpp:33-49 | a pixel of the target has its cell in the buffers, which then exist |
| Framebuffers.Framebuffer.CellInjective | src/pipeline/framebuffer.cpp:36-42 | two pixels of the target share a cell if and only if they are the same pixel |
| Framebuffers.CellBound | src/pipeline/framebuffer.cpp:36 | row i, column j of a `w`-wide grid lies in the first `w*h` cells |
| Framebuffers.RowMajorInjective | src/pipeline/framebuffer.cpp:36 | equal row-major offsets with in-row columns mean the same row and column |
| Matrix.Vec3.At | src/matrix.cpp:21-22 | `vec3::operator()(i)`: component i, for 0 <= i < 3 |
| Matrix.Vec4.At | src/matrix.cpp:83-91 | `vec4::operator()(i)`: component i, for 0 <= i < 4 |
| Matrix.Cross | src/matrix.cpp:23-28 | `vec3::cross`, component by component; its meaning is stated by CrossAntiCommutative and CrossOrthogonal |
| Matrix.Dot3 | src/matrix.cpp:29-32 | `vec3::dot`, the sum of the three products; symmetric by Dot3Symmetric |
| Matrix.Neg3 | src/matrix.cpp:40-43 | unary minus negates each component |
| Matrix.Add3 | src/matrix.cpp:44-52 | `operator+`, and `operator+=` which reassigns `*this` to it: the componentwise sum |
| Matrix.Add3UndoesSub3 | src/matrix.cpp:44-57 | adding `b` back to `a - b` gives `a` |
| Matrix.Scale3 | src/matrix.cpp:58-61 | every component times k |
| Matrix.Sub3 | src/matrix.cpp:54-57 | each component of `a + (-b)` is the difference of the components |
| Matrix.CrossAntiCommutative | src/matrix.cpp:23-28 | `a × b == -(b × a)` |
| Matrix.CrossOrthogonal | src/matrix.cpp:23-32 | `a · (a × b) == 0` and `b · (a × b) == 0` |
| Matrix.Dot3Symmetric | src/matrix.cpp:29-32 | the 3-vector dot product is symmetric |
| Matrix.Sub3Self | src/matrix.cpp:40-57 | subtraction as `a + (-a)` gives the zero vector |
| Matrix.Extend | src/matrix.cpp:71-76 | `vec4(v, w)` keeps v's three components and puts `w` fourth |
| Matrix.Add4 | src/matrix.cpp:93-99 | the componentwise sum of two `vec4`s |
| Matrix.Neg4 | src/matrix.cpp:101-104 | unary minus negates each component |
| Matrix.Sub4 | src/matrix.cpp:101-109 | each component of `a + (-b)` is the difference of the components |
| Matrix.Scale4 | src/matrix.cpp:111-114 | `vec4::operator*(k)`: every component times k |
| Matrix.Dot4Scale | src/matrix.cpp:111-121 | scaling a `vec4` by k scales its dot product with any other by k |
| Matrix.Scale4Add | src/matrix.cpp:93-114 | scaling distributes over the sum of two `vec4`s |
| Matrix.Dot4 | src/matrix.cpp:116-121 | the sum of the four products, which ComputeDot4 proves the loop computes |
| Matrix.PartialDot4Full | src/matrix.cpp:116-121 | summing all four products gives the dot product |
| Matrix.ComputeDot4 | src/matrix.cpp:116-121 | the accumulating loop returns the dot product |
| Matrix.Dot4Symmetric | src/matrix.cpp:116-121 | the 4-vector dot product is symmetric |
| Matrix.Sub4Self | src/matrix.cpp:101-109 | `a - a` is the zero vector |
| Matrix.Index | src/matrix.cpp:149-157 | entry (i, j) is addressed at slot `i + 4*j`, which lies in 0..15 |
| Matrix.IndexInjective | src/matrix.cpp:149-157 | distinct (row, column) pairs address distinct slots |
| Matrix.Entry | src/matrix.cpp:149-157 | `operator()(i, j)` reads slot `i + 4*j` |
| Matrix.Columns | src/matrix.cpp:138-147 | the k-th argument becomes column k |
| Matrix.NewMat4 | src/matrix.cpp:132-136 | the default matrix has every entry zero |
| Matrix.NewMat4FromColumns | src/matrix.cpp:138-147 | the row-by-row loop puts `ck(i)` at (i, k) and yields the column matrix |
| Matrix.EqualByEntries | src/matrix.cpp:149-157 | matrices with equal entries are equal |
| Matrix.PartialRowColFull | src/matrix.cpp:162-165 | the k-loop's full sum is row i of A times column j of B |
| Matrix.ProductEntry | src/matrix.cpp:159-168 | entry (i, j) of the product is the sum over k of A(i,k)·B(k,j) |
| Matrix.Product | src/matrix.cpp:159-168 | the matrix product as sixteen row-by-column sums, which Multiply proves the loop computes |
| Matrix.Multiply | src/matrix.cpp:159-168 | the triple loop over a zeroed local computes the product entry by entry |
| Matrix.ApplyAt | src/matrix.cpp:170-177 | component i of `M*v` is row i of M times v |
| Matrix.ApplyColumns | src/matrix.cpp:170-177 | `M*v` is the sum of M's columns weighted by v's components |
| Matrix.Apply | src/matrix.cpp:170-177 | the matrix-vector product as four row sums, which MultiplyVec proves the loop computes |
| Matrix.SetAt | src/matrix.cpp:88-91 | writing component i changes that component and no other |
| Matrix.PartialRowVecFull | src/matrix.cpp:173-175 | the k-loop's full sum is row i times v |
| Matrix.MultiplyVec | src/matrix.cpp:170-177 | the double loop computes `M*v` |
| Matrix.Vec4ByComponents | src/matrix.cpp:83-91 | 4-vectors with equal components are equal |
| Matrix.IdentityEntry | src/matrix.cpp:138-147 | the identity built from unit columns has 1 on the diagonal and 0 elsewhere |
| Matrix.ProductIdentity | src/matrix.cpp:159-168 | the identity is neutral on both sides of the product |
| Matrix.Regroup | src/matrix.cpp:159-168 | a row times a matrix times a column can be regrouped (scalar form of associativity) |
| Matrix.AssocEntry | src/matrix.cpp:159-168 | entry (i, j) of (A·B)·C equals entry (i, j) of A·(B·C) |
| Matrix.ProductAssociative | src/matrix.cpp:159-168 | the matrix product is associative |
| Matrix.ApplyProductAt | src/matrix.cpp:170-177 | component i of (A·B)·v equals component i of A·(B·v) |
| Matrix.ApplyProduct | src/matrix.cpp:170-177 | applying a product applies its factors in turn: `(A*B)*v == A*(B*v)` |
| Transforms.Viewport | include/matrix.h:96-120 | `rescale * to_unit * to_origin`, the three factors as the code builds them; ViewportMaps states what it does to a point |
| Transforms.Shear | include/matrix.h:142-148 | the shear with g = (l + r)/(2 near) and h = (t + b)/(2 near) in the third column |
| Transforms.Scale | include/matrix.h:150-157 | the scale by 2 near/(r - l) and 2 near/(t - b) |
| Transforms.Norm | include/matrix.h:159-171 | the normalising matrix with α = (near + far)/(near - far), β = 2 near far/(near - far) and w = -z |
| Transforms.Perspective | include/matrix.h:134-175 | `norm * scale * shear` for the bounds b = -t and l = -r; PerspectiveMaps states its action |
| Transforms.ViewportMaps | include/matrix.h:96-120 | viewport sends (x, y, z, 1) to (w(x+1)/2, h(1-y)/2, z, 1) |
| Transforms.ViewportCorners | include/matrix.h:98-105 | the device corner (-1, 1) maps to pixel (0, 0) and (1, -1) to (w, h): the y flip |
| Transforms.ShearSymmetricIsIdentity | include/matrix.h:139-148 | with `l = -r` and `b = -t`, the shear is the identity |
| Transforms.ScaleCorner | include/matrix.h:150-157 | with symmetric bounds the scale sends the view-plane corner (r, t) to (near, near) |
| Transforms.NormMaps | include/matrix.h:159-171 | norm keeps x and y, sets depth to αz + β and sets w = -z |
| Transforms.NormDepthRange | include/matrix.h:159-171 | after division by w, view depth -near maps to -1 and -far to +1 |
| Transforms.PerspectiveMaps | include/matrix.h:134-175 | norm·scale·shear sends a view point to (near/r·x, near/t·y, αz+β, -z) |
| Mesh.FindLastOf | src/mesh.cpp:9 | `npos` exactly when the character is absent; otherwise the position of its last occurrence |
| Mesh.BasedirFromPath | src/mesh.cpp:7-11 | a prefix of the path that ends with its last `/`, is empty when there is none (`npos + 1` wraps to 0), and is followed by no `/` |
| Mesh.MinF | src/mesh.cpp:25 | `std::min`: the second argument only when it is strictly smaller |
| Mesh.MaxF | src/mesh.cpp:26 | `std::max`: the second argument only when the first is strictly smaller |
| Mesh.MinAxis | src/mesh.cpp:19-27 | the running minimum on axis j after n vertices, starting from FLT_MAX; AxisBounds and AxisAttained state its meaning |
| Mesh.MaxAxis | src/mesh.cpp:20-27 | the running maximum on axis j after n vertices, starting from -FLT_MAX |
| Mesh.BoxMin | src/mesh.cpp:19-27 | the minimum corner of the box, axis by axis over all vertices |
| Mesh.BoxMax | src/mesh.cpp:20-27 | the maximum corner of the box, axis by axis over all vertices |
| Mesh.AxisBounds | src/mesh.cpp:22-27 | the running min and max on an axis enclose every vertex seen so far |
| Mesh.AxisAttained | src/mesh.cpp:22-27 | each running bound is a coordinate seen, or still the ±FLT_MAX start value |
| Mesh.WithAxis | src/mesh.cpp:25-26 | `min(j) = ...` changes axis j only |
| Mesh.BoundingBox | src/mesh.cpp:19-27 | the loop computes the box, and every vertex lies inside it on every axis |
| Mesh.Center | src/mesh.cpp:32 | the centre `(min + max) * 0.5` |
| Mesh.ToOrigin | src/mesh.cpp:46-49 | the translation by minus the centre, as a column matrix |
| Mesh.UniformScale | src/mesh.cpp:51-58 | the uniform scale by s on all three axes |
| Mesh.FromOrigin | src/mesh.cpp:60-63 | the translation by -5.5 along z |
| Mesh.Centering | src/mesh.cpp:51-66 | `from_origin * scale * to_origin` with s = 1/(max.x - min.x); CenteringMaps states its action |
| Mesh.ToOriginMaps | src/mesh.cpp:46-49 | `to_origin` subtracts the box centre |
| Mesh.UniformScaleMaps | src/mesh.cpp:53-58 | `scale` multiplies each coordinate by s |
| Mesh.FromOriginMaps | src/mesh.cpp:60-63 | `from_origin` moves a point 5.5 along -z |
| Mesh.CenteringMaps | src/mesh.cpp:46-66 | M scales offsets from the centre by 1/(max.x - min.x) and lands the centre at depth -5.5 |
| Mesh.CenterToMidDepth | src/mesh.cpp:29-66 | M sends the box centre to (0, 0, -5.5) |
| Mesh.CenteringUnitWidth | src/mesh.cpp:51-66 | M maps the box's two x faces exactly one unit apart |
| Mesh.FlatPosLength | src/mesh.cpp:105-114 | three position floats per corner |
| Mesh.FlatUVLength | src/mesh.cpp:118-126 | two texcoord floats per corner when texcoords exist, none otherwise |
| Mesh.ShapesPosLength | src/mesh.cpp:94-141 | `pos` grows by 3 floats per face corner over all shapes |
| Mesh.ShapesUVLength | src/mesh.cpp:94-141 | `uv` grows by 2 floats per face corner only when the file has texcoords |
| Mesh.FlatPosAt | src/mesh.cpp:107-114 | corner k's vertex floats sit at offset 3k: corner order is kept |
| Mesh.FlatStep | src/mesh.cpp:105-127 | one more corner appends exactly that corner's floats |
| Mesh.ShapesStep | src/mesh.cpp:94-141 | one more shape appends exactly that shape's flattened corners |
| Mesh.ValidCornersPrefix | src/mesh.cpp:105-111 | readable corners stay readable in a shorter prefix |
| Mesh.FaceTotalMonotone | src/mesh.cpp:98-139 | the offset `attrib_offset` never decreases as faces advance |
| Mesh.PushCorner | src/mesh.cpp:107-126 | the body of the corner loop appends the vertex's 3 floats and, if present, 2 texcoord floats |
| Mesh.PushFace | src/mesh.cpp:105-127 | the corner loop appends the face's corners in order |
| Mesh.PushShape | src/mesh.cpp:96-140 | the face loop, with `attrib_offset` advancing by each face's count, appends every corner of the shape |
| Mesh.Mesh.constructor | include/mesh.h:27 | a new mesh has no positions, texcoords or normals |
| Mesh.Mesh.TransformToCenter | src/mesh.cpp:16-67 | returns the centering matrix of the bounding box, which sends the box centre to (0, 0, -5.5) |
| Mesh.Mesh.LoadGeometryData | src/mesh.cpp:88-142 | `pos` and `uv` grow by the flattened corners of every shape, in order; `normal` is untouched |
| Octrees.NewNode | shaders/octree.cpp:4-10 | a new node is internal with eight null children |
| Octrees.Address | shaders/octree.cpp:31-34 | the address is below 8, with bit 4/2/1 set if and only if x/y/z is not below the split |
| Octrees.ChildSplitAsWritten | shaders/octree.cpp:50-53 | the code as written moves all three axes by -shift for octant 0 and by +shift otherwise |
| Octrees.ChildSplit | shaders/octree.cpp:50-53 | each axis moves by ±shift according to its own address bit |
| Octrees.ChildSplitSameOctant | shaders/octree.cpp:42-53 | the child's centre lies in the octant of the point that created it, on every axis |
| Octrees.AsWrittenMisplacesChild | shaders/octree.cpp:51-53 | a concrete point whose child the code places on the wrong side on x and y |
| Octrees.HalveSide | shaders/octree.cpp:58 | halving the side once per level gives the side of the next level |
| Octrees.SideAt | shaders/octree.cpp:24-58 | the side `l` after i halvings of the root side |
| Octrees.Attach | shaders/octree.cpp:38-40 | the arena after linking a new node in the null slot and appending it |
| Octrees.NewChild | shaders/octree.cpp:40-53 | the node created through a null link: eight null children and the split shifted by l/4 by the `&&` rule as written |
| Octrees.InsertFrom | shaders/octree.cpp:17-68 | the insertion `add_point` performs, with the `&&` split as written; InsertWellFormed, InsertFrame and InsertIdempotent state its meaning |
| Octrees.AttachValid | shaders/octree.cpp:37-54 | creating a child in a null slot keeps the arena well formed: links one level down, eight links per internal node, internal nodes above the leaf level (tree shape is AttachTree) |
| Octrees.LinksTo | shaders/octree.cpp:37-40 | slot k of node j holds the child pointer to node c |
| Octrees.TreeShaped | shaders/octree.cpp:17-68 | the child links form a tree rooted at node 0: the root is never a child, no node hangs from two slots, and every other node hangs from one |
| Octrees.AttachTree | shaders/octree.cpp:37-54 | linking one new node from one null slot keeps the arena a tree |
| Octrees.LeafTree | shaders/octree.cpp:64-67 | the leaf write on the leaf level removes no link, so the arena stays a tree |
| Octrees.InsertTree | shaders/octree.cpp:17-68 | an insertion keeps the arena a tree |
| Octrees.InsertCreates | shaders/octree.cpp:37-61 | through a null link, insertion continues from the newly created child |
| Octrees.LeafValid | shaders/octree.cpp:64-67 | writing the leaf on the leaf level keeps the arena well formed |
| Octrees.InsertWellFormed | shaders/octree.cpp:17-68 | insertion keeps the arena well formed, only appends nodes, and stores p in a node on the leaf level |
| Octrees.InsertWellFormedCreating | shaders/octree.cpp:37-61 | the same, in the step that creates a child |
| Octrees.AttachKeeps | shaders/octree.cpp:37-54 | creating a child changes no other node and keeps every existing link |
| Octrees.InsertFrame | shaders/octree.cpp:17-68 | insertion never replaces or removes an existing child link and leaves upper levels alone |
| Octrees.InsertFrameCreating | shaders/octree.cpp:37-61 | the same, in the step that creates a child |
| Octrees.RevisitStep | shaders/octree.cpp:37-61 | after an insertion, a second insertion takes the same step down |
| Octrees.InsertIdempotent | shaders/octree.cpp:17-68 | inserting the same point twice gives the same tree as inserting it once |
| Octrees.IdempotentExisting | shaders/octree.cpp:37-61 | idempotence through an existing child |
| Octrees.IdempotentCreating | shaders/octree.cpp:37-61 | idempotence through a child the first insertion creates |
| Octrees.Descend | shaders/octree.cpp:30-61 | one level of the loop computes the address bit by bit, creates a missing child with the split the code writes, and continues the same insertion from the child |
| Octrees.Octree.constructor | shaders/octree.cpp:19-24 | an empty tree holds only the root, with the given box and split |
| Octrees.Octree.AddPoint | shaders/octree.cpp:17-68 | walks `MAX_DEPTH - 1` levels, halving the side, and leaves exactly the insertion's tree, with children placed by the `&&` split as written; the arena stays well formed and a tree; the box is unchanged |
| Pipeline.UploadShape | src/pipeline/pipeline.cpp:55-81 | the working buffer holds one element of `vs + 5` slots per whole vertex, matching the input when no partial vertex remains |
| Pipeline.StoreVertex | src/pipeline/pipeline.cpp:197-204 | the shader's outputs, the position and the final 1.0 put the processed element in place, and nothing else changes |
| Pipeline.ProcessStep | src/pipeline/pipeline.cpp:183-205 | one pass of the vertex loop processes one more vertex |
| Pipeline.ClipDiscard | src/pipeline/pipeline.cpp:215-237 | a triangle is discarded if and only if some vertex has w <= 0 or a coordinate outside [-w, w] |
| Pipeline.CompactStep | src/pipeline/pipeline.cpp:260-267 | a kept triangle is moved down to the kept prefix and a rejected one is skipped |
| Pipeline.DivideElement | src/pipeline/pipeline.cpp:280-284 | every slot of the element is divided by its w, read before the loop; nothing else changes |
| Pipeline.Facing | src/pipeline/pipeline.cpp:298-310 | computes the z of the cross product of the two screen-plane edges |
| Pipeline.FacingKept | src/pipeline/pipeline.cpp:310-316 | keeps a triangle if and only if `cull_back && cz >= 0` or `!cull_back && cz <= 0` |
| Pipeline.GraphicPipeline.constructor | src/pipeline/pipeline.cpp:6-19 | no data, a fresh 100-float uniform arena, cursor at 0, empty tables |
| Pipeline.GraphicPipeline.UploadData | src/pipeline/pipeline.cpp:53-84 | stores the data, sets `n_vertices = n / vs`, element `vs + 5`, triangle three elements and a working buffer of one element per vertex; nothing else changes |
| Pipeline.GraphicPipeline.DefineAttribute | src/pipeline/pipeline.cpp:86-96 | `name` now maps to (size, stride), replacing any earlier entry; other names and all other state are unchanged |
| Pipeline.GraphicPipeline.UploadUniform | src/pipeline/pipeline.cpp:98-111 | the uniform reads back exactly the uploaded floats at the old cursor, earlier arena contents stay, and the cursor advances by n |
| Pipeline.GraphicPipeline.UploadUniformValue | src/pipeline/pipeline.cpp:113-123 | the same with one float |
| Pipeline.GraphicPipeline.SetViewport | src/pipeline/pipeline.cpp:125-128 | only the viewport changes |
| Pipeline.GraphicPipeline.VertexProcessing | src/pipeline/pipeline.cpp:178-208 | the working buffer becomes one processed element per input vertex, in order |
| Pipeline.GraphicPipeline.PrimitiveClipping | src/pipeline/pipeline.cpp:210-271 | the returned prefix, a multiple of the triangle size, holds exactly the triangles inside the clip volume, in order; later slots keep their contents |
| Pipeline.GraphicPipeline.PerspectiveDivision | src/pipeline/pipeline.cpp:273-288 | every live element is divided by its own w; slots past the live part are untouched |
| Pipeline.GraphicPipeline.PrimitiveCulling | src/pipeline/pipeline.cpp:290-325 | the returned prefix holds exactly the triangles whose winding the flag accepts, in order |
| Pipeline.GraphicPipeline.Rasterization | src/pipeline/pipeline.cpp:327-574 | over the pass every depth only goes down, and a colour changes only where its depth went down |
| Pipeline.GraphicPipeline.ClipDivideCull | src/pipeline/pipeline.cpp:146-148 | the live part becomes the clipped, divided and then culled triangles, in order |
| Pipeline.GraphicPipeline.Geometry | src/pipeline/pipeline.cpp:134-148 | resets the live size and the uniform cursor, then leaves the processed, clipped, divided and culled triangles in order |
| Pipeline.GraphicPipeline.Render | src/pipeline/pipeline.cpp:130-150 | the geometry result as above, the uniform cursor at 0, and the target's depth-only-decreases rule |
| Raster.SubVertex | src/pipeline/pipeline.cpp:155-160 | the first n slots become lhs - rhs, even when the target aliases an operand; the rest are unchanged |
| Raster.ScalarVertex | src/pipeline/pipeline.cpp:162-167 | the first n slots become lhs * k, also in place |
| Raster.IncVertex | src/pipeline/pipeline.cpp:169-173 | the first n slots grow by inc |
| Raster.Round | src/pipeline/pipeline.cpp:333 | `(int)(x + 0.5f)`: the nearest integer, halves going up, from -1/2 up; below that the cast rounds x + 1/2 toward zero |
| Raster.ScreenVertex | src/pipeline/pipeline.cpp:375-388 | the screen vertex has the element's length |
| Raster.ScreenVertexSlots | src/pipeline/pipeline.cpp:375-388 | holds the rounded pixel column and row, the depth, 1/w and the attributes |
| Raster.CornerPixelOutsideTarget | src/pipeline/pipeline.cpp:375-388 | a vertex that survives clipping can land on column `width` and row `height`, outside the target |
| Raster.RoundWhole | src/pipeline/pipeline.cpp:333 | `ROUND` leaves a whole number from zero up unchanged |
| Raster.SortByY | src/pipeline/pipeline.cpp:391-393 | after the three swaps y0 <= y1 <= y2, and the vertices are a permutation of the inputs |
| Raster.RightSide | src/pipeline/pipeline.cpp:437 | the z of the cross product of v0v1 and v0v2 in the screen plane |
| Raster.InitialEdges | src/pipeline/pipeline.cpp:438-449 | start follows v0v2 and end v0v1 when v1 is on the right, and the reverse otherwise |
| Raster.EdgeSchedule | src/pipeline/pipeline.cpp:437-557 | below row y1 the bounds follow the initial edges; from row y1 on (the switch happens before the increment) no bound follows v0v1, v1v2 replaces the chosen bound, and without a flat top the other bound still follows v0v2 |
| Raster.Trunc | src/pipeline/pipeline.cpp:537-540 | the C cast to `int`: the integer next to x on the side of zero |
| Raster.Min | src/pipeline/pipeline.cpp:537-540 | `std::min(255, …)` on the int channel: at most both arguments and equal to one of them |
| Raster.ChannelAsWritten | src/pipeline/pipeline.cpp:537-540 | `std::min(255, (int)(c*255))` stored in an unsigned byte, modulo 256 |
| Raster.Channel | src/pipeline/pipeline.cpp:537-540 | the two-sided clamp to 0..255; ChannelRange states its meaning |
| Raster.NegativeChannelWraps | src/pipeline/pipeline.cpp:537-540 | a channel of -0.01 is stored as 254 by the code and as 0 by the clamped conversion |
| Raster.ChannelAgreesWhenNonNegative | src/pipeline/pipeline.cpp:537-540 | both conversions agree on non-negative channels |
| Raster.ChannelRange | src/pipeline/pipeline.cpp:537-540 | the clamped channel is 0 below zero, 255 from one up, ⌊255c⌋ in between, and monotone |
| Raster.TruncMonotone | src/pipeline/pipeline.cpp:537-540 | the C cast to int keeps order |
| Raster.ToPixel | src/pipeline/pipeline.cpp:536-541 | the four channels converted as the code writes them |
| Raster.ShadeFragment | src/pipeline/pipeline.cpp:523-542 | the cell `y*w + x` takes the fragment's depth and colour if and only if it lies in the buffers and the fragment is strictly nearer; every other cell is unchanged |
| Raster.ColumnPastRowWraps | src/pipeline/framebuffer.cpp:33-49 | column w of a row other than the last is outside the target, yet its cell is that of pixel (y + 1, 0) |
| Raster.CornerCellOutsideBuffer | src/pipeline/framebuffer.cpp:33-49 | the cell of the corner pixel (h, w) lies past the end of the buffers |
| Raster.OtherPixelOtherCell | src/pipeline/framebuffer.cpp:36-42 | a fragment at a pixel of the target never reaches the cell of another pixel of the target |
| Raster.ShadeFragmentInTarget | src/pipeline/pipeline.cpp:523-542 | the intended write: a fragment in the target lowers its own pixel's depth to the nearer of the two, paints it with ToPixel of its colour when strictly nearer, and changes no other pixel; a fragment outside the target changes nothing |
| Raster.Drawn | src/pipeline/pipeline.cpp:489-496 | the pixels of the span s..e that reach the depth test: all of them when filling, otherwise only s and e, the others being skipped by the `continue` |
| Raster.IncrementsBefore | src/pipeline/pipeline.cpp:489-545 | the steps added to the fragment when column x is reached: x - s when filling; 0 at s and 1 after it otherwise, since skipped columns add none |
| Raster.DrawScanline | src/pipeline/pipeline.cpp:482-546 | every drawn cell (all of the span when filling, its ends otherwise) ends at the min of its old depth and that of the fragment reached after the steps the code has added; a drawn cell's colour becomes ToPixel of that fragment's colour when the fragment is strictly nearer and stays otherwise; other cells keep depth and colour |
| Raster.ScanlineCells | src/pipeline/pipeline.cpp:489-545 | the state of the target once the drawn pixels before column x were tested: a cell whose pixel was drawn with a strictly nearer fragment holds that fragment's depth and ToPixel colour, every other cell its old ones |
| Raster.ShadeColumn | src/pipeline/pipeline.cpp:498-545 | testing the drawn pixel at column x, with the fragment reached after the loop's step count, which equals IncrementsBefore, extends ScanlineCells from column x to x + 1 |
| Raster.ScanlineSkip | src/pipeline/pipeline.cpp:496 | a column skipped by the `continue` extends ScanlineCells with no change to the target |
| Raster.ScanlineOutcome | src/pipeline/pipeline.cpp:482-546 | at the end of the span, ScanlineCells gives each drawn pixel the nearer depth and the colour of its fragment when strictly nearer; undrawn cells keep their depth, and colours change only where depth went down |
| Raster.OutlineEndFragmentAsWritten | src/pipeline/pipeline.cpp:489-545 | with the span not filled, the end of the span 0..2 of a fragment going from 0 to 2 is tested with 1, not 2 |
| Raster.SpanEndReachesEnd | src/pipeline/pipeline.cpp:482-545 | stepping on every column, drawn or skipped, the fragment at the span end is the end vertex |
| VertexBuffers.AlignedGap | src/pipeline/pipeline.cpp:213 | the next triangle start is at least a triangle before the end |
| VertexBuffers.AlignedMul | src/pipeline/pipeline.cpp:80-81 | k triangles are triangle-aligned |
| VertexBuffers.AlignedElements | src/pipeline/pipeline.cpp:278 | a whole number of triangles is a whole number of elements |
| VertexBuffers.Abs | src/pipeline/pipeline.cpp:232 | `std::fabs`: non-negative and equal to x or -x |
| VertexBuffers.InsideFrustum | src/pipeline/pipeline.cpp:219-237 | a vertex is kept when w > 0 and |x|, |y| and |z| are at most w |
| VertexBuffers.FacingZ | src/pipeline/pipeline.cpp:302-310 | the z of the cross product of the edges v0v1 and v0v2 in the screen plane |
| VertexBuffers.Keeps | src/pipeline/pipeline.cpp:215-237 | clipping keeps a triangle whose three vertices are inside; culling keeps it when `cull_back && cz >= 0` or `!cull_back && cz <= 0` |
| VertexBuffers.Compacted | src/pipeline/pipeline.cpp:210-271 | the compaction is no longer than its input and whole triangles |
| VertexBuffers.CompactedSnoc | src/pipeline/pipeline.cpp:260-267 | one more triangle is appended exactly when the stage keeps it |
| VertexBuffers.AllKeepAppend | src/pipeline/pipeline.cpp:213 | whether the leading triangles pass depends only on them |
| VertexBuffers.CompactedKeeps | src/pipeline/pipeline.cpp:210-271 | every surviving triangle passes the test |
| VertexBuffers.AllKeepSnoc | src/pipeline/pipeline.cpp:260-267 | appending a passing triangle keeps every triangle passing |
| VertexBuffers.CompactedAllKept | src/pipeline/pipeline.cpp:210-271 | a kept triangle is never dropped: when all pass, nothing changes |
| VertexBuffers.CompactedIdempotent | src/pipeline/pipeline.cpp:210-271 | compacting twice equals compacting once |
| VertexBuffers.CompactedPrefix | src/pipeline/pipeline.cpp:213 | only the live part matters |
| VertexBuffers.WholeTriangles | src/pipeline/pipeline.cpp:79-81 | a vertex count divisible by three fills whole triangles |
| VertexBuffers.NonZeroWAt | src/pipeline/pipeline.cpp:278-281 | each live element has a nonzero w |
| VertexBuffers.NonZeroWPrefix | src/pipeline/pipeline.cpp:278 | a nonzero w in the live part holds in a shorter prefix too |
| VertexBuffers.ClippedNonZeroW | src/pipeline/pipeline.cpp:225-229 | every vertex that survives clipping has w > 0, so the division is defined |
| VertexBuffers.DivideVertex | src/pipeline/pipeline.cpp:280-284 | the divided element keeps its length and has w = 1 |
| VertexBuffers.DivideVertexScales | src/pipeline/pipeline.cpp:283-284 | scaling back by w restores every slot |
| VertexBuffers.Divided | src/pipeline/pipeline.cpp:273-288 | the divided buffer keeps the live length |
| VertexBuffers.DividedElement | src/pipeline/pipeline.cpp:278-285 | each element of the divided buffer is the input element divided by its own w |
| VertexBuffers.DividedSlots | src/pipeline/pipeline.cpp:273-288 | after division, slot 3 is 1 and the last slot (1.0 before) is 1/w |
| VertexBuffers.DividedSnoc | src/pipeline/pipeline.cpp:278-285 | dividing one more element appends it divided |
| VertexBuffers.DividedPrefix | src/pipeline/pipeline.cpp:278 | the division reads only the live part |
| VertexBuffers.ClippedDivided | src/pipeline/pipeline.cpp:146-147 | clipped-then-divided data is no longer than the input and whole triangles |
| VertexBuffers.ProcessedVertex | src/pipeline/pipeline.cpp:197-204 | a processed element keeps the element length |
| VertexBuffers.ProcessedVertexSlots | src/pipeline/pipeline.cpp:197-204 | the position comes first, then the outputs, slots the shader left alone are unchanged, and the last slot is 1.0 |
| VertexBuffers.PairedMul | src/pipeline/pipeline.cpp:57-81 | n vertices of each size are paired |
| VertexBuffers.PairedStep | src/pipeline/pipeline.cpp:183-185 | the loop steps one vertex on each side |
| VertexBuffers.PairedLess | src/pipeline/pipeline.cpp:183-185 | input slots left mean an output element is left |
| VertexBuffers.PairedUnique | src/pipeline/pipeline.cpp:134 | the vertex count fixes the working-buffer size |
| VertexBuffers.Processed | src/pipeline/pipeline.cpp:178-208 | the processed buffer keeps the working-buffer length |
| VertexBuffers.ProcessedExtend | src/pipeline/pipeline.cpp:183-205 | one more input vertex appends its processed element |
| VertexBuffers.ProcessedLast | src/pipeline/pipeline.cpp:197-204 | the last element is the shader's result on the last input vertex |
| VertexBuffers.ProcessedEarlier | src/pipeline/pipeline.cpp:183-205 | later vertices leave earlier elements alone |
| VertexBuffers.ProcessedBlock | src/pipeline/pipeline.cpp:183-205 | element k of the processed buffer is the shader's result on input vertex k |
| VertexBuffers.SubV | src/pipeline/pipeline.cpp:155-160 | the difference has lhs's length |
| VertexBuffers.ScaleV | src/pipeline/pipeline.cpp:162-167 | the scaled vertex has lhs's length |
| VertexBuffers.AddV | src/pipeline/pipeline.cpp:169-173 | the sum has the target's length |
| VertexBuffers.Steps | src/pipeline/pipeline.cpp:556-557 | stepping keeps the length |
| VertexBuffers.StepsLinear | src/pipeline/pipeline.cpp:545-557 | k increments by d add k·d |
| VertexBuffers.StepsReachEnd | src/pipeline/pipeline.cpp:402-418 | stepping from v0 by (v1 - v0)/dy for dy rows lands exactly on v1 |
| VertexBuffers.Spliced | src/pipeline/pipeline.cpp:264-265 | an in-place block write keeps the buffer length |
| VertexBuffers.SplicedAppend | src/pipeline/pipeline.cpp:264-266 | moving a block to the kept prefix extends the prefix and keeps the rest |
| VertexBuffers.SplicedGrow | src/pipeline/pipeline.cpp:283-284 | writing the next slot extends the written prefix of the block by one |
| VertexBuffers.SplicedAt | src/pipeline/pipeline.cpp:264-265 | each slot comes from the block inside it and from the old buffer outside |
| VertexBuffers.SuffixSlice | src/pipeline/pipeline.cpp:264-265 | buffers that agree from a slot on agree on every slice there |
| VertexBuffers.ProcessAhead | src/pipeline/pipeline.cpp:183-185 | while input remains, the next vertex and its element fit |
| VertexBuffers.ProcessedVertexWrites | src/pipeline/pipeline.cpp:197-204 | the three writes together put the processed element in place |
| VertexBuffers.ProcessStored | src/pipeline/pipeline.cpp:183-205 | storing the next result processes one more vertex |
| VertexBuffers.ProcessedDone | src/pipeline/pipeline.cpp:183-208 | at loop exit the buffer is the processed buffer |
| VertexBuffers.CompactAhead | src/pipeline/pipeline.cpp:213 | the next triangle lies inside the live part |
| VertexBuffers.CompactKept | src/pipeline/pipeline.cpp:260-267 | moving a kept triangle down compacts one more triangle |
| VertexBuffers.CompactSkipped | src/pipeline/pipeline.cpp:260 | skipping a rejected triangle compacts one more triangle |
| VertexBuffers.DivideAhead | src/pipeline/pipeline.cpp:278-281 | the next element is live and has a nonzero w |
| VertexBuffers.DivideDone | src/pipeline/pipeline.cpp:280-284 | dividing the next element divides one more |
| VertexBuffers.ClippedReady | src/pipeline/pipeline.cpp:146-147 | after clipping, the live part is whole elements with nonzero w |
| VertexBuffers.StagesCompose | src/pipeline/pipeline.cpp:146-148 | clipping, division and culling run in place leave the culled compaction of the clipped, divided data |

## Left out

- Shader side effects: the vertex and fragment shaders, and the rasterizer's per-row span and per-pixel interpolation, are function parameters (`VertexShader`, `Interpolation`). The model states the structure around them, not their numerics.
  - This covers `scalar_vertex` by 1/W, `dV_dx` and perspective-correct interpolation.
  - It also covers the divisions by zero when `e == s` or `dy == 0`.
- The zeroing loops of `vec3()` and `vec4()` and the component copy loop of `vec4(const vec3&, float)` (src/matrix.cpp:19, 66-76) are not methods: they are the values they produce, the constants `Zero3` and `Zero4` and the function `Extend`. The order of their element writes is not modelled.
- Texture units, `bind_tex_unit` and the shader setters `set_vertex_shader`/`set_fragment_shader` only store pointers. They are not modelled.
- Floating point is modelled by exact reals. `ROUND(x)` and the `(int)` casts truncate toward zero. IEEE rounding, infinities and NaN are not modelled.
- Pipeline.GraphicPipeline.Rasterization: states the depth-only-decreases rule and the colour-follows-depth rule. It does not state which pixels each triangle covers, because that depends on the abstract interpolation.
- Pipeline.GraphicPipeline.VertexProcessing, Geometry and Render require whole vertices and whole triangles (`WholeVertices`, `Aligned`). The source reads past the input or the buffer otherwise.
- Pipeline.GraphicPipeline.UploadUniform and UploadUniformValue require room in the 100-float arena. The source writes past it without a check.
- Pipeline.GraphicPipeline.Geometry and ClipDivideCull group the stage calls of `render`. They are not separate functions in the source.
- The working vertex buffer is a `seq<real>` field. Each stage copies it to a local, runs its loop on the copy and writes it back. The `NULL` initial buffers are empty sequences. `new float[n]` leaves contents arbitrary, which is modelled by a `:|` choice.
- Framebuffer destruction and `delete[]` are not modelled (no memory management).
- Octrees.Octree.constructor: `set_aabb` and `MAX_DEPTH` are not part of this model. The constructor takes the box, the root split and `MAX_DEPTH` as parameters.
- `Node::~Node`, `is_inside` and `closest_leaf` are not modelled.
- The `Internal`/`Leaf` union is a tagged datatype, and `add_point`'s last write turns the node into a leaf. Reads of one union arm through the other are not modelled.
- `mat4::view`, `vec3::unit`, `vec4::unit` and the `tan` in `perspective` need square roots and trigonometry, so they are not modelled. `Transforms.Perspective` takes the half extents `t` and `r` as inputs.
- `Mesh::load_file` reads a file through tinyobjloader and is not modelled. Its `basedir_from_path` is modelled.
- Mesh.Mesh.LoadGeometryData: the loader's `shapes` and `attrib` arrays are inputs, and every index is required to be readable (`WellFormed`). Normals are never loaded by the source and stay unchanged. The `push_back`s are modelled on local sequences assigned to the fields at the end.
- Mesh.Mesh.TransformToCenter requires a nonzero x extent of the box, since the source divides by it.
- Raster.ShadeFragment: a pixel whose cell lies past the buffers is undefined behaviour in the code; the model leaves the target unchanged for it.

## Findings

| source | as written | input that shows it | evidently intended | confidence | as-written member | corrected member |
|---|---|---|---|---|---|---|
| shaders/octree.cpp:51-53 | `address && 0b100` is a logical and, so every nonzero address shifts all three axes by +l/4 | point (-1, -1, 1) with split (0, 0, 0): address 1, yet the child centre is (1, 1, 1) | bitwise `&`, so that each axis moves towards its own address bit | high (not executed) | Octrees.ChildSplitAsWritten, Octrees.AsWrittenMisplacesChild | Octrees.ChildSplit, Octrees.ChildSplitSameOctant |
| src/pipeline/pipeline.cpp:375-388, 523-542 | a vertex that passes clipping can be rounded to column `width` or row `height`, and the accessors index cell `y*w + x` with no range check | a vertex at device (1, -1) maps to pixel (width, height), whose cell is past the buffers; column `width` of row y reaches the cell of pixel (y + 1, 0) | only pixels inside the target are tested and written | medium (not executed) | Raster.CornerPixelOutsideTarget, Raster.ColumnPastRowWraps, Raster.CornerCellOutsideBuffer | Raster.ShadeFragmentInTarget |
| src/pipeline/pipeline.cpp:537-540 | `std::min(255, (int)(c*255))` clamps only from above, and the negative int wraps when stored in an unsigned byte | channel -0.01 is stored as 254 | clamp to 0..255 on both sides | medium (not executed) | Raster.ChannelAsWritten, Raster.NegativeChannelWraps | Raster.Channel, Raster.ChannelRange, Raster.ChannelAgreesWhenNonNegative |
| src/pipeline/pipeline.cpp:489-545 | the `continue` that skips inner columns when the span is not filled also skips `inc_vertex`, so the step is added once, after column s | span from column 0 to 2 of a fragment going from 0 to 2: the end is tested with 1, the fragment of column 1 | add the step on every column, so the end is tested with the end vertex | medium (not executed) | Raster.IncrementsBefore, Raster.OutlineEndFragmentAsWritten | Raster.SpanEndReachesEnd |
