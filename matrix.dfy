/**
 * The small linear-algebra kernel: 3- and 4-component vectors and a 4x4
 * matrix stored column-major in 16 slots. Floats are modelled as reals.
 *
 * The vector operations, `cross` and `dot` on 3-vectors are expressions and
 * are functions here. The matrix constructors, the two products and the
 * 4-vector dot product accumulate into a local inside loops; they are methods,
 * each proved equal to the function that specifies it.
 */
module Matrix {

  datatype Vec3 = Vec3(x: real, y: real, z: real)
  {
    /** `vec3::operator()(i)`: component `i`. */
    function At(i: int): real
      requires 0 <= i < 3
    {
      if i == 0 then x else if i == 1 then y else z
    }
  }

  datatype Vec4 = Vec4(x: real, y: real, z: real, w: real)
  {
    /** `vec4::operator()(i)`: component `i`. */
    function At(i: int): real
      requires 0 <= i < 4
    {
      if i == 0 then x else if i == 1 then y else if i == 2 then z else w
    }
  }

  /** The default-constructed `vec3` and `vec4`: every component zero. */
  const Zero3 := Vec3(0.0, 0.0, 0.0)
  const Zero4 := Vec4(0.0, 0.0, 0.0, 0.0)

  /** A `mat4`: sixteen floats, entry (i, j) in slot i + 4*j. */
  type Mat4 = e: seq<real> | |e| == 16
    witness [0.0, 0.0, 0.0, 0.0, 0.0, 0.0, 0.0, 0.0, 0.0, 0.0, 0.0, 0.0, 0.0, 0.0, 0.0, 0.0]

  // ---------------------------------------------------------------------
  // vec3
  // ---------------------------------------------------------------------

  function Add3(a: Vec3, b: Vec3): Vec3 { Vec3(a.x + b.x, a.y + b.y, a.z + b.z) }

  function Neg3(a: Vec3): Vec3 { Vec3(-a.x, -a.y, -a.z) }

  /** Adding `b` back (`operator+=`) undoes subtracting it. */
  lemma Add3UndoesSub3(a: Vec3, b: Vec3)
    ensures Add3(Sub3(a, b), b) == a
  {
  }

  /** `vec3::operator-(rhs)` is written in the source as `a + (-b)`. */
  function Sub3(a: Vec3, b: Vec3): (r: Vec3)
    ensures forall i | 0 <= i < 3 :: r.At(i) == a.At(i) - b.At(i)
  {
    Add3(a, Neg3(b))
  }

  function Scale3(a: Vec3, k: real): Vec3 { Vec3(a.x * k, a.y * k, a.z * k) }

  function Dot3(a: Vec3, b: Vec3): real { a.x * b.x + a.y * b.y + a.z * b.z }

  function Cross(a: Vec3, b: Vec3): Vec3
  {
    Vec3(a.y * b.z - a.z * b.y,
         a.z * b.x - a.x * b.z,
         a.x * b.y - a.y * b.x)
  }

  /** The cross product is anti-commutative. */
  lemma CrossAntiCommutative(a: Vec3, b: Vec3)
    ensures Cross(a, b) == Neg3(Cross(b, a))
  {
  }

  /** The cross product is orthogonal to both of its operands. */
  lemma CrossOrthogonal(a: Vec3, b: Vec3)
    ensures Dot3(a, Cross(a, b)) == 0.0
    ensures Dot3(b, Cross(a, b)) == 0.0
  {
    assert Dot3(a, Cross(a, b))
        == a.x * (a.y * b.z - a.z * b.y) + a.y * (a.z * b.x - a.x * b.z) + a.z * (a.x * b.y - a.y * b.x);
    assert Dot3(b, Cross(a, b))
        == b.x * (a.y * b.z - a.z * b.y) + b.y * (a.z * b.x - a.x * b.z) + b.z * (a.x * b.y - a.y * b.x);
  }

  lemma Dot3Symmetric(a: Vec3, b: Vec3)
    ensures Dot3(a, b) == Dot3(b, a)
  {
  }

  /** Because subtraction is addition of the negation, `a - a` is the zero vector. */
  lemma Sub3Self(a: Vec3)
    ensures Sub3(a, a) == Zero3
  {
  }

  // ---------------------------------------------------------------------
  // vec4
  // ---------------------------------------------------------------------

  /** `vec4(v, w)`: a 3-vector extended with a fourth component. */
  function Extend(v: Vec3, w: real): (r: Vec4)
    ensures forall i | 0 <= i < 3 :: r.At(i) == v.At(i)
    ensures r.At(3) == w
  {
    Vec4(v.x, v.y, v.z, w)
  }

  function Add4(a: Vec4, b: Vec4): Vec4 { Vec4(a.x + b.x, a.y + b.y, a.z + b.z, a.w + b.w) }

  function Neg4(a: Vec4): Vec4 { Vec4(-a.x, -a.y, -a.z, -a.w) }

  /** `vec4::operator-(rhs)` is written in the source as `a + (-b)`. */
  function Sub4(a: Vec4, b: Vec4): (r: Vec4)
    ensures forall i | 0 <= i < 4 :: r.At(i) == a.At(i) - b.At(i)
  {
    Add4(a, Neg4(b))
  }

  /** `vec4::operator*(k)`: every component times `k`. */
  function Scale4(a: Vec4, k: real): Vec4 { Vec4(k * a.x, k * a.y, k * a.z, k * a.w) }

  function Dot4(a: Vec4, b: Vec4): real { a.x * b.x + a.y * b.y + a.z * b.z + a.w * b.w }

  /** Scaling a `vec4` scales its dot product with any other by the same factor. */
  lemma Dot4Scale(a: Vec4, b: Vec4, k: real)
    ensures Dot4(Scale4(a, k), b) == k * Dot4(a, b)
  {
  }

  /** Scaling distributes over the sum of two `vec4`s. */
  lemma Scale4Add(a: Vec4, b: Vec4, k: real)
    ensures Scale4(Add4(a, b), k) == Add4(Scale4(a, k), Scale4(b, k))
  {
  }

  /** The sum of the first `n` products of `a` and `b`, component by component. */
  function PartialDot4(a: Vec4, b: Vec4, n: nat): real
    requires n <= 4
  {
    if n == 0 then 0.0 else PartialDot4(a, b, n - 1) + a.At(n - 1) * b.At(n - 1)
  }

  lemma PartialDot4Full(a: Vec4, b: Vec4)
    ensures PartialDot4(a, b, 4) == Dot4(a, b)
  {
    assert PartialDot4(a, b, 1) == a.x * b.x;
    assert PartialDot4(a, b, 2) == PartialDot4(a, b, 1) + a.y * b.y;
    assert PartialDot4(a, b, 3) == PartialDot4(a, b, 2) + a.z * b.z;
  }

  /** `vec4::dot`: accumulates the four products in a loop. */
  method ComputeDot4(a: Vec4, b: Vec4) returns (acc: real)
    ensures acc == Dot4(a, b)
  {
    acc := 0.0;
    for i := 0 to 4
      invariant acc == PartialDot4(a, b, i)
    {
      acc := acc + a.At(i) * b.At(i);
    }
    PartialDot4Full(a, b);
  }

  lemma Dot4Symmetric(a: Vec4, b: Vec4)
    ensures Dot4(a, b) == Dot4(b, a)
  {
  }

  lemma Sub4Self(a: Vec4)
    ensures Sub4(a, a) == Zero4
  {
  }

  // ---------------------------------------------------------------------
  // mat4
  // ---------------------------------------------------------------------

  /** `mat4::operator()(i, j)` addresses slot `i + 4*j` (column-major). */
  function Index(i: int, j: int): (k: nat)
    requires 0 <= i < 4 && 0 <= j < 4
    ensures k < 16
  {
    i + 4 * j
  }

  /** Distinct (row, column) pairs address distinct slots. */
  lemma IndexInjective(i: int, j: int, i': int, j': int)
    requires 0 <= i < 4 && 0 <= j < 4 && 0 <= i' < 4 && 0 <= j' < 4
    ensures Index(i, j) == Index(i', j') <==> i == i' && j == j'
  {
  }

  /** Entry (i, j): the slot `Index(i, j)` addresses. */
  function Entry(m: Mat4, i: int, j: int): real
    requires 0 <= i < 4 && 0 <= j < 4
  {
    m[i + 4 * j]
  }

  /** The matrix whose columns are `c0 .. c3`. */
  function Columns(c0: Vec4, c1: Vec4, c2: Vec4, c3: Vec4): (m: Mat4)
    ensures forall i | 0 <= i < 4 ::
      Entry(m, i, 0) == c0.At(i) && Entry(m, i, 1) == c1.At(i) &&
      Entry(m, i, 2) == c2.At(i) && Entry(m, i, 3) == c3.At(i)
  {
    [c0.x, c0.y, c0.z, c0.w, c1.x, c1.y, c1.z, c1.w,
     c2.x, c2.y, c2.z, c2.w, c3.x, c3.y, c3.z, c3.w]
  }

  /** The default-constructed `mat4`: all sixteen entries zero. */
  const ZeroMat: Mat4 := [0.0, 0.0, 0.0, 0.0, 0.0, 0.0, 0.0, 0.0, 0.0, 0.0, 0.0, 0.0, 0.0, 0.0, 0.0, 0.0]

  const Identity: Mat4 := Columns(Vec4(1.0, 0.0, 0.0, 0.0), Vec4(0.0, 1.0, 0.0, 0.0),
                                  Vec4(0.0, 0.0, 1.0, 0.0), Vec4(0.0, 0.0, 0.0, 1.0))

  /** `mat4()`: fills the sixteen slots with zero in a loop. */
  method NewMat4() returns (m: Mat4)
    ensures forall i, j | 0 <= i < 4 && 0 <= j < 4 :: Entry(m, i, j) == 0.0
  {
    var e: Mat4 := *;
    for k := 0 to 16
      invariant forall n | 0 <= n < k :: e[n] == 0.0
    {
      e := e[k := 0.0];
    }
    m := e;
  }

  /** `mat4(c1, c2, c3, c4)`: writes row `i` of every column on iteration `i`. */
  method NewMat4FromColumns(c0: Vec4, c1: Vec4, c2: Vec4, c3: Vec4) returns (m: Mat4)
    ensures forall i | 0 <= i < 4 ::
      Entry(m, i, 0) == c0.At(i) && Entry(m, i, 1) == c1.At(i) &&
      Entry(m, i, 2) == c2.At(i) && Entry(m, i, 3) == c3.At(i)
    ensures m == Columns(c0, c1, c2, c3)
  {
    m := ZeroMat;
    for i := 0 to 4
      invariant forall r | 0 <= r < i ::
        m[Index(r, 0)] == c0.At(r) && m[Index(r, 1)] == c1.At(r) &&
        m[Index(r, 2)] == c2.At(r) && m[Index(r, 3)] == c3.At(r)
    {
      m := m[Index(i, 0) := c0.At(i)];
      m := m[Index(i, 1) := c1.At(i)];
      m := m[Index(i, 2) := c2.At(i)];
      m := m[Index(i, 3) := c3.At(i)];
    }
    var spec := Columns(c0, c1, c2, c3);
    forall n | 0 <= n < 16
      ensures m[n] == spec[n]
    {
      assert n == Index(n % 4, n / 4);
    }
  }

  /** Two matrices with the same entries are equal. */
  lemma EqualByEntries(l: Mat4, r: Mat4)
    requires forall i, j | 0 <= i < 4 && 0 <= j < 4 :: Entry(l, i, j) == Entry(r, i, j)
    ensures l == r
  {
    forall n | 0 <= n < 16
      ensures l[n] == r[n]
    {
      var i, j := n % 4, n / 4;
      assert 0 <= i < 4 && 0 <= j < 4 && n == i + 4 * j;
      assert Entry(l, i, j) == Entry(r, i, j);
    }
  }

  /** Entry (i, j) of the product: the sum over k of a(i, k) * b(k, j). */
  function RowCol(a: Mat4, b: Mat4, i: int, j: int): real
    requires 0 <= i < 4 && 0 <= j < 4
  {
    Entry(a, i, 0) * Entry(b, 0, j) + Entry(a, i, 1) * Entry(b, 1, j) +
    Entry(a, i, 2) * Entry(b, 2, j) + Entry(a, i, 3) * Entry(b, 3, j)
  }

  /** The sum of the first `n` products of row `i` of `a` with column `j` of `b`. */
  function PartialRowCol(a: Mat4, b: Mat4, i: int, j: int, n: nat): real
    requires 0 <= i < 4 && 0 <= j < 4 && n <= 4
  {
    if n == 0 then 0.0 else PartialRowCol(a, b, i, j, n - 1) + Entry(a, i, n - 1) * Entry(b, n - 1, j)
  }

  lemma PartialRowColFull(a: Mat4, b: Mat4, i: int, j: int)
    requires 0 <= i < 4 && 0 <= j < 4
    ensures PartialRowCol(a, b, i, j, 4) == RowCol(a, b, i, j)
  {
    assert PartialRowCol(a, b, i, j, 1) == Entry(a, i, 0) * Entry(b, 0, j);
    assert PartialRowCol(a, b, i, j, 2) == PartialRowCol(a, b, i, j, 1) + Entry(a, i, 1) * Entry(b, 1, j);
    assert PartialRowCol(a, b, i, j, 3) == PartialRowCol(a, b, i, j, 2) + Entry(a, i, 2) * Entry(b, 2, j);
  }

  /** The matrix product. */
  function Product(a: Mat4, b: Mat4): Mat4
  {
    [RowCol(a, b, 0, 0), RowCol(a, b, 1, 0), RowCol(a, b, 2, 0), RowCol(a, b, 3, 0),
     RowCol(a, b, 0, 1), RowCol(a, b, 1, 1), RowCol(a, b, 2, 1), RowCol(a, b, 3, 1),
     RowCol(a, b, 0, 2), RowCol(a, b, 1, 2), RowCol(a, b, 2, 2), RowCol(a, b, 3, 2),
     RowCol(a, b, 0, 3), RowCol(a, b, 1, 3), RowCol(a, b, 2, 3), RowCol(a, b, 3, 3)]
  }

  /** Entry (i, j) of the product is the sum over k of a(i, k) * b(k, j). */
  lemma ProductEntry(a: Mat4, b: Mat4, i: int, j: int)
    requires 0 <= i < 4 && 0 <= j < 4
    ensures Entry(Product(a, b), i, j) == RowCol(a, b, i, j)
  {
    var c := Product(a, b);
    if j == 0 { assert c[i] == RowCol(a, b, i, 0); }
    else if j == 1 { assert c[4 + i] == RowCol(a, b, i, 1); }
    else if j == 2 { assert c[8 + i] == RowCol(a, b, i, 2); }
    else { assert c[12 + i] == RowCol(a, b, i, 3); }
  }

  /** `mat4 * mat4`: a triple loop accumulating into a zero-initialised local. */
  method Multiply(a: Mat4, b: Mat4) returns (out: Mat4)
    ensures forall i, j | 0 <= i < 4 && 0 <= j < 4 :: Entry(out, i, j) == RowCol(a, b, i, j)
    ensures out == Product(a, b)
  {
    out := NewMat4();
    for i := 0 to 4
      invariant forall p, q | 0 <= p < 4 && 0 <= q < 4 ::
        Entry(out, p, q) == (if p < i then RowCol(a, b, p, q) else 0.0)
    {
      for j := 0 to 4
        invariant forall p, q | 0 <= p < 4 && 0 <= q < 4 ::
          Entry(out, p, q) == (if p < i || (p == i && q < j) then RowCol(a, b, p, q) else 0.0)
      {
        for k := 0 to 4
          invariant forall p, q | 0 <= p < 4 && 0 <= q < 4 && (p, q) != (i, j) ::
            Entry(out, p, q) == (if p < i || (p == i && q < j) then RowCol(a, b, p, q) else 0.0)
          invariant Entry(out, i, j) == PartialRowCol(a, b, i, j, k)
        {
          out := out[Index(i, j) := out[Index(i, j)] + Entry(a, i, k) * Entry(b, k, j)];
        }
        PartialRowColFull(a, b, i, j);
      }
    }
    forall i, j | 0 <= i < 4 && 0 <= j < 4
      ensures Entry(out, i, j) == Entry(Product(a, b), i, j)
    {
      ProductEntry(a, b, i, j);
    }
    EqualByEntries(out, Product(a, b));
  }

  /** Row `i` of `m` times `v`: the sum over k of m(i, k) * v(k). */
  function RowTimes(m: Mat4, v: Vec4, i: int): real
    requires 0 <= i < 4
  {
    Entry(m, i, 0) * v.x + Entry(m, i, 1) * v.y + Entry(m, i, 2) * v.z + Entry(m, i, 3) * v.w
  }

  /** `M * v`: component i is row i of M times v. */
  function Apply(m: Mat4, v: Vec4): Vec4
  {
    Vec4(RowTimes(m, v, 0), RowTimes(m, v, 1), RowTimes(m, v, 2), RowTimes(m, v, 3))
  }

  /** Component `i` of `M * v` is row `i` of `M` times `v`. */
  lemma ApplyAt(m: Mat4, v: Vec4, i: int)
    requires 0 <= i < 4
    ensures Apply(m, v).At(i) == RowTimes(m, v, i)
  {
  }

  /** `M * v` for the matrix with columns `c0 .. c3` is the sum of the columns weighted by the components of `v`. */
  lemma ApplyColumns(c0: Vec4, c1: Vec4, c2: Vec4, c3: Vec4, v: Vec4)
    ensures Apply(Columns(c0, c1, c2, c3), v)
         == Vec4(c0.x * v.x + c1.x * v.y + c2.x * v.z + c3.x * v.w,
                 c0.y * v.x + c1.y * v.y + c2.y * v.z + c3.y * v.w,
                 c0.z * v.x + c1.z * v.y + c2.z * v.z + c3.z * v.w,
                 c0.w * v.x + c1.w * v.y + c2.w * v.z + c3.w * v.w)
  {
    var m := Columns(c0, c1, c2, c3);
    assert Entry(m, 0, 0) == c0.x && Entry(m, 0, 1) == c1.x && Entry(m, 0, 2) == c2.x && Entry(m, 0, 3) == c3.x;
    assert Entry(m, 1, 0) == c0.y && Entry(m, 1, 1) == c1.y && Entry(m, 1, 2) == c2.y && Entry(m, 1, 3) == c3.y;
    assert Entry(m, 2, 0) == c0.z && Entry(m, 2, 1) == c1.z && Entry(m, 2, 2) == c2.z && Entry(m, 2, 3) == c3.z;
    assert Entry(m, 3, 0) == c0.w && Entry(m, 3, 1) == c1.w && Entry(m, 3, 2) == c2.w && Entry(m, 3, 3) == c3.w;
  }

  /** Sum of the first `n` products of row `i` of `m` with `v`. */
  function PartialRowVec(m: Mat4, v: Vec4, i: int, n: nat): real
    requires 0 <= i < 4 && n <= 4
  {
    if n == 0 then 0.0 else PartialRowVec(m, v, i, n - 1) + Entry(m, i, n - 1) * v.At(n - 1)
  }

  /** `v` with component `i` replaced by `x` (the assignment `out(i) = x`). */
  function SetAt(v: Vec4, i: int, x: real): (r: Vec4)
    requires 0 <= i < 4
    ensures r.At(i) == x
    ensures forall k | 0 <= k < 4 && k != i :: r.At(k) == v.At(k)
  {
    if i == 0 then v.(x := x) else if i == 1 then v.(y := x) else if i == 2 then v.(z := x) else v.(w := x)
  }

  lemma PartialRowVecFull(m: Mat4, v: Vec4, i: int)
    requires 0 <= i < 4
    ensures PartialRowVec(m, v, i, 4) == RowTimes(m, v, i)
  {
    assert PartialRowVec(m, v, i, 1) == Entry(m, i, 0) * v.x;
    assert PartialRowVec(m, v, i, 2) == PartialRowVec(m, v, i, 1) + Entry(m, i, 1) * v.y;
    assert PartialRowVec(m, v, i, 3) == PartialRowVec(m, v, i, 2) + Entry(m, i, 2) * v.z;
  }

  /** `mat4 * vec4`: a double loop accumulating into a zero-initialised local. */
  method MultiplyVec(m: Mat4, v: Vec4) returns (out: Vec4)
    ensures out == Apply(m, v)
  {
    out := Zero4;
    for i := 0 to 4
      invariant forall p | 0 <= p < 4 :: out.At(p) == (if p < i then PartialRowVec(m, v, p, 4) else 0.0)
    {
      for k := 0 to 4
        invariant forall p | 0 <= p < 4 && p != i :: out.At(p) == (if p < i then PartialRowVec(m, v, p, 4) else 0.0)
        invariant out.At(i) == PartialRowVec(m, v, i, k)
      {
        out := SetAt(out, i, out.At(i) + Entry(m, i, k) * v.At(k));
      }
    }
    forall p | 0 <= p < 4
      ensures out.At(p) == Apply(m, v).At(p)
    {
      PartialRowVecFull(m, v, p);
      ApplyAt(m, v, p);
    }
    Vec4ByComponents(out, Apply(m, v));
  }

  /** Two vectors with the same components are equal. */
  lemma Vec4ByComponents(a: Vec4, b: Vec4)
    requires forall i | 0 <= i < 4 :: a.At(i) == b.At(i)
    ensures a == b
  {
    assert a.At(0) == b.At(0) && a.At(1) == b.At(1) && a.At(2) == b.At(2) && a.At(3) == b.At(3);
  }

  /** Entry (i, k) of the identity is 1 on the diagonal and 0 elsewhere. */
  lemma IdentityEntry(i: int, k: int)
    requires 0 <= i < 4 && 0 <= k < 4
    ensures Entry(Identity, i, k) == if i == k then 1.0 else 0.0
  {
  }

  /** The identity matrix is neutral on both sides of the product. */
  lemma ProductIdentity(a: Mat4)
    ensures Product(Identity, a) == a
    ensures Product(a, Identity) == a
  {
    forall i, j | 0 <= i < 4 && 0 <= j < 4
      ensures Entry(Product(Identity, a), i, j) == Entry(a, i, j)
      ensures Entry(Product(a, Identity), i, j) == Entry(a, i, j)
    {
      ProductEntry(Identity, a, i, j);
      ProductEntry(a, Identity, i, j);
      forall k | 0 <= k < 4
        ensures Entry(Identity, i, k) == (if i == k then 1.0 else 0.0)
        ensures Entry(Identity, k, j) == (if k == j then 1.0 else 0.0)
      {
        IdentityEntry(i, k);
        IdentityEntry(k, j);
      }
    }
    EqualByEntries(Product(Identity, a), a);
    EqualByEntries(Product(a, Identity), a);
  }

  /** Regrouping a row-times-matrix-times-column sum: (r B) c == r (B c). */
  lemma Regroup(a0: real, a1: real, a2: real, a3: real,
                b00: real, b01: real, b02: real, b03: real,
                b10: real, b11: real, b12: real, b13: real,
                b20: real, b21: real, b22: real, b23: real,
                b30: real, b31: real, b32: real, b33: real,
                c0: real, c1: real, c2: real, c3: real)
    ensures (a0 * b00 + a1 * b10 + a2 * b20 + a3 * b30) * c0 + (a0 * b01 + a1 * b11 + a2 * b21 + a3 * b31) * c1
          + (a0 * b02 + a1 * b12 + a2 * b22 + a3 * b32) * c2 + (a0 * b03 + a1 * b13 + a2 * b23 + a3 * b33) * c3
         == a0 * (b00 * c0 + b01 * c1 + b02 * c2 + b03 * c3) + a1 * (b10 * c0 + b11 * c1 + b12 * c2 + b13 * c3)
          + a2 * (b20 * c0 + b21 * c1 + b22 * c2 + b23 * c3) + a3 * (b30 * c0 + b31 * c1 + b32 * c2 + b33 * c3)
  {
  }

  /**
   * Entry (i, j) of (A*B)*C equals entry (i, j) of A*(B*C); `ab` and `bc`
   * stand for the two inner products through their entries.
   */
  lemma AssocEntry(a: Mat4, b: Mat4, c: Mat4, ab: Mat4, bc: Mat4, i: int, j: int)
    requires 0 <= i < 4 && 0 <= j < 4
    requires forall k | 0 <= k < 4 :: Entry(ab, i, k) == RowCol(a, b, i, k)
    requires forall k | 0 <= k < 4 :: Entry(bc, k, j) == RowCol(b, c, k, j)
    ensures RowCol(ab, c, i, j) == RowCol(a, bc, i, j)
  {
    Regroup(Entry(a, i, 0), Entry(a, i, 1), Entry(a, i, 2), Entry(a, i, 3),
            Entry(b, 0, 0), Entry(b, 0, 1), Entry(b, 0, 2), Entry(b, 0, 3),
            Entry(b, 1, 0), Entry(b, 1, 1), Entry(b, 1, 2), Entry(b, 1, 3),
            Entry(b, 2, 0), Entry(b, 2, 1), Entry(b, 2, 2), Entry(b, 2, 3),
            Entry(b, 3, 0), Entry(b, 3, 1), Entry(b, 3, 2), Entry(b, 3, 3),
            Entry(c, 0, j), Entry(c, 1, j), Entry(c, 2, j), Entry(c, 3, j));
  }

  /** Over the reals the matrix product is associative. */
  lemma ProductAssociative(a: Mat4, b: Mat4, c: Mat4)
    ensures Product(Product(a, b), c) == Product(a, Product(b, c))
  {
    var ab, bc := Product(a, b), Product(b, c);
    var l, r := Product(ab, c), Product(a, bc);
    forall i, j | 0 <= i < 4 && 0 <= j < 4
      ensures Entry(l, i, j) == Entry(r, i, j)
    {
      ProductEntry(ab, c, i, j);
      ProductEntry(a, bc, i, j);
      forall k | 0 <= k < 4
        ensures Entry(ab, i, k) == RowCol(a, b, i, k) && Entry(bc, k, j) == RowCol(b, c, k, j)
      {
        ProductEntry(a, b, i, k);
        ProductEntry(b, c, k, j);
      }
      AssocEntry(a, b, c, ab, bc, i, j);
    }
    EqualByEntries(l, r);
  }

  /**
   * Component i of (A*B)*v equals component i of A*(B*v); `ab` and `bv`
   * stand for the inner product and the inner application through their entries.
   */
  lemma ApplyProductAt(a: Mat4, b: Mat4, v: Vec4, ab: Mat4, bv: Vec4, i: int)
    requires 0 <= i < 4
    requires forall k | 0 <= k < 4 :: Entry(ab, i, k) == RowCol(a, b, i, k)
    requires bv.x == Entry(b, 0, 0) * v.x + Entry(b, 0, 1) * v.y + Entry(b, 0, 2) * v.z + Entry(b, 0, 3) * v.w
    requires bv.y == Entry(b, 1, 0) * v.x + Entry(b, 1, 1) * v.y + Entry(b, 1, 2) * v.z + Entry(b, 1, 3) * v.w
    requires bv.z == Entry(b, 2, 0) * v.x + Entry(b, 2, 1) * v.y + Entry(b, 2, 2) * v.z + Entry(b, 2, 3) * v.w
    requires bv.w == Entry(b, 3, 0) * v.x + Entry(b, 3, 1) * v.y + Entry(b, 3, 2) * v.z + Entry(b, 3, 3) * v.w
    ensures Entry(ab, i, 0) * v.x + Entry(ab, i, 1) * v.y + Entry(ab, i, 2) * v.z + Entry(ab, i, 3) * v.w
         == Entry(a, i, 0) * bv.x + Entry(a, i, 1) * bv.y + Entry(a, i, 2) * bv.z + Entry(a, i, 3) * bv.w
  {
    Regroup(Entry(a, i, 0), Entry(a, i, 1), Entry(a, i, 2), Entry(a, i, 3),
            Entry(b, 0, 0), Entry(b, 0, 1), Entry(b, 0, 2), Entry(b, 0, 3),
            Entry(b, 1, 0), Entry(b, 1, 1), Entry(b, 1, 2), Entry(b, 1, 3),
            Entry(b, 2, 0), Entry(b, 2, 1), Entry(b, 2, 2), Entry(b, 2, 3),
            Entry(b, 3, 0), Entry(b, 3, 1), Entry(b, 3, 2), Entry(b, 3, 3),
            v.x, v.y, v.z, v.w);
  }

  /** Applying a product is applying its factors in turn. */
  lemma ApplyProduct(a: Mat4, b: Mat4, v: Vec4)
    ensures Apply(Product(a, b), v) == Apply(a, Apply(b, v))
  {
    var ab, bv := Product(a, b), Apply(b, v);
    forall i | 0 <= i < 4
      ensures Apply(ab, v).At(i) == Apply(a, bv).At(i)
    {
      forall k | 0 <= k < 4
        ensures Entry(ab, i, k) == RowCol(a, b, i, k)
      {
        ProductEntry(a, b, i, k);
      }
      ApplyProductAt(a, b, v, ab, bv, i);
      ApplyAt(ab, v, i);
      ApplyAt(a, bv, i);
    }
    Vec4ByComponents(Apply(ab, v), Apply(a, bv));
  }
}
