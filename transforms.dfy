/**
 * The matrix builders of `mat4`: the viewport transform and the three
 * factors of the perspective projection. They only build matrices from
 * expressions and compose them, so they are functions; what each matrix
 * does to a point is proved through `Matrix.Apply`.
 */
module Transforms {
  import opened Matrix

  /** `mat4::viewport`: translate [-1,1]^2 to [0,2]^2 flipping y, halve, then scale to the target size. */
  function Viewport(width: int, height: int): Mat4
  {
    var toOrigin := Columns(Vec4(1.0, 0.0, 0.0, 0.0), Vec4(0.0, -1.0, 0.0, 0.0),
                            Vec4(0.0, 0.0, 1.0, 0.0), Vec4(1.0, 1.0, 0.0, 1.0));
    var toUnit := Columns(Vec4(0.5, 0.0, 0.0, 0.0), Vec4(0.0, 0.5, 0.0, 0.0),
                          Vec4(0.0, 0.0, 1.0, 0.0), Vec4(0.0, 0.0, 0.0, 1.0));
    var rescale := Columns(Vec4(width as real, 0.0, 0.0, 0.0), Vec4(0.0, height as real, 0.0, 0.0),
                           Vec4(0.0, 0.0, 1.0, 0.0), Vec4(0.0, 0.0, 0.0, 1.0));
    Product(Product(rescale, toUnit), toOrigin)
  }

  /** The viewport sends normalised device coordinates to pixels, flipping y and keeping z and w. */
  lemma ViewportMaps(width: int, height: int, x: real, y: real, z: real)
    ensures Apply(Viewport(width, height), Vec4(x, y, z, 1.0))
         == Vec4(width as real * (x + 1.0) / 2.0, height as real * (1.0 - y) / 2.0, z, 1.0)
  {
    var toOrigin := Columns(Vec4(1.0, 0.0, 0.0, 0.0), Vec4(0.0, -1.0, 0.0, 0.0),
                            Vec4(0.0, 0.0, 1.0, 0.0), Vec4(1.0, 1.0, 0.0, 1.0));
    var toUnit := Columns(Vec4(0.5, 0.0, 0.0, 0.0), Vec4(0.0, 0.5, 0.0, 0.0),
                          Vec4(0.0, 0.0, 1.0, 0.0), Vec4(0.0, 0.0, 0.0, 1.0));
    var rescale := Columns(Vec4(width as real, 0.0, 0.0, 0.0), Vec4(0.0, height as real, 0.0, 0.0),
                           Vec4(0.0, 0.0, 1.0, 0.0), Vec4(0.0, 0.0, 0.0, 1.0));
    var v := Vec4(x, y, z, 1.0);
    ApplyProduct(Product(rescale, toUnit), toOrigin, v);
    ApplyProduct(rescale, toUnit, Apply(toOrigin, v));
    assert Apply(toOrigin, v) == Vec4(x + 1.0, 1.0 - y, z, 1.0);
    assert Apply(toUnit, Vec4(x + 1.0, 1.0 - y, z, 1.0)) == Vec4((x + 1.0) / 2.0, (1.0 - y) / 2.0, z, 1.0);
  }

  /**
   * The comment's Y flip: the top-left corner (-1, 1) of device space lands on
   * pixel (0, 0) and the bottom-right corner (1, -1) on (width, height).
   */
  lemma ViewportCorners(width: int, height: int, z: real)
    ensures Apply(Viewport(width, height), Vec4(-1.0, 1.0, z, 1.0)) == Vec4(0.0, 0.0, z, 1.0)
    ensures Apply(Viewport(width, height), Vec4(1.0, -1.0, z, 1.0)) == Vec4(width as real, height as real, z, 1.0)
  {
    ViewportMaps(width, height, -1.0, 1.0, z);
    ViewportMaps(width, height, 1.0, -1.0, z);
  }

  /** The shearing factor of `mat4::perspective`: identity plus (g, h) in the third column. */
  function Shear(l: real, r: real, t: real, b: real, near: real): Mat4
    requires near != 0.0
  {
    var g, h := (l + r) / (2.0 * near), (t + b) / (2.0 * near);
    Columns(Vec4(1.0, 0.0, 0.0, 0.0), Vec4(0.0, 1.0, 0.0, 0.0),
            Vec4(g, h, 1.0, 0.0), Vec4(0.0, 0.0, 0.0, 1.0))
  }

  /** The scaling factor: maps the view-plane corners to (+-near, +-near). */
  function Scale(l: real, r: real, t: real, b: real, near: real): Mat4
    requires r != l && t != b
  {
    var sx, sy := (2.0 * near) / (r - l), (2.0 * near) / (t - b);
    Columns(Vec4(sx, 0.0, 0.0, 0.0), Vec4(0.0, sy, 0.0, 0.0),
            Vec4(0.0, 0.0, 1.0, 0.0), Vec4(0.0, 0.0, 0.0, 1.0))
  }

  /** The normalising factor: sets w to -z and maps depth into [-1, 1] after the division. */
  function Norm(near: real, far: real): Mat4
    requires near != far
  {
    var alpha, beta := (near + far) / (near - far), (2.0 * near * far) / (near - far);
    Columns(Vec4(1.0, 0.0, 0.0, 0.0), Vec4(0.0, 1.0, 0.0, 0.0),
            Vec4(0.0, 0.0, alpha, -1.0), Vec4(0.0, 0.0, beta, 0.0))
  }

  /**
   * `mat4::perspective` once the view-plane half extents `t` and `r` are known
   * (the source obtains them from `tan`): bounds are symmetric, `b = -t` and
   * `l = -r`, and the result is norm * scale * shear.
   */
  function Perspective(t: real, r: real, near: real, far: real): Mat4
    requires near != 0.0 && r != 0.0 && t != 0.0 && near != far
  {
    var b, l := -t, -r;
    Product(Product(Norm(near, far), Scale(l, r, t, b, near)), Shear(l, r, t, b, near))
  }

  /** With symmetric bounds the shear has g = h = 0 and is the identity. */
  lemma ShearSymmetricIsIdentity(r: real, t: real, near: real)
    requires near != 0.0
    ensures Shear(-r, r, t, -t, near) == Identity
  {
  }

  /** With symmetric bounds the scale sends the view-plane corner (r, t) to (near, near). */
  lemma ScaleCorner(r: real, t: real, near: real, z: real)
    requires r != 0.0 && t != 0.0
    ensures Apply(Scale(-r, r, t, -t, near), Vec4(r, t, z, 1.0)) == Vec4(near, near, z, 1.0)
  {
    var sx, sy := (2.0 * near) / (r - -r), (2.0 * near) / (t - -t);
    assert sx == near / r by {
      assert r - -r == 2.0 * r;
    }
    assert sy == near / t by {
      assert t - -t == 2.0 * t;
    }
    assert near / r * r == near;
    assert near / t * t == near;
  }

  /** The normalising matrix keeps x and y, sets w = -z and depth to alpha*z + beta. */
  lemma NormMaps(near: real, far: real, x: real, y: real, z: real)
    requires near != far
    ensures Apply(Norm(near, far), Vec4(x, y, z, 1.0))
         == Vec4(x, y, (near + far) / (near - far) * z + (2.0 * near * far) / (near - far), -z)
  {
  }

  /** After the division by w, view depth -near maps to -1 and view depth -far maps to +1. */
  lemma NormDepthRange(near: real, far: real)
    requires near > 0.0 && far > 0.0 && near != far
    ensures var p := Apply(Norm(near, far), Vec4(0.0, 0.0, -near, 1.0)); p.w == near && p.z / p.w == -1.0
    ensures var q := Apply(Norm(near, far), Vec4(0.0, 0.0, -far, 1.0)); q.w == far && q.z / q.w == 1.0
  {
    NormMaps(near, far, 0.0, 0.0, -near);
    NormMaps(near, far, 0.0, 0.0, -far);
    var alpha, beta := (near + far) / (near - far), (2.0 * near * far) / (near - far);
    assert alpha * -near + beta == -near by {
      assert (near + far) * -near + 2.0 * near * far == -near * (near - far);
    }
    assert alpha * -far + beta == far by {
      assert (near + far) * -far + 2.0 * near * far == far * (near - far);
    }
  }

  /** The whole perspective matrix on a view-space point. */
  lemma PerspectiveMaps(t: real, r: real, near: real, far: real, x: real, y: real, z: real)
    requires near != 0.0 && r != 0.0 && t != 0.0 && near != far
    ensures Apply(Perspective(t, r, near, far), Vec4(x, y, z, 1.0))
         == Vec4(near / r * x, near / t * y, (near + far) / (near - far) * z + (2.0 * near * far) / (near - far), -z)
  {
    var v := Vec4(x, y, z, 1.0);
    var nm, sc, sh := Norm(near, far), Scale(-r, r, t, -t, near), Shear(-r, r, t, -t, near);
    ApplyProduct(Product(nm, sc), sh, v);
    ApplyProduct(nm, sc, Apply(sh, v));
    ShearSymmetricIsIdentity(r, t, near);
    assert Apply(sh, v) == v;
    var sx, sy := (2.0 * near) / (r - -r), (2.0 * near) / (t - -t);
    assert sx == near / r by {
      assert r - -r == 2.0 * r;
    }
    assert sy == near / t by {
      assert t - -t == 2.0 * t;
    }
    assert Apply(sc, v) == Vec4(near / r * x, near / t * y, z, 1.0);
    NormMaps(near, far, near / r * x, near / t * y, z);
  }
}
