/**
  Real 3x3 matrices: the momentum-deformation matrices A, B and C of the
  modified equilibrium and anisotropic distributions.
 */
module Matrices {

  datatype Mat3 = Mat3(
    xx: real, xy: real, xz: real,
    yx: real, yy: real, yz: real,
    zx: real, zy: real, zz: real)

  const Identity := Mat3(1.0, 0.0, 0.0, 0.0, 1.0, 0.0, 0.0, 0.0, 1.0)

  function Diag(a: real, b: real, c: real): Mat3
  {
    Mat3(a, 0.0, 0.0, 0.0, b, 0.0, 0.0, 0.0, c)
  }

  predicate Symmetric(m: Mat3)
  {
    m.xy == m.yx && m.xz == m.zx && m.yz == m.zy
  }

  /** The determinant, expanded along the first row. */
  function Det(m: Mat3): real
  {
    m.xx * (m.yy * m.zz - m.yz * m.zy)
    - m.xy * (m.yx * m.zz - m.yz * m.zx)
    + m.xz * (m.yx * m.zy - m.yy * m.zx)
  }

  /** The matrix product a . b. */
  function Mul(a: Mat3, b: Mat3): Mat3
  {
    Mat3(
      a.xx * b.xx + a.xy * b.yx + a.xz * b.zx,
      a.xx * b.xy + a.xy * b.yy + a.xz * b.zy,
      a.xx * b.xz + a.xy * b.yz + a.xz * b.zz,
      a.yx * b.xx + a.yy * b.yx + a.yz * b.zx,
      a.yx * b.xy + a.yy * b.yy + a.yz * b.zy,
      a.yx * b.xz + a.yy * b.yz + a.yz * b.zz,
      a.zx * b.xx + a.zy * b.yx + a.zz * b.zx,
      a.zx * b.xy + a.zy * b.yy + a.zz * b.zy,
      a.zx * b.xz + a.zy * b.yz + a.zz * b.zz)
  }

  /** Scaling the columns of c by a, b and d scales its determinant by a.b.d. */
  lemma DetTimesDiag(c: Mat3, a: real, b: real, d: real)
    ensures Det(Mul(c, Diag(a, b, d))) == Det(c) * (a * b * d)
  {
    MulDiag(c, a, b, d);
    ScaledDet(c.xx, c.xy, c.xz, c.yx, c.yy, c.yz, c.zx, c.zy, c.zz, a, b, d);
  }

  /** Multiplying by a diagonal matrix on the right scales the columns. */
  lemma MulDiag(c: Mat3, a: real, b: real, d: real)
    ensures Mul(c, Diag(a, b, d))
         == Mat3(c.xx * a, c.xy * b, c.xz * d, c.yx * a, c.yy * b, c.yz * d, c.zx * a, c.zy * b, c.zz * d)
  {
  }

  /** DetTimesDiag entry by entry. */
  lemma ScaledDet(xx: real, xy: real, xz: real, yx: real, yy: real, yz: real, zx: real, zy: real, zz: real, a: real, b: real, d: real)
    ensures Det(Mat3(xx * a, xy * b, xz * d, yx * a, yy * b, yz * d, zx * a, zy * b, zz * d))
         == Det(Mat3(xx, xy, xz, yx, yy, yz, zx, zy, zz)) * (a * b * d)
  {
  }

  /** The determinant of a diagonal matrix is the product of its diagonal. */
  lemma DetDiag(a: real, b: real, d: real)
    ensures Det(Diag(a, b, d)) == a * b * d
  {
  }

  /** The identity has determinant 1. */
  lemma DetIdentity()
    ensures Det(Identity) == 1.0
  {
  }
}
