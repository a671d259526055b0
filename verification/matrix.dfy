/** 4x4 matrices as `android.opengl.Matrix` stores them: 16 reals in column-major
    order, so the entry in row `i` and column `j` is at index `i + 4 * j`. */
module Matrix {

  type Mat4 = m: seq<real> | |m| == 16 witness seq(16, _ => 0.0)

  /** Entry in row `i`, column `j`. */
  function At(m: Mat4, i: int, j: int): real
    requires 0 <= i < 4 && 0 <= j < 4
  {
    m[i + 4 * j]
  }

  /** Row `i` of `a` times column `j` of `b`. */
  function Dot(a: Mat4, b: Mat4, i: int, j: int): real
    requires 0 <= i < 4 && 0 <= j < 4
  {
    At(a, i, 0) * At(b, 0, j) + At(a, i, 1) * At(b, 1, j)
    + At(a, i, 2) * At(b, 2, j) + At(a, i, 3) * At(b, 3, j)
  }

  /** `Matrix.multiplyMM(result, lhs, rhs)`: the product lhs * rhs. */
  function Multiply(a: Mat4, b: Mat4): Mat4 {
    seq(16, k requires 0 <= k < 16 => Dot(a, b, k % 4, k / 4))
  }

  /** Entry (i, j) of a product is row i of the left factor times column j of the right. */
  lemma MultiplyAt(a: Mat4, b: Mat4, i: int, j: int)
    requires 0 <= i < 4 && 0 <= j < 4
    ensures At(Multiply(a, b), i, j) == Dot(a, b, i, j)
  {
    var k := i + 4 * j;
    assert k % 4 == i && k / 4 == j;
  }

  /** `Matrix.setIdentityM`. */
  const Identity: Mat4 :=
    [1.0, 0.0, 0.0, 0.0,
     0.0, 1.0, 0.0, 0.0,
     0.0, 0.0, 1.0, 0.0,
     0.0, 0.0, 0.0, 1.0]

  /** A new `float[16]`: all zeros. */
  const Zero: Mat4 :=
    [0.0, 0.0, 0.0, 0.0,
     0.0, 0.0, 0.0, 0.0,
     0.0, 0.0, 0.0, 0.0,
     0.0, 0.0, 0.0, 0.0]

  /** The identity with its first three diagonal entries replaced by `s`. */
  function Scale(s: real): Mat4 {
    Identity[0 := s][5 := s][10 := s]
  }

  /** `Matrix.multiplyMV(result, lhs, rhs)` for a 4-vector `v`. */
  function Apply(m: Mat4, v: seq<real>): (r: seq<real>)
    requires |v| == 4
    ensures |r| == 4
  {
    seq(4, i requires 0 <= i < 4 =>
      At(m, i, 0) * v[0] + At(m, i, 1) * v[1] + At(m, i, 2) * v[2] + At(m, i, 3) * v[3])
  }

  /** Entry (i, j) of m * Scale(s): column j of m, scaled when j < 3. */
  lemma ScaleAt(m: Mat4, s: real, i: int, j: int)
    requires 0 <= i < 4 && 0 <= j < 4
    ensures At(Multiply(m, Scale(s)), i, j) == if j < 3 then At(m, i, j) * s else At(m, i, j)
  {
    MultiplyAt(m, Scale(s), i, j);
    var d := Scale(s);
    if j == 0 {
      assert d[0] == s && d[1] == 0.0 && d[2] == 0.0 && d[3] == 0.0;
    } else if j == 1 {
      assert d[4] == 0.0 && d[5] == s && d[6] == 0.0 && d[7] == 0.0;
    } else if j == 2 {
      assert d[8] == 0.0 && d[9] == 0.0 && d[10] == s && d[11] == 0.0;
    } else {
      assert d[12] == 0.0 && d[13] == 0.0 && d[14] == 0.0 && d[15] == 1.0;
    }
  }

  /** Right-multiplying by `Scale(s)` scales the first three columns by `s` and
      keeps the fourth (the translation) as it is; with s = 1 nothing changes. */
  lemma ScaleColumns(m: Mat4, s: real)
    ensures forall k :: 0 <= k < 12 ==> Multiply(m, Scale(s))[k] == m[k] * s
    ensures forall k :: 12 <= k < 16 ==> Multiply(m, Scale(s))[k] == m[k]
    ensures s == 1.0 ==> Multiply(m, Scale(s)) == m
  {
    forall k | 0 <= k < 16
      ensures Multiply(m, Scale(s))[k] == if k < 12 then m[k] * s else m[k]
    {
      ScaleAt(m, s, k % 4, k / 4);
    }
  }

  /** A direction (w = 0) is transformed by the upper-left 3x3 block only: the
      translation column does not reach it. */
  lemma DirectionIgnoresTranslation(m: Mat4, m': Mat4, v: seq<real>)
    requires |v| == 4 && v[3] == 0.0
    requires m[..12] == m'[..12]
    ensures Apply(m, v)[..3] == Apply(m', v)[..3]
  {
    forall k | 0 <= k < 12 ensures m[k] == m'[k] {
      assert m[..12][k] == m'[..12][k];
    }
    forall i | 0 <= i < 3 ensures Apply(m, v)[i] == Apply(m', v)[i] {
      assert At(m, i, 0) == At(m', i, 0) && At(m, i, 1) == At(m', i, 1) && At(m, i, 2) == At(m', i, 2);
    }
  }

  /** Column j of a product depends only on column j of the right factor, so left
      factors applied to matrices with the same rotation-and-scale block (the first
      three columns) give products with the same first three columns. */
  lemma ProductKeepsLinearPart(a: Mat4, m: Mat4, m': Mat4)
    requires m[..12] == m'[..12]
    ensures Multiply(a, m)[..12] == Multiply(a, m')[..12]
  {
    forall k | 0 <= k < 12 ensures m[k] == m'[k] {
      assert m[..12][k] == m'[..12][k];
    }
    forall k | 0 <= k < 12 ensures Multiply(a, m)[k] == Multiply(a, m')[k] {
      var i, j := k % 4, k / 4;
      assert k == i + 4 * j;
      MultiplyAt(a, m, i, j);
      MultiplyAt(a, m', i, j);
      assert At(m, 0, j) == At(m', 0, j) && At(m, 1, j) == At(m', 1, j);
      assert At(m, 2, j) == At(m', 2, j) && At(m, 3, j) == At(m', 3, j);
    }
  }

  /** The lighting uniform the renderers' shaders take: a light direction carried
      into view space by the model-view matrix, with w set to 1. The renderers
      normalise the first three components, which is not modelled. */
  function LightingParameters(modelView: Mat4, direction: seq<real>): (r: seq<real>)
    requires |direction| == 4
    ensures |r| == 4 && r[3] == 1.0
    ensures r[..3] == Apply(modelView, direction)[..3]
  {
    Apply(modelView, direction)[..3] + [1.0]
  }

  /** The light depends on the model's orientation and scale but not on where it is:
      two model matrices with the same first three columns give the same lighting. */
  lemma LightFollowsOrientation(view: Mat4, model: Mat4, model': Mat4, direction: seq<real>)
    requires |direction| == 4 && direction[3] == 0.0
    requires model[..12] == model'[..12]
    ensures LightingParameters(Multiply(view, model), direction) == LightingParameters(Multiply(view, model'), direction)
  {
    ProductKeepsLinearPart(view, model, model');
    DirectionIgnoresTranslation(Multiply(view, model), Multiply(view, model'), direction);
  }
}
