/** Idealised glm: three-component vectors and 4x4 matrices over `real`.
    Floating-point rounding is not modelled. Matrices are indexed
    row-first in the usual mathematical convention, so `glm::translate(m, v)`
    is `Mul(m, Translation(v))`. */
module Linear {

  datatype Vec3 = Vec3(x: real, y: real, z: real)
  {
    function Plus(o: Vec3): Vec3 { Vec3(x + o.x, y + o.y, z + o.z) }
    function Minus(o: Vec3): Vec3 { Vec3(x - o.x, y - o.y, z - o.z) }
    function Times(s: real): Vec3 { Vec3(x * s, y * s, z * s) }
  }

  /** glm::cross. */
  function Cross(a: Vec3, b: Vec3): Vec3 {
    Vec3(a.y * b.z - a.z * b.y, a.z * b.x - a.x * b.z, a.x * b.y - a.y * b.x)
  }

  function Dot3(a: Vec3, b: Vec3): real { a.x * b.x + a.y * b.y + a.z * b.z }

  /** A homogeneous 4-vector. */
  datatype Vec4 = Vec4(x: real, y: real, z: real, w: real)
  {
    function At(i: nat): real
      requires i < 4
    {
      if i == 0 then x else if i == 1 then y else if i == 2 then z else w
    }
  }

  predicate IsMat4(m: seq<seq<real>>) {
    |m| == 4 && forall i | 0 <= i < 4 :: |m[i]| == 4
  }

  /** A 4x4 matrix, row-major. */
  type Mat4 = m: seq<seq<real>> | IsMat4(m)
    witness [[1.0, 0.0, 0.0, 0.0], [0.0, 1.0, 0.0, 0.0], [0.0, 0.0, 1.0, 0.0], [0.0, 0.0, 0.0, 1.0]]

  /** Builds a matrix from its entry function. */
  function Build(f: (nat, nat) -> real): (r: Mat4)
    ensures forall i, j | 0 <= i < 4 && 0 <= j < 4 :: r[i][j] == f(i, j)
  {
    seq(4, i requires 0 <= i < 4 => seq(4, j requires 0 <= j < 4 => f(i, j)))
  }

  /** glm::mat4(1.0f). */
  function Identity(): (r: Mat4)
    ensures forall i, j | 0 <= i < 4 && 0 <= j < 4 :: r[i][j] == (if i == j then 1.0 else 0.0)
  {
    Build((i, j) => if i == j then 1.0 else 0.0)
  }

  /** Entry (i, j) of the product a * b. */
  function RowCol(a: Mat4, b: Mat4, i: nat, j: nat): real
    requires i < 4 && j < 4
  {
    a[i][0] * b[0][j] + a[i][1] * b[1][j] + a[i][2] * b[2][j] + a[i][3] * b[3][j]
  }

  /** Matrix product a * b. */
  function Mul(a: Mat4, b: Mat4): (r: Mat4)
    ensures forall i, j | 0 <= i < 4 && 0 <= j < 4 :: r[i][j] == RowCol(a, b, i, j)
  {
    seq(4, i requires 0 <= i < 4 => seq(4, j requires 0 <= j < 4 => RowCol(a, b, i, j)))
  }

  /** Entry-wise sum a + b. */
  function Add(a: Mat4, b: Mat4): (r: Mat4)
    ensures forall i, j | 0 <= i < 4 && 0 <= j < 4 :: r[i][j] == a[i][j] + b[i][j]
  {
    seq(4, i requires 0 <= i < 4 => seq(4, j requires 0 <= j < 4 => a[i][j] + b[i][j]))
  }

  /** Component-wise sum of two homogeneous vectors. */
  function Sum4(a: Vec4, b: Vec4): Vec4 {
    Vec4(a.x + b.x, a.y + b.y, a.z + b.z, a.w + b.w)
  }

  /** Row i of m applied to v. */
  function RowDot(m: Mat4, i: nat, v: Vec4): real
    requires i < 4
  {
    m[i][0] * v.x + m[i][1] * v.y + m[i][2] * v.z + m[i][3] * v.w
  }

  /** The matrix acting on a homogeneous vector: m * v. */
  function Apply(m: Mat4, v: Vec4): Vec4 {
    Vec4(RowDot(m, 0, v), RowDot(m, 1, v), RowDot(m, 2, v), RowDot(m, 3, v))
  }

  /** The point p in homogeneous coordinates (w = 1). */
  function Point(p: Vec3): Vec4 { Vec4(p.x, p.y, p.z, 1.0) }

  /** glm::translate(mat4(1), v): identity with v in the last column. */
  function Translation(v: Vec3): (r: Mat4)
    ensures Apply(r, Vec4(0.0, 0.0, 0.0, 1.0)) == Point(v)
  {
    [[1.0, 0.0, 0.0, v.x], [0.0, 1.0, 0.0, v.y], [0.0, 0.0, 1.0, v.z], [0.0, 0.0, 0.0, 1.0]]
  }

  /** glm::scale(mat4(1), v): the diagonal matrix (v.x, v.y, v.z, 1). */
  function Scaling(v: Vec3): Mat4 {
    [[v.x, 0.0, 0.0, 0.0], [0.0, v.y, 0.0, 0.0], [0.0, 0.0, v.z, 0.0], [0.0, 0.0, 0.0, 1.0]]
  }

  /** A scaling matrix scales a point component-wise. */
  lemma ApplyScaling(v: Vec3, p: Vec3)
    ensures Apply(Scaling(v), Point(p)) == Point(Vec3(p.x * v.x, p.y * v.y, p.z * v.z))
  {
  }

  /** Right-multiplying by a scaling matrix scales every point before m
      maps it. */
  lemma ApplyMulScaling(m: Mat4, v: Vec3)
    ensures forall p: Vec3 {:trigger Apply(Mul(m, Scaling(v)), Point(p))} ::
      Apply(Mul(m, Scaling(v)), Point(p)) == Apply(m, Point(Vec3(p.x * v.x, p.y * v.y, p.z * v.z)))
  {
    forall p: Vec3 ensures Apply(Mul(m, Scaling(v)), Point(p)) == Apply(m, Point(Vec3(p.x * v.x, p.y * v.y, p.z * v.z))) {
      ApplyMul(m, Scaling(v), Point(p));
      ApplyScaling(v, p);
    }
  }

  /** Row i of a sum of matrices, applied to v, is the sum of the rows'
      results. */
  lemma RowDotAdd(a: Mat4, b: Mat4, i: nat, v: Vec4)
    requires i < 4
    ensures RowDot(Add(a, b), i, v) == RowDot(a, i, v) + RowDot(b, i, v)
  {
  }

  /** The sum of two matrices acts as the sum of their actions. */
  lemma ApplyAdd(a: Mat4, b: Mat4)
    ensures forall v: Vec4 {:trigger Apply(Add(a, b), v)} :: Apply(Add(a, b), v) == Sum4(Apply(a, v), Apply(b, v))
  {
    forall v: Vec4 ensures Apply(Add(a, b), v) == Sum4(Apply(a, v), Apply(b, v)) {
      RowDotAdd(a, b, 0, v);
      RowDotAdd(a, b, 1, v);
      RowDotAdd(a, b, 2, v);
      RowDotAdd(a, b, 3, v);
    }
  }

  /** The identity acts as the identity on every vector. */
  lemma ApplyIdentity(v: Vec4)
    ensures Apply(Identity(), v) == v
  {
  }

  /** The identity is a unit on both sides of the product. */
  lemma MulIdentity(m: Mat4)
    ensures Mul(Identity(), m) == m
    ensures Mul(m, Identity()) == m
  {
    var l := Mul(Identity(), m);
    var r := Mul(m, Identity());
    forall i | 0 <= i < 4 ensures l[i] == m[i] && r[i] == m[i] {
      assert forall j | 0 <= j < 4 :: l[i][j] == m[i][j] && r[i][j] == m[i][j];
    }
  }

  /** (p0 * q0 + p1 * q1 + p2 * q2 + p3 * q3) * r, each term reassociated. */
  lemma SumTimes(s: real, p0: real, p1: real, p2: real, p3: real, q0: real, q1: real, q2: real, q3: real, r: real)
    requires s == p0 * q0 + p1 * q1 + p2 * q2 + p3 * q3
    ensures s * r == p0 * (q0 * r) + p1 * (q1 * r) + p2 * (q2 * r) + p3 * (q3 * r)
  {
  }

  /** p * (q0 * r0 + q1 * r1 + q2 * r2 + q3 * r3), distributed. */
  lemma TimesSum(p: real, s: real, q0: real, q1: real, q2: real, q3: real, r0: real, r1: real, r2: real, r3: real)
    requires s == q0 * r0 + q1 * r1 + q2 * r2 + q3 * r3
    ensures p * s == p * (q0 * r0) + p * (q1 * r1) + p * (q2 * r2) + p * (q3 * r3)
  {
  }

  /** The sixteen terms of entry (i, j) of a * b * c: row k, column l holds
      a[i][l] * (b[l][k] * c[k][j]). */
  function Terms(a: Mat4, b: Mat4, c: Mat4, i: nat, j: nat): (t: Mat4)
    requires i < 4 && j < 4
    ensures forall k, l | 0 <= k < 4 && 0 <= l < 4 :: t[k][l] == a[i][l] * (b[l][k] * c[k][j])
  {
    seq(4, k requires 0 <= k < 4 => seq(4, l requires 0 <= l < 4 => a[i][l] * (b[l][k] * c[k][j])))
  }

  /** The sum of row k of t. */
  function RowSum(t: Mat4, k: nat): real
    requires k < 4
  {
    t[k][0] + t[k][1] + t[k][2] + t[k][3]
  }

  /** The sum of column l of t. */
  function ColumnSum(t: Mat4, l: nat): real
    requires l < 4
  {
    t[0][l] + t[1][l] + t[2][l] + t[3][l]
  }

  /** Adding up a matrix by rows or by columns gives the same total. */
  lemma RowsColumns(t: Mat4)
    ensures RowSum(t, 0) + RowSum(t, 1) + RowSum(t, 2) + RowSum(t, 3)
         == ColumnSum(t, 0) + ColumnSum(t, 1) + ColumnSum(t, 2) + ColumnSum(t, 3)
  {
  }

  /** Term k of entry (i, j) of (a * b) * c is row k of the terms. */
  lemma MulLeftTerm(a: Mat4, b: Mat4, c: Mat4, i: nat, j: nat, k: nat)
    requires i < 4 && j < 4 && k < 4
    ensures Mul(a, b)[i][k] * c[k][j] == RowSum(Terms(a, b, c, i, j), k)
  {
    SumTimes(Mul(a, b)[i][k], a[i][0], a[i][1], a[i][2], a[i][3], b[0][k], b[1][k], b[2][k], b[3][k], c[k][j]);
  }

  /** Term l of entry (i, j) of a * (b * c) is column l of the terms. */
  lemma MulRightTerm(a: Mat4, b: Mat4, c: Mat4, i: nat, j: nat, l: nat)
    requires i < 4 && j < 4 && l < 4
    ensures a[i][l] * Mul(b, c)[l][j] == ColumnSum(Terms(a, b, c, i, j), l)
  {
    TimesSum(a[i][l], Mul(b, c)[l][j], b[l][0], b[l][1], b[l][2], b[l][3], c[0][j], c[1][j], c[2][j], c[3][j]);
  }

  /** Entry (i, j) of (a * b) * c adds up the terms row by row. */
  lemma MulLeftEntry(a: Mat4, b: Mat4, c: Mat4, i: nat, j: nat)
    requires i < 4 && j < 4
    ensures var t := Terms(a, b, c, i, j);
      Mul(Mul(a, b), c)[i][j] == RowSum(t, 0) + RowSum(t, 1) + RowSum(t, 2) + RowSum(t, 3)
  {
    MulLeftTerm(a, b, c, i, j, 0);
    MulLeftTerm(a, b, c, i, j, 1);
    MulLeftTerm(a, b, c, i, j, 2);
    MulLeftTerm(a, b, c, i, j, 3);
  }

  /** Entry (i, j) of a * (b * c) adds up the terms column by column. */
  lemma MulRightEntry(a: Mat4, b: Mat4, c: Mat4, i: nat, j: nat)
    requires i < 4 && j < 4
    ensures var t := Terms(a, b, c, i, j);
      Mul(a, Mul(b, c))[i][j] == ColumnSum(t, 0) + ColumnSum(t, 1) + ColumnSum(t, 2) + ColumnSum(t, 3)
  {
    MulRightTerm(a, b, c, i, j, 0);
    MulRightTerm(a, b, c, i, j, 1);
    MulRightTerm(a, b, c, i, j, 2);
    MulRightTerm(a, b, c, i, j, 3);
  }

  /** One entry of the associativity law: both groupings add up the same
      sixteen terms. */
  lemma MulAssociativeAt(a: Mat4, b: Mat4, c: Mat4, i: nat, j: nat)
    requires i < 4 && j < 4
    ensures Mul(Mul(a, b), c)[i][j] == Mul(a, Mul(b, c))[i][j]
  {
    MulLeftEntry(a, b, c, i, j);
    MulRightEntry(a, b, c, i, j);
    RowsColumns(Terms(a, b, c, i, j));
  }

  /** The product is associative. */
  lemma MulAssociative(a: Mat4, b: Mat4, c: Mat4)
    ensures Mul(Mul(a, b), c) == Mul(a, Mul(b, c))
  {
    var l := Mul(Mul(a, b), c);
    var r := Mul(a, Mul(b, c));
    forall i, j | 0 <= i < 4 && 0 <= j < 4
      ensures l[i][j] == r[i][j]
    {
      MulAssociativeAt(a, b, c, i, j);
    }
    forall i | 0 <= i < 4 ensures l[i] == r[i] {
      assert forall j | 0 <= j < 4 :: l[i][j] == r[i][j];
    }
  }

  /** The matrix whose first column is v and whose other entries are 0. */
  function Column(v: Vec4): Mat4 {
    [[v.x, 0.0, 0.0, 0.0], [v.y, 0.0, 0.0, 0.0], [v.z, 0.0, 0.0, 0.0], [v.w, 0.0, 0.0, 0.0]]
  }

  /** Multiplying by a one-column matrix applies the matrix to the column. */
  lemma MulColumn(m: Mat4, v: Vec4)
    ensures Mul(m, Column(v)) == Column(Apply(m, v))
  {
    var l := Mul(m, Column(v));
    var r := Column(Apply(m, v));
    forall i | 0 <= i < 4 ensures l[i] == r[i] {
      assert forall j | 0 <= j < 4 :: l[i][j] == r[i][j];
    }
  }

  /** Multiplying a matrix by a vector is the composition of the two actions. */
  lemma ApplyMul(a: Mat4, b: Mat4, v: Vec4)
    ensures Apply(Mul(a, b), v) == Apply(a, Apply(b, v))
  {
    MulColumn(Mul(a, b), v);
    MulColumn(b, v);
    MulColumn(a, Apply(b, v));
    MulAssociative(a, b, Column(v));
    assert Column(Apply(Mul(a, b), v)) == Column(Apply(a, Apply(b, v)));
    assert Column(Apply(Mul(a, b), v))[0][0] == Apply(Mul(a, b), v).x;
  }
}
