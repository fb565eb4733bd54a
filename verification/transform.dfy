/** The model transform of 10/shadows/src/Transform.cpp: one 4x4 matrix
    that translate, scale and rotate right-multiply, plus the operator
    overloads. C++ mutation becomes a function returning the new value;
    the right operand of every operator is a value, so it is never changed. */
module Transforms {
  import opened Linear

  datatype Transform = Transform(m: Mat4)

  /** Transform::Transform(): a new transform acts as the identity. */
  function New(): (t: Transform)
    ensures forall v: Vec4 {:trigger Apply(t.m, v)} :: Apply(t.m, v) == v
  {
    ApplyIdentityAll();
    Transform(Identity())
  }

  lemma ApplyIdentityAll()
    ensures forall v: Vec4 {:trigger Apply(Identity(), v)} :: Apply(Identity(), v) == v
  {
    forall v: Vec4 ensures Apply(Identity(), v) == v { ApplyIdentity(v); }
  }

  /** Transform::LoadIdentity: the identity, whatever the prior state. */
  function LoadIdentity(t: Transform): (r: Transform)
    ensures r.m == Identity()
    ensures forall v: Vec4 {:trigger Apply(r.m, v)} :: Apply(r.m, v) == v
  {
    New()
  }

  /** Transform::Translate: M := M * T(x, y, z). A point is first moved by
      (x, y, z) in object space and then mapped by the old matrix. */
  function Translate(t: Transform, x: real, y: real, z: real): (r: Transform)
    ensures forall p: Vec3 {:trigger Apply(r.m, Point(p))} ::
      Apply(r.m, Point(p)) == Apply(t.m, Point(p.Plus(Vec3(x, y, z))))
  {
    var r := Transform(Mul(t.m, Translation(Vec3(x, y, z))));
    forall p: Vec3 ensures Apply(r.m, Point(p)) == Apply(t.m, Point(p.Plus(Vec3(x, y, z)))) {
      ApplyMul(t.m, Translation(Vec3(x, y, z)), Point(p));
    }
    r
  }

  /** Transform::Scale: M := M * S(x, y, z). A point is first scaled
      component-wise in object space and then mapped by the old matrix. */
  function Scale(t: Transform, x: real, y: real, z: real): (r: Transform)
    ensures forall p: Vec3 {:trigger Apply(r.m, Point(p))} ::
      Apply(r.m, Point(p)) == Apply(t.m, Point(Vec3(p.x * x, p.y * y, p.z * z)))
  {
    ApplyMulScaling(t.m, Vec3(x, y, z));
    Transform(Mul(t.m, Scaling(Vec3(x, y, z))))
  }

  /** Transform::Rotate: M := M * R. The rotation matrix glm::rotate builds
      from an angle and an axis is trigonometry this model leaves out, so
      the caller supplies it. */
  function Rotate(t: Transform, rotation: Mat4): (r: Transform)
    ensures forall v: Vec4 {:trigger Apply(r.m, v)} :: Apply(r.m, v) == Apply(t.m, Apply(rotation, v))
  {
    Times(t, Transform(rotation))
  }

  /** Transform::ApplyTransform: the matrix is replaced by the argument's, not
      composed with it. */
  function ApplyTransform(t: Transform, other: Transform): (r: Transform)
    ensures forall v: Vec4 {:trigger Apply(r.m, v)} :: Apply(r.m, v) == Apply(other.m, v)
    ensures r == other
  {
    other
  }

  /** Transform::operator=: the same replacement as ApplyTransform. */
  function Assign(t: Transform, other: Transform): (r: Transform)
    ensures r.m == other.m
    ensures r == ApplyTransform(t, other)
  {
    other
  }

  /** operator*(lhs, rhs): the product, acting as rhs first and then lhs. */
  function Times(lhs: Transform, rhs: Transform): (r: Transform)
    ensures forall v: Vec4 {:trigger Apply(r.m, v)} :: Apply(r.m, v) == Apply(lhs.m, Apply(rhs.m, v))
  {
    var r := Transform(Mul(lhs.m, rhs.m));
    forall v: Vec4 ensures Apply(r.m, v) == Apply(lhs.m, Apply(rhs.m, v)) {
      ApplyMul(lhs.m, rhs.m, v);
    }
    r
  }

  /** operator+(lhs, rhs): the entry-wise sum, whose action is the sum of the
      two actions. */
  function Plus(lhs: Transform, rhs: Transform): (r: Transform)
    ensures forall v: Vec4 {:trigger Apply(r.m, v)} :: Apply(r.m, v) == Sum4(Apply(lhs.m, v), Apply(rhs.m, v))
  {
    ApplyAdd(lhs.m, rhs.m);
    Transform(Add(lhs.m, rhs.m))
  }

  /** operator*=: the left operand becomes lhs * rhs. */
  function MulAssign(t: Transform, rhs: Transform): (r: Transform)
    ensures forall v: Vec4 {:trigger Apply(r.m, v)} :: Apply(r.m, v) == Apply(t.m, Apply(rhs.m, v))
  {
    Times(t, rhs)
  }

  /** operator+=: the left operand becomes lhs + rhs. */
  function AddAssign(t: Transform, rhs: Transform): (r: Transform)
    ensures forall v: Vec4 {:trigger Apply(r.m, v)} :: Apply(r.m, v) == Sum4(Apply(t.m, v), Apply(rhs.m, v))
  {
    Plus(t, rhs)
  }

  /** LoadIdentity followed by `*= t` leaves exactly t's matrix. */
  lemma LoadIdentityThenMulAssign(prior: Transform, t: Transform)
    ensures MulAssign(LoadIdentity(prior), t) == t
  {
    MulIdentity(t.m);
  }

  /** Composition in call order: M * A * B, whichever way it is grouped. */
  lemma MulAssignAssociates(t: Transform, a: Transform, b: Transform)
    ensures MulAssign(MulAssign(t, a), b) == MulAssign(t, Times(a, b))
  {
    MulAssociative(t.m, a.m, b.m);
  }

  /** Two translations compose into the translation by the sum. */
  lemma TranslateTwice(t: Transform, a: Vec3, b: Vec3)
    ensures Translate(Translate(t, a.x, a.y, a.z), b.x, b.y, b.z)
         == Translate(t, a.x + b.x, a.y + b.y, a.z + b.z)
  {
    var ta := Translation(a);
    var tb := Translation(b);
    var tab := Translation(Vec3(a.x + b.x, a.y + b.y, a.z + b.z));
    MulAssociative(t.m, ta, tb);
    var p := Mul(ta, tb);
    forall i | 0 <= i < 4 ensures p[i] == tab[i] {
      assert forall j | 0 <= j < 4 :: p[i][j] == tab[i][j];
    }
    assert p == tab;
    assert Vec3(a.x, a.y, a.z) == a && Vec3(b.x, b.y, b.z) == b;
    assert Translate(t, a.x, a.y, a.z).m == Mul(t.m, ta);
    assert Translate(Translate(t, a.x, a.y, a.z), b.x, b.y, b.z).m == Mul(Mul(t.m, ta), tb);
    assert Translate(t, a.x + b.x, a.y + b.y, a.z + b.z).m == Mul(t.m, tab);
  }
}
