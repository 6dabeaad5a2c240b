/*
 * The normal rule of the invert command (invert/invertNormals.go): dot,
 * cross, normalize and the update of the first triangle of a parsed model.
 *
 * Components are real numbers standing in for float32.  normalize takes
 * `rsqrt`, the reciprocal square root `1 / float32(sqrt(x))` it computes
 * with the math library, as a parameter: only the fact that every component
 * is multiplied by that one factor is modelled.
 */
module InvertNormals {
  import opened StlModel

  /** dot: the sum of the componentwise products; a vector's product with
    * itself, its squared length, is never negative. */
  function Dot(a: Vec3<real>, b: Vec3<real>): (r: real)
    ensures a == b ==> r >= 0.0
  {
    a.x * b.x + a.y * b.y + a.z * b.z
  }

  /** cross: the right-handed cross product, written as the source writes it.
    * It is perpendicular to both of its arguments. */
  function Cross(a: Vec3<real>, b: Vec3<real>): (c: Vec3<real>)
    ensures Dot(a, c) == 0.0 && Dot(b, c) == 0.0
  {
    var c := Vec3(a.y * b.z - b.y * a.z, a.z * b.x - b.z * a.x, a.x * b.y - b.x * a.y);
    assert a.x * c.x == a.x * a.y * b.z - a.x * b.y * a.z;
    assert a.y * c.y == a.y * a.z * b.x - a.y * b.z * a.x;
    assert a.z * c.z == a.z * a.x * b.y - a.z * b.x * a.y;
    assert b.x * c.x == b.x * a.y * b.z - b.x * b.y * a.z;
    assert b.y * c.y == b.y * a.z * b.x - b.y * b.z * a.x;
    assert b.z * c.z == b.z * a.x * b.y - b.z * b.x * a.y;
    c
  }

  function Negate(a: Vec3<real>): Vec3<real>
  {
    Vec3(-a.x, -a.y, -a.z)
  }

  /** Every component of a multiplied by k. */
  function Scale(a: Vec3<real>, k: real): Vec3<real>
  {
    Vec3(a.x * k, a.y * k, a.z * k)
  }

  lemma DotSymmetric(a: Vec3<real>, b: Vec3<real>)
    ensures Dot(a, b) == Dot(b, a)
  {
  }

  lemma CrossAntisymmetric(a: Vec3<real>, b: Vec3<real>)
    ensures Cross(a, b) == Negate(Cross(b, a))
  {
  }

  /** Scaling one argument of dot by k scales the product by k. */
  lemma DotScale(n: Vec3<real>, a: Vec3<real>, k: real)
    ensures Dot(n, Scale(a, k)) == k * Dot(n, a)
  {
    assert n.x * (a.x * k) == k * (n.x * a.x);
    assert n.y * (a.y * k) == k * (n.y * a.y);
    assert n.z * (a.z * k) == k * (n.z * a.z);
  }

  lemma DotNegate(n: Vec3<real>, a: Vec3<real>)
    ensures Dot(n, Negate(a)) == -Dot(n, a)
  {
  }

  /** The direction the command gives triangle t before normalizing: the
    * cross product of P0 and P1 (the vertex positions, not two edges),
    * swapped to cross(P1, P0) when it lies in the stored normal's open
    * half-space.  It is cross(P0, P1) or its negation, and never points
    * into the stored normal's half-space. */
  function CorrectedDirection(t: Triangle<real>): (d: Vec3<real>)
    ensures d == Cross(t.p0, t.p1) || d == Negate(Cross(t.p0, t.p1))
    ensures Dot(t.normal, d) <= 0.0
  {
    var candidate := Cross(t.p0, t.p1);
    CrossAntisymmetric(t.p1, t.p0);
    DotNegate(t.normal, candidate);
    if Dot(t.normal, candidate) > 0.0 then Cross(t.p1, t.p0) else candidate
  }

  /** The stored normal decides the sign: the direction is cross(P0, P1) when
    * their dot product is at most zero, and its negation otherwise. */
  lemma CorrectedDirectionSign(t: Triangle<real>)
    ensures Dot(t.normal, Cross(t.p0, t.p1)) <= 0.0 ==> CorrectedDirection(t) == Cross(t.p0, t.p1)
    ensures Dot(t.normal, Cross(t.p0, t.p1)) > 0.0 ==> CorrectedDirection(t) == Negate(Cross(t.p0, t.p1))
  {
    CrossAntisymmetric(t.p1, t.p0);
    CrossAntisymmetric(t.p0, t.p1);
  }

  /** The corrected direction is perpendicular to the position vectors P0
    * and P1 it is built from. */
  lemma CorrectedDirectionPerpendicular(t: Triangle<real>)
    ensures Dot(t.p0, CorrectedDirection(t)) == 0.0 && Dot(t.p1, CorrectedDirection(t)) == 0.0
  {
    CorrectedDirectionSign(t);
    DotNegate(t.p0, Cross(t.p0, t.p1));
    DotNegate(t.p1, Cross(t.p0, t.p1));
  }

  lemma NonPositiveProduct(k: real, x: real)
    ensures 0.0 <= k && x <= 0.0 ==> k * x <= 0.0
  {
  }

  /** The triangle the command stores: t with its normal replaced by the
    * normalized corrected direction; the vertices are kept. */
  function Reoriented(t: Triangle<real>, rsqrt: real -> real): (r: Triangle<real>)
    ensures r.p0 == t.p0 && r.p1 == t.p1 && r.p2 == t.p2
    ensures var d := CorrectedDirection(t);
      0.0 <= rsqrt(Dot(d, d)) ==> Dot(t.normal, r.normal) <= 0.0
  {
    var d := CorrectedDirection(t);
    var k := rsqrt(Dot(d, d));
    DotScale(t.normal, d, k);
    NonPositiveProduct(k, Dot(t.normal, d));
    t.(normal := Scale(d, rsqrt(Dot(d, d))))
  }

  /** normalize: multiplies every component of a by the one factor
    * rsqrt(dot(a, a)), component by component. */
  method Normalize(a: Vec3<real>, rsqrt: real -> real) returns (r: Vec3<real>)
    ensures forall i :: 0 <= i < 3 ==> r.At(i) == a.At(i) * rsqrt(Dot(a, a))
    ensures r == Scale(a, rsqrt(Dot(a, a)))
  {
    var il := rsqrt(Dot(a, a));
    r := a;
    for i := 0 to 3
      invariant forall k :: 0 <= k < 3 ==> r.At(k) == if k < i then a.At(k) * il else a.At(k)
    {
      r := r.With(i, r.At(i) * il);
    }
    forall k | 0 <= k < 3
      ensures r.At(k) == Scale(a, il).At(k)
    {
      assert r.At(k) == a.At(k) * il;
    }
    Vec3Extensional(r, Scale(a, il));
  }

  /** When the factor is the reciprocal of the length, so that
    * k * k * dot(a, a) == 1, the scaled vector has unit length. */
  lemma ScaleUnitLength(a: Vec3<real>, k: real)
    requires k * k * Dot(a, a) == 1.0
    ensures Dot(Scale(a, k), Scale(a, k)) == 1.0
  {
    DotScale(Scale(a, k), a, k);
    DotScale(a, a, k);
    DotSymmetric(Scale(a, k), a);
  }

  /** The update loop of the command: the range loop over the triangles
    * stops at index 1, so only triangle 0 gets the corrected, normalized
    * normal; every other triangle is left as it was, and an empty model is
    * not touched. */
  method InvertFirstNormal(ts: array<Triangle<real>>, rsqrt: real -> real)
    modifies ts
    ensures ts.Length > 0 ==> ts[0] == Reoriented(old(ts[0]), rsqrt)
    ensures forall k :: 1 <= k < ts.Length ==> ts[k] == old(ts[k])
  {
    var i := 0;
    while i < ts.Length
      invariant 0 <= i <= 1 && i <= ts.Length
      invariant i == 1 ==> ts[0] == Reoriented(old(ts[0]), rsqrt)
      invariant forall k :: i <= k < ts.Length ==> ts[k] == old(ts[k])
    {
      if i > 0 {
        break;
      }
      var t := ts[i];
      var n1 := Cross(t.p0, t.p1);
      if Dot(t.normal, n1) > 0.0 {
        n1 := Cross(t.p1, t.p0);
      }
      var n := Normalize(n1, rsqrt);
      ts[i] := t.(normal := n);
      i := i + 1;
    }
  }

  /** The triangle normal (0,0,1), P0 (1,0,0), P1 (0,1,0): cross(P0, P1) is
    * (0,0,1), in the stored normal's half-space, so the direction becomes
    * (0,0,-1). */
  lemma ExampleFlipsNormal()
    ensures CorrectedDirection(Triangle(Vec3(0.0, 0.0, 1.0), Vec3(1.0, 0.0, 0.0),
                                        Vec3(0.0, 1.0, 0.0), Vec3(0.0, 0.0, 0.0)))
            == Vec3(0.0, 0.0, -1.0)
  {
  }
}
