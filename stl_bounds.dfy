/*
 * minimum, maximum and Model.BoundingBox of main.go, over real coordinates
 * standing in for float32 (NaN and the infinities are not modelled, so the
 * comparisons are a total order).
 */
module StlBounds {
  import opened StlModel

  /** minimum: the least of a non-empty list, by a running minimum. */
  method Minimum(xs: seq<real>) returns (m: real)
    requires |xs| > 0
    ensures m in xs
    ensures forall i :: 0 <= i < |xs| ==> m <= xs[i]
  {
    m := xs[0];
    for i := 1 to |xs|
      invariant m in xs[..i]
      invariant forall k :: 0 <= k < i ==> m <= xs[k]
    {
      if xs[i] < m {
        m := xs[i];
      }
    }
  }

  /** maximum: the greatest of a non-empty list, by a running maximum. */
  method Maximum(xs: seq<real>) returns (m: real)
    requires |xs| > 0
    ensures m in xs
    ensures forall i :: 0 <= i < |xs| ==> xs[i] <= m
  {
    m := xs[0];
    for i := 1 to |xs|
      invariant m in xs[..i]
      invariant forall k :: 0 <= k < i ==> xs[k] <= m
    {
      if xs[i] > m {
        m := xs[i];
      }
    }
  }

  /** Coordinate a of vertex v of triangle k. */
  function Coord(ts: seq<Triangle<real>>, k: nat, v: nat, a: nat): real
    requires k < |ts| && v < 3 && a < 3
  {
    ts[k].Vertex(v).At(a)
  }

  /** c is at most every axis-a vertex coordinate of the first n triangles,
    * and equals one of them. */
  ghost predicate IsAxisMin(ts: seq<Triangle<real>>, n: nat, a: nat, c: real)
    requires n <= |ts| && a < 3
  {
    (forall k, v :: 0 <= k < n && 0 <= v < 3 ==> c <= Coord(ts, k, v, a)) &&
    (exists k, v :: 0 <= k < n && 0 <= v < 3 && c == Coord(ts, k, v, a))
  }

  /** c is at least every axis-a vertex coordinate of the first n triangles,
    * and equals one of them. */
  ghost predicate IsAxisMax(ts: seq<Triangle<real>>, n: nat, a: nat, c: real)
    requires n <= |ts| && a < 3
  {
    (forall k, v :: 0 <= k < n && 0 <= v < 3 ==> Coord(ts, k, v, a) <= c) &&
    (exists k, v :: 0 <= k < n && 0 <= v < 3 && c == Coord(ts, k, v, a))
  }

  /** lo and hi are the corners of the smallest axis-aligned box around
    * every vertex of ts. */
  ghost predicate IsBoundingBox(ts: seq<Triangle<real>>, lo: Vec3<real>, hi: Vec3<real>)
  {
    forall a :: 0 <= a < 3 ==> IsAxisMin(ts, |ts|, a, lo.At(a)) && IsAxisMax(ts, |ts|, a, hi.At(a))
  }

  /** The list one step of BoundingBox passes to minimum or maximum for
    * axis a: the running value c, then the axis-a coordinates of triangle n. */
  function StepList(ts: seq<Triangle<real>>, n: nat, a: nat, c: real): seq<real>
    requires n < |ts| && a < 3
  {
    [c, Coord(ts, n, 0, a), Coord(ts, n, 1, a), Coord(ts, n, 2, a)]
  }

  /** One step of the running minimum: the least of c and triangle n's
    * axis-a coordinates is the minimum over the first n + 1 triangles,
    * where c is either that minimum over the first n triangles or, before
    * the first step, the coordinate of P0 of triangle 0. */
  lemma AxisMinStep(ts: seq<Triangle<real>>, n: nat, a: nat, c: real, c': real)
    requires n < |ts| && a < 3
    requires if n == 0 then c == Coord(ts, 0, 0, a) else IsAxisMin(ts, n, a, c)
    requires c' in StepList(ts, n, a, c)
    requires forall i :: 0 <= i < 4 ==> c' <= StepList(ts, n, a, c)[i]
    ensures IsAxisMin(ts, n + 1, a, c')
  {
    var xs := StepList(ts, n, a, c);
    var i :| 0 <= i < 4 && xs[i] == c';
    if i == 0 && n > 0 {
      var k, v :| 0 <= k < n && 0 <= v < 3 && c == Coord(ts, k, v, a);
      assert c' == Coord(ts, k, v, a);
    } else if i == 0 {
      assert c' == Coord(ts, 0, 0, a);
    } else {
      assert c' == Coord(ts, n, i - 1, a);
    }
    forall k, v | 0 <= k < n + 1 && 0 <= v < 3
      ensures c' <= Coord(ts, k, v, a)
    {
      assert c' <= xs[0] && c' <= xs[v + 1];
    }
  }

  /** One step of the running maximum, symmetric to AxisMinStep. */
  lemma AxisMaxStep(ts: seq<Triangle<real>>, n: nat, a: nat, c: real, c': real)
    requires n < |ts| && a < 3
    requires if n == 0 then c == Coord(ts, 0, 0, a) else IsAxisMax(ts, n, a, c)
    requires c' in StepList(ts, n, a, c)
    requires forall i :: 0 <= i < 4 ==> StepList(ts, n, a, c)[i] <= c'
    ensures IsAxisMax(ts, n + 1, a, c')
  {
    var xs := StepList(ts, n, a, c);
    var i :| 0 <= i < 4 && xs[i] == c';
    if i == 0 && n > 0 {
      var k, v :| 0 <= k < n && 0 <= v < 3 && c == Coord(ts, k, v, a);
      assert c' == Coord(ts, k, v, a);
    } else if i == 0 {
      assert c' == Coord(ts, 0, 0, a);
    } else {
      assert c' == Coord(ts, n, i - 1, a);
    }
    forall k, v | 0 <= k < n + 1 && 0 <= v < 3
      ensures Coord(ts, k, v, a) <= c'
    {
      assert xs[0] <= c' && xs[v + 1] <= c';
    }
  }

  /** The two calls of Model.BoundingBox's loop body for axis a: the running
    * minimum and maximum lo and hi are widened by triangle n's vertices. */
  method WidenAxis(ts: seq<Triangle<real>>, n: nat, a: nat, lo: real, hi: real) returns (lo': real, hi': real)
    requires n < |ts| && a < 3
    requires if n == 0 then lo == hi == Coord(ts, 0, 0, a)
             else IsAxisMin(ts, n, a, lo) && IsAxisMax(ts, n, a, hi)
    ensures IsAxisMin(ts, n + 1, a, lo') && IsAxisMax(ts, n + 1, a, hi')
  {
    var t := ts[n];
    assert [lo, t.p0.At(a), t.p1.At(a), t.p2.At(a)] == StepList(ts, n, a, lo);
    assert [hi, t.p0.At(a), t.p1.At(a), t.p2.At(a)] == StepList(ts, n, a, hi);
    lo' := Minimum([lo, t.p0.At(a), t.p1.At(a), t.p2.At(a)]);
    hi' := Maximum([hi, t.p0.At(a), t.p1.At(a), t.p2.At(a)]);
    AxisMinStep(ts, n, a, lo, lo');
    AxisMaxStep(ts, n, a, hi, hi');
  }

  /** Model.BoundingBox: starts from P0 of the first triangle and widens the
    * box by the three vertices of every triangle; normals are not read.
    * The source indexes Triangles[0], so the model needs a triangle. */
  method BoundingBox(ts: seq<Triangle<real>>) returns (lo: Vec3<real>, hi: Vec3<real>)
    requires |ts| > 0
    ensures IsBoundingBox(ts, lo, hi)
  {
    lo := ts[0].p0;
    hi := ts[0].p0;
    for n := 0 to |ts|
      invariant n == 0 ==> lo == ts[0].p0 && hi == ts[0].p0
      invariant forall a :: 0 <= a < 3 && n > 0 ==>
        IsAxisMin(ts, n, a, lo.At(a)) && IsAxisMax(ts, n, a, hi.At(a))
    {
      var minX, maxX := WidenAxis(ts, n, 0, lo.At(0), hi.At(0));
      var minY, maxY := WidenAxis(ts, n, 1, lo.At(1), hi.At(1));
      var minZ, maxZ := WidenAxis(ts, n, 2, lo.At(2), hi.At(2));
      lo := Vec3(minX, minY, minZ);
      hi := Vec3(maxX, maxY, maxZ);
    }
  }

  /** The box is determined by the vertices alone: two meshes with the same
    * vertices have the same bounding box, whatever their normals. */
  lemma BoundingBoxIgnoresNormals(ts: seq<Triangle<real>>, us: seq<Triangle<real>>,
                                  lo: Vec3<real>, hi: Vec3<real>, lo': Vec3<real>, hi': Vec3<real>)
    requires |ts| == |us|
    requires forall k, v :: 0 <= k < |ts| && 0 <= v < 3 ==> ts[k].Vertex(v) == us[k].Vertex(v)
    requires IsBoundingBox(ts, lo, hi) && IsBoundingBox(us, lo', hi')
    ensures lo == lo' && hi == hi'
  {
    forall a | 0 <= a < 3
      ensures lo.At(a) == lo'.At(a) && hi.At(a) == hi'.At(a)
    {
      assert IsAxisMin(ts, |ts|, a, lo.At(a)) && IsAxisMax(ts, |ts|, a, hi.At(a));
      assert IsAxisMin(us, |us|, a, lo'.At(a)) && IsAxisMax(us, |us|, a, hi'.At(a));
      var k1, v1 :| 0 <= k1 < |ts| && 0 <= v1 < 3 && lo.At(a) == Coord(ts, k1, v1, a);
      var k2, v2 :| 0 <= k2 < |us| && 0 <= v2 < 3 && lo'.At(a) == Coord(us, k2, v2, a);
      assert Coord(ts, k2, v2, a) == Coord(us, k2, v2, a);
      assert Coord(us, k1, v1, a) == Coord(ts, k1, v1, a);
      var k3, v3 :| 0 <= k3 < |ts| && 0 <= v3 < 3 && hi.At(a) == Coord(ts, k3, v3, a);
      var k4, v4 :| 0 <= k4 < |us| && 0 <= v4 < 3 && hi'.At(a) == Coord(us, k4, v4, a);
      assert Coord(ts, k4, v4, a) == Coord(us, k4, v4, a);
      assert Coord(us, k3, v3, a) == Coord(ts, k3, v3, a);
    }
    Vec3Extensional(lo, lo');
    Vec3Extensional(hi, hi');
  }

  /** The single triangle (0,0,0), (1,0,0), (0,1,0) has the box from
    * (0,0,0) to (1,1,0), whatever its normal. */
  lemma UnitTriangleBox(n: Vec3<real>)
    ensures IsBoundingBox([Triangle(n, Vec3(0.0, 0.0, 0.0), Vec3(1.0, 0.0, 0.0), Vec3(0.0, 1.0, 0.0))],
                          Vec3(0.0, 0.0, 0.0), Vec3(1.0, 1.0, 0.0))
  {
    var ts := [Triangle(n, Vec3(0.0, 0.0, 0.0), Vec3(1.0, 0.0, 0.0), Vec3(0.0, 1.0, 0.0))];
    assert Coord(ts, 0, 0, 0) == 0.0 && Coord(ts, 0, 1, 0) == 1.0;
    assert Coord(ts, 0, 0, 1) == 0.0 && Coord(ts, 0, 2, 1) == 1.0;
    assert Coord(ts, 0, 0, 2) == 0.0;
  }
}
