/*
 * The entities of package gostl (main.go:16-25): a triangle is four
 * three-component vectors, the face normal and three vertices.  The
 * component type is a parameter: the codec works on the 32-bit patterns of
 * the float32 components, the geometry on real numbers standing in for them.
 * A model is the sequence of its triangles; its `filepath` field is not
 * used by any logic and is left out.
 */
module StlModel {

  /** A [3]float32 vector, components indexed 0 (x), 1 (y) and 2 (z). */
  datatype Vec3<T> = Vec3(x: T, y: T, z: T)
  {
    function At(i: nat): T
      requires i < 3
    {
      if i == 0 then x else if i == 1 then y else z
    }

    /** The vector with component i replaced by c. */
    function With(i: nat, c: T): (v: Vec3<T>)
      requires i < 3
      ensures v.At(i) == c
      ensures forall k :: 0 <= k < 3 && k != i ==> v.At(k) == At(k)
    {
      if i == 0 then this.(x := c) else if i == 1 then this.(y := c) else this.(z := c)
    }
  }

  /** Two vectors with the same components are the same vector. */
  lemma Vec3Extensional<T>(a: Vec3<T>, b: Vec3<T>)
    requires forall i :: 0 <= i < 3 ==> a.At(i) == b.At(i)
    ensures a == b
  {
    assert a.At(0) == b.At(0) && a.At(1) == b.At(1) && a.At(2) == b.At(2);
  }

  /** Triangle: its normal and vertices P0, P1, P2 in winding order. */
  datatype Triangle<T> = Triangle(normal: Vec3<T>, p0: Vec3<T>, p1: Vec3<T>, p2: Vec3<T>)
  {
    /** The vectors in record order: 0 normal, 1 P0, 2 P1, 3 P2. */
    function Field(j: nat): Vec3<T>
      requires j < 4
    {
      if j == 0 then normal else if j == 1 then p0 else if j == 2 then p1 else p2
    }

    /** Vertex v (0, 1 or 2), that is P0, P1 or P2. */
    function Vertex(v: nat): Vec3<T>
      requires v < 3
    {
      Field(v + 1)
    }
  }
}
