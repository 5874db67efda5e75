/*
 * The 3D vector algebra of the `core` package (include/core/vector.go).
 *
 * Every float64 component is modelled as a Dafny `real`, so every identity
 * below holds over exact arithmetic. IEEE-754 rounding, NaN and infinities are
 * not modelled.
 *
 * The value-receiver operations of the source build a fresh vector and return
 * it; they are functions over the value type `Vec`. The two pointer-receiver
 * operations that assign the receiver's components in place
 * (ComponentProductUpdate and Clear) are methods of the class `Vector`, whose
 * abstract value is `Value()`.
 */
module Core {

  /** The x, y, z components of a vector, as a value. */
  datatype Vec = Vec(x: real, y: real, z: real)

  /** NewZeroVector: the vector (0, 0, 0). */
  function NewZeroVector(): (r: Vec)
    ensures r.x == 0.0 && r.y == 0.0 && r.z == 0.0
  {
    NewVector(0.0, 0.0, 0.0)
  }

  /** NewVector: a vector that stores exactly the given components. */
  function NewVector(x: real, y: real, z: real): (r: Vec)
    ensures r.x == x && r.y == y && r.z == z
  {
    Vec(x, y, z)
  }

  /** InvertVector: opposite direction; it is the additive inverse. */
  function InvertVector(v: Vec): (r: Vec)
    ensures AddVector(v, r) == NewZeroVector()
  {
    Vec(-v.x, -v.y, -v.z)
  }

  /** InvertVector keeps the size. */
  lemma InvertKeepsSquareSize(v: Vec)
    ensures SquareSize(InvertVector(v)) == SquareSize(v)
  {
    var r := InvertVector(v);
    assert Product(r.x, r.x) == Product(v.x, v.x);
    assert Product(r.y, r.y) == Product(v.y, v.y);
    assert Product(r.z, r.z) == Product(v.z, v.z);
  }

  /** SquareSize: the squared Euclidean norm; never negative, zero only for the zero vector. */
  function SquareSize(v: Vec): (r: real)
    ensures r >= 0.0
    ensures r == 0.0 <==> v == NewZeroVector()
  {
    Square(v.x) + Square(v.y) + Square(v.z)
  }

  /** The product of two reals, with the sign rules the norm relies on. */
  function Product(a: real, b: real): (r: real)
    ensures (a > 0.0 && b > 0.0) || (a < 0.0 && b < 0.0) ==> r > 0.0
    ensures a == 0.0 || b == 0.0 ==> r == 0.0
  {
    a * b
  }

  /** A component times itself: never negative, zero only at zero. */
  function Square(a: real): (r: real)
    ensures r >= 0.0
    ensures r == 0.0 <==> a == 0.0
  {
    Product(a, a)
  }

  /**
   * NormVector. The source computes `size` with math.Sqrt, which `real` lacks;
   * here `size` is that square root, passed in with its defining property.
   * The source panics when `size` is 0; that is the last precondition.
   * The result is a positive multiple of `v` of unit size.
   */
  function NormVector(v: Vec, size: real): (r: Vec)
    requires size >= 0.0 && Square(size) == SquareSize(v)
    requires size != 0.0
    ensures r == MultiplyScalar(v, 1.0 / size) && 1.0 / size > 0.0
    ensures SquareSize(r) == 1.0
  {
    var r := Vec(v.x / size, v.y / size, v.z / size);
    DivideIsScale(v, size);
    ScaledSquareSize(v, 1.0 / size);
    InverseSquare(size);
    r
  }

  /** Dividing every component by `size` is scaling by its reciprocal, which is positive. */
  lemma DivideIsScale(v: Vec, size: real)
    requires size > 0.0
    ensures Vec(v.x / size, v.y / size, v.z / size) == MultiplyScalar(v, 1.0 / size)
    ensures 1.0 / size > 0.0
  {
  }

  /** The squared reciprocal times the square is one. */
  lemma InverseSquare(size: real)
    requires size != 0.0
    ensures (1.0 / size) * (1.0 / size) * (size * size) == 1.0
  {
    var k := 1.0 / size;
    assert k * size == 1.0;
    assert k * k * (size * size) == (k * size) * (k * size);
  }

  /** The guard of NormVector fails exactly on the zero vector. */
  lemma NormGuardIsZeroVector(v: Vec, size: real)
    requires size >= 0.0 && Square(size) == SquareSize(v)
    ensures size == 0.0 <==> v == NewZeroVector()
  {
  }

  /** Scaling by k multiplies the squared size by k * k. */
  lemma ScaledSquareSize(v: Vec, k: real)
    ensures SquareSize(MultiplyScalar(v, k)) == k * k * SquareSize(v)
  {
    var w := MultiplyScalar(v, k);
    assert w.x * w.x == k * k * (v.x * v.x);
    assert w.y * w.y == k * k * (v.y * v.y);
    assert w.z * w.z == k * k * (v.z * v.z);
  }

  /** MultiplyScalar: every component scaled by `value`. */
  function MultiplyScalar(v: Vec, value: real): (r: Vec)
    ensures value == 1.0 ==> r == v
    ensures value == 0.0 ==> r == NewZeroVector()
  {
    Vec(v.x * value, v.y * value, v.z * value)
  }

  /** AddVector: componentwise sum. */
  function AddVector(v: Vec, u: Vec): (r: Vec)
    ensures u == Vec(0.0, 0.0, 0.0) ==> r == v
  {
    Vec(v.x + u.x, v.y + u.y, v.z + u.z)
  }

  /** SubtractVector: componentwise difference; adding the inverse of `u`. */
  function SubtractVector(v: Vec, u: Vec): (r: Vec)
    ensures r == AddVector(v, InvertVector(u))
  {
    Vec(v.x - u.x, v.y - u.y, v.z - u.z)
  }

  /** AddScaledVector: `v + u * value` in one step. */
  function AddScaledVector(v: Vec, u: Vec, value: real): (r: Vec)
    ensures r == AddVector(v, MultiplyScalar(u, value))
  {
    var m := MultiplyScalar(u, value);
    assert m == Vec(u.x * value, u.y * value, u.z * value);
    Vec(v.x + u.x * value, v.y + u.y * value, v.z + u.z * value)
  }

  /** ComponentProduct: the Hadamard product; its components sum to the inner product. */
  function ComponentProduct(v: Vec, u: Vec): (r: Vec)
    ensures r.x + r.y + r.z == InnerProduct(v, u)
    ensures u == Vec(1.0, 1.0, 1.0) ==> r == v
  {
    Vec(v.x * u.x, v.y * u.y, v.z * u.z)
  }

  /** InnerProduct: the dot product; a vector with itself gives its square size. */
  function InnerProduct(v: Vec, u: Vec): (r: real)
    ensures v == u ==> r == SquareSize(v)
  {
    v.x * u.x + v.y * u.y + v.z * u.z
  }

  /**
   * CrossProduct: `v X u`, in that order. It is characterised by the lemmas
   * below: orthogonal to both operands, anti-commutative, zero on equal
   * operands, linear in each operand and right-handed on the unit axes.
   */
  function CrossProduct(v: Vec, u: Vec): Vec
  {
    Vec(v.y * u.z - v.z * u.y, v.z * u.x - v.x * u.z, v.x * u.y - v.y * u.x)
  }

  // ---- Algebraic laws of the value operations ----

  /** Inverting twice gives back the original vector. */
  lemma InvertTwice(v: Vec)
    ensures InvertVector(InvertVector(v)) == v
    ensures InvertVector(v) == Vec(-v.x, -v.y, -v.z)
  {
  }

  /** Adding then subtracting the same vector is the identity. */
  lemma AddThenSubtract(v: Vec, u: Vec)
    ensures SubtractVector(AddVector(v, u), u) == v
  {
  }

  /** Subtracting the receiver from an add-scaled result leaves the scaled argument. */
  lemma AddScaledThenSubtract(v: Vec, u: Vec, value: real)
    ensures SubtractVector(AddScaledVector(v, u, value), v) == MultiplyScalar(u, value)
  {
  }

  /** Adding any multiple of the zero vector changes nothing, and every multiple of it is zero. */
  lemma ZeroVectorAbsorbs(v: Vec, value: real)
    ensures AddScaledVector(v, NewZeroVector(), value) == v
    ensures MultiplyScalar(NewZeroVector(), value) == NewZeroVector()
  {
  }

  /** Starting from the zero vector, adding gives the argument and adding a multiple gives the multiple. */
  lemma ZeroVectorIsNeutral(u: Vec, value: real)
    ensures AddVector(NewZeroVector(), u) == u
    ensures AddScaledVector(NewZeroVector(), u, value) == MultiplyScalar(u, value)
  {
  }

  /** Adding a zero-scaled vector changes nothing. */
  lemma AddScaledByZero(v: Vec, u: Vec)
    ensures AddScaledVector(v, u, 0.0) == v
  {
  }

  /** The inner product is commutative. */
  lemma InnerProductCommutes(v: Vec, u: Vec)
    ensures InnerProduct(v, u) == InnerProduct(u, v)
  {
  }

  /** The cross product is orthogonal to both of its operands. */
  lemma CrossProductIsOrthogonal(v: Vec, u: Vec)
    ensures InnerProduct(v, CrossProduct(v, u)) == 0.0
    ensures InnerProduct(u, CrossProduct(v, u)) == 0.0
  {
    var r := CrossProduct(v, u);
    assert v.x * r.x + v.y * r.y + v.z * r.z
        == v.x * v.y * u.z - v.x * v.z * u.y + v.y * v.z * u.x - v.y * v.x * u.z + v.z * v.x * u.y - v.z * v.y * u.x;
    assert u.x * r.x + u.y * r.y + u.z * r.z
        == u.x * v.y * u.z - u.x * v.z * u.y + u.y * v.z * u.x - u.y * v.x * u.z + u.z * v.x * u.y - u.z * v.y * u.x;
  }

  /** Swapping the operands of the cross product negates it. */
  lemma CrossProductAntiCommutes(v: Vec, u: Vec)
    ensures CrossProduct(v, u) == InvertVector(CrossProduct(u, v))
  {
  }

  /**
   * The orientation of `v X u`: on multiples of the unit axes the product
   * follows the right-hand rule, x X y = z, y X z = x and z X x = y.
   */
  lemma CrossProductOfAxes(a: real, b: real)
    ensures CrossProduct(Vec(a, 0.0, 0.0), Vec(0.0, b, 0.0)) == Vec(0.0, 0.0, a * b)
    ensures CrossProduct(Vec(0.0, a, 0.0), Vec(0.0, 0.0, b)) == Vec(a * b, 0.0, 0.0)
    ensures CrossProduct(Vec(0.0, 0.0, a), Vec(b, 0.0, 0.0)) == Vec(0.0, a * b, 0.0)
  {
  }

  /** A vector crossed with itself gives the zero vector. */
  lemma CrossProductWithSelf(v: Vec)
    ensures CrossProduct(v, v) == NewZeroVector()
  {
  }

  /** One component of a cross product of a sum, split into the two products. */
  lemma SumOfDifferences(a: real, a': real, b: real, c: real, c': real, d: real)
    ensures (a + a') * b - (c + c') * d == (a * b - c * d) + (a' * b - c' * d)
  {
  }

  /** One component of a cross product of a multiple, with the factor taken out. */
  lemma ScaledDifference(a: real, b: real, c: real, d: real, k: real, e: real)
    requires e == a * b - c * d
    ensures (a * k) * b - (c * k) * d == e * k
  {
  }

  /** The cross product distributes over a sum in its left operand. */
  lemma CrossProductAddLeft(v: Vec, w: Vec, u: Vec)
    ensures CrossProduct(AddVector(v, w), u) == AddVector(CrossProduct(v, u), CrossProduct(w, u))
  {
    var a, cv, cw := AddVector(v, w), CrossProduct(v, u), CrossProduct(w, u);
    var l := CrossProduct(a, u);
    assert l.x == cv.x + cw.x by { SumOfDifferences(v.y, w.y, u.z, v.z, w.z, u.y); }
    assert l.y == cv.y + cw.y by { SumOfDifferences(v.z, w.z, u.x, v.x, w.x, u.z); }
    assert l.z == cv.z + cw.z by { SumOfDifferences(v.x, w.x, u.y, v.y, w.y, u.x); }
  }

  /** Scaling the left operand componentwise scales the cross product. */
  lemma CrossProductOfScaled(v: Vec, u: Vec, k: real)
    ensures CrossProduct(Vec(v.x * k, v.y * k, v.z * k), u) == MultiplyScalar(CrossProduct(v, u), k)
  {
    var c := CrossProduct(v, u);
    assert MultiplyScalar(c, k) == Vec(c.x * k, c.y * k, c.z * k);
    ScaledDifference(v.y, u.z, v.z, u.y, k, c.x);
    ScaledDifference(v.z, u.x, v.x, u.z, k, c.y);
    ScaledDifference(v.x, u.y, v.y, u.x, k, c.z);
  }

  /** A scalar factor in the left operand can be taken out of the cross product. */
  lemma CrossProductScaleLeft(v: Vec, u: Vec, k: real)
    ensures CrossProduct(MultiplyScalar(v, k), u) == MultiplyScalar(CrossProduct(v, u), k)
  {
    assert MultiplyScalar(v, k) == Vec(v.x * k, v.y * k, v.z * k);
    CrossProductOfScaled(v, u, k);
  }

  /** The cross product distributes over a sum in its right operand. */
  lemma {:induction false} CrossProductAddRight(v: Vec, u: Vec, w: Vec)
    ensures CrossProduct(v, AddVector(u, w)) == AddVector(CrossProduct(v, u), CrossProduct(v, w))
  {
    CrossProductAntiCommutes(v, AddVector(u, w));
    CrossProductAddLeft(u, w, v);
    CrossProductAntiCommutes(u, v);
    CrossProductAntiCommutes(w, v);
  }

  /** A scalar factor in the right operand can be taken out of the cross product. */
  lemma {:induction false} CrossProductScaleRight(v: Vec, u: Vec, k: real)
    ensures CrossProduct(v, MultiplyScalar(u, k)) == MultiplyScalar(CrossProduct(v, u), k)
  {
    CrossProductAntiCommutes(v, MultiplyScalar(u, k));
    CrossProductScaleLeft(u, v, k);
    CrossProductAntiCommutes(u, v);
  }

  /** The component product is commutative. */
  lemma ComponentProductCommutes(v: Vec, u: Vec)
    ensures ComponentProduct(v, u) == ComponentProduct(u, v)
  {
  }

  /**
   * A vector object. `padding` exists only for memory alignment in the
   * source; no operation reads or writes it, and the frames below leave it
   * out.
   */
  class Vector {
    var x: real
    var y: real
    var z: real
    var padding: real

    /** The vector's value. */
    function Value(): (r: Vec)
      reads this
      ensures r.x == x && r.y == y && r.z == z
    {
      Vec(x, y, z)
    }

    /** The object built by `&Vector{x: x0, y: y0, z: z0}`; padding takes its zero value. */
    constructor (x0: real, y0: real, z0: real)
      ensures Value() == NewVector(x0, y0, z0)
      ensures padding == 0.0
    {
      x, y, z := x0, y0, z0;
      padding := 0.0;
    }

    /**
     * ComponentProductUpdate: multiply the receiver's components in place by
     * those of `u`. Correct even when `u` is the receiver itself, because
     * each component reads only its own counterpart.
     */
    method ComponentProductUpdate(u: Vector)
      modifies this`x, this`y, this`z
      ensures Value() == ComponentProduct(old(Value()), old(u.Value()))
      ensures u != this ==> u.Value() == old(u.Value())
      ensures padding == old(padding)
    {
      x := x * u.x;
      y := y * u.y;
      z := z * u.z;
    }

    /** Clear: make the receiver the zero vector. */
    method Clear()
      modifies this`x, this`y, this`z
      ensures Value() == NewZeroVector()
      ensures padding == old(padding)
    {
      x := 0.0;
      y := 0.0;
      z := 0.0;
    }
  }
}
