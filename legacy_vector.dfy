/*
 * The older vector algebra of the `include` package (include/vector.go).
 *
 * It declares its own Vector type with the same layout as the core one and a
 * subset of the same operations; every operation has a value receiver and
 * builds a new vector, and AddVector, SubtractVector and AddScaledVector take
 * their argument by value rather than by pointer. Each function below is
 * specified by its agreement with the corresponding operation of `Core`
 * through `ToCore`, and the laws the package relies on are proved from that.
 *
 * Components are `real`: IEEE-754 rounding, NaN and infinities are not
 * modelled.
 */
module LegacyVector {
  import Core

  /** The x, y, z components of a vector of the `include` package. */
  datatype Vector = Vector(x: real, y: real, z: real)

  /** The same components, seen as a core vector. */
  function ToCore(v: Vector): (r: Core.Vec)
    ensures r.x == v.x && r.y == v.y && r.z == v.z
  {
    Core.Vec(v.x, v.y, v.z)
  }

  /** Distinct legacy vectors are distinct core vectors. */
  lemma ToCoreInjective(v: Vector, u: Vector)
    ensures ToCore(v) == ToCore(u) <==> v == u
  {
  }

  /** NewZeroVector: the vector (0, 0, 0). */
  function NewZeroVector(): (r: Vector)
    ensures r.x == 0.0 && r.y == 0.0 && r.z == 0.0
    ensures ToCore(r) == Core.NewZeroVector()
  {
    NewVector(0.0, 0.0, 0.0)
  }

  /** NewVector: a vector that stores exactly the given components. */
  function NewVector(x: real, y: real, z: real): (r: Vector)
    ensures r.x == x && r.y == y && r.z == z
    ensures ToCore(r) == Core.NewVector(x, y, z)
  {
    Vector(x, y, z)
  }

  /** InvertVector: agrees with the core negation. */
  function InvertVector(v: Vector): (r: Vector)
    ensures ToCore(r) == Core.InvertVector(ToCore(v))
  {
    Vector(-v.x, -v.y, -v.z)
  }

  /** SquareSize: agrees with the core squared norm. */
  function SquareSize(v: Vector): (r: real)
    ensures r == Core.SquareSize(ToCore(v))
  {
    Core.Product(v.x, v.x) + Core.Product(v.y, v.y) + Core.Product(v.z, v.z)
  }

  /**
   * NormVector. `size` stands for the math.Sqrt result the source computes;
   * the source panics when it is 0, which is the last precondition.
   */
  function NormVector(v: Vector, size: real): (r: Vector)
    requires size >= 0.0 && Core.Square(size) == SquareSize(v)
    requires size != 0.0
    ensures ToCore(r) == Core.NormVector(ToCore(v), size)
    ensures SquareSize(r) == 1.0
  {
    Vector(v.x / size, v.y / size, v.z / size)
  }

  /** MultiplyScalar: agrees with the core scalar multiplication. */
  function MultiplyScalar(v: Vector, value: real): (r: Vector)
    ensures ToCore(r) == Core.MultiplyScalar(ToCore(v), value)
  {
    Vector(v.x * value, v.y * value, v.z * value)
  }

  /** AddVector: agrees with the core sum; `u` is passed by value. */
  function AddVector(v: Vector, u: Vector): (r: Vector)
    ensures ToCore(r) == Core.AddVector(ToCore(v), ToCore(u))
  {
    Vector(v.x + u.x, v.y + u.y, v.z + u.z)
  }

  /** SubtractVector: agrees with the core difference; `u` is passed by value. */
  function SubtractVector(v: Vector, u: Vector): (r: Vector)
    ensures ToCore(r) == Core.SubtractVector(ToCore(v), ToCore(u))
  {
    Vector(v.x - u.x, v.y - u.y, v.z - u.z)
  }

  /** AddScaledVector: agrees with the core add-scaled; `u` is passed by value. */
  function AddScaledVector(v: Vector, u: Vector, value: real): (r: Vector)
    ensures ToCore(r) == Core.AddScaledVector(ToCore(v), ToCore(u), value)
  {
    Vector(v.x + Core.Product(u.x, value), v.y + Core.Product(u.y, value), v.z + Core.Product(u.z, value))
  }

  // ---- Laws of the legacy operations, derived from the core ones ----

  /** Negation is componentwise and an involution. */
  lemma {:induction false} InvertTwice(v: Vector)
    ensures InvertVector(v) == Vector(-v.x, -v.y, -v.z)
    ensures InvertVector(InvertVector(v)) == v
  {
    Core.InvertTwice(ToCore(v));
    ToCoreInjective(InvertVector(InvertVector(v)), v);
  }

  /** The squared size is never negative and is zero exactly for the zero vector. */
  lemma SquareSizeZeroIff(v: Vector)
    ensures SquareSize(v) >= 0.0
    ensures SquareSize(v) == 0.0 <==> v == NewZeroVector()
  {
    ToCoreInjective(v, NewZeroVector());
  }

  /** NormVector's guard (a zero size) fails exactly on the zero vector. */
  lemma NormGuardIsZeroVector(v: Vector, size: real)
    requires size >= 0.0 && Core.Square(size) == SquareSize(v)
    ensures size == 0.0 <==> v == NewZeroVector()
  {
    Core.NormGuardIsZeroVector(ToCore(v), size);
    ToCoreInjective(v, NewZeroVector());
  }

  /** Adding then subtracting the same vector gives back the receiver. */
  lemma AddThenSubtract(v: Vector, u: Vector)
    ensures SubtractVector(AddVector(v, u), u) == v
  {
    Core.AddThenSubtract(ToCore(v), ToCore(u));
    ToCoreInjective(SubtractVector(AddVector(v, u), u), v);
  }

  /** Scaling by 0 gives the zero vector and scaling by 1 gives the receiver. */
  lemma MultiplyScalarByZeroAndOne(v: Vector)
    ensures MultiplyScalar(v, 0.0) == NewZeroVector()
    ensures MultiplyScalar(v, 1.0) == v
  {
    ToCoreInjective(MultiplyScalar(v, 0.0), NewZeroVector());
    ToCoreInjective(MultiplyScalar(v, 1.0), v);
  }

  /** Adding a scaled vector is adding the scalar multiple; with factor 0 nothing changes. */
  lemma AddScaledIsAddOfScaled(v: Vector, u: Vector, value: real)
    ensures AddScaledVector(v, u, value) == AddVector(v, MultiplyScalar(u, value))
    ensures AddScaledVector(v, u, 0.0) == v
  {
    ToCoreInjective(AddScaledVector(v, u, value), AddVector(v, MultiplyScalar(u, value)));
    Core.AddScaledByZero(ToCore(v), ToCore(u));
    ToCoreInjective(AddScaledVector(v, u, 0.0), v);
  }
}
