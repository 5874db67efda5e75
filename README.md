# GoCyclone vector algebra and particle step, in Dafny

This project models the core of GoCyclone, a small Go physics library:

- the 3D vector algebra of the `core` package (`include/core/vector.go`);
- the older copy of part of that algebra in the `include` package (`include/vector.go`);
- the particle integration step of the `particle` package (`include/particle/particle.go`);
- the two error values of the `errors` package (`include/error/errors.go`).

Every `float64` is a Dafny `real`, so every identity is proved over exact arithmetic.

- `core_vector.dfy` (module `Core`):
  - The value-receiver operations become functions over the datatype `Vec`.
  - The two pointer-receiver operations become methods of the class `Vector`. These are `ComponentProductUpdate`, which multiplies the receiver's components in place, and `Clear`.
- `legacy_vector.dfy` (module `LegacyVector`):
  - The `include` package's own `Vector` type and operations.
  - Each operation is proved to agree with its `Core` counterpart, and its laws are derived from that agreement.
- `particle.dfy` (module `Particles`):
  - `State` is the value of a particle. `IntegrateAsWritten` is one step on that value.
  - The class `Particle` holds four `Core.Vector` objects, and its `Integrate` is proved to perform that step.
  - Integrate calls `AddScaledVector` and `MultiplyScalar` on value receivers and drops the vectors they return, so the code as written only does two things: it reports the two ordered errors, and it clears `extForce`.
  - AddForce likewise drops the result of `AddVector`.
  - `IntegrateDescribed` and `AddForceDescribed` define separately the update that the comments and names describe (dx = v dt, a = F/m, dv = a dt, v' = v * damping^dt, force += f). They are not what the code does; see "## Findings".

The source's own comments say that `Integrate` "calculates the next particle's position" (include/particle/particle.go:16), and they label its steps dx = vdt, a = F/m, dv = adt and v' = v * damping^duration (lines 25-28). They also say that `AddForce` "adds a new force to the total external force" (line 34). The code does neither. The class model follows the code.

## Model

| member | source | states |
|---|---|---|
| Core.NewZeroVector | include/core/vector.go:14-16 | the result has components (0, 0, 0) |
| Core.NewVector | include/core/vector.go:19-25 | the result stores exactly x, y and z |
| Core.InvertVector | include/core/vector.go:28-34 | the result is the additive inverse: adding it to v gives the zero vector |
| Core.InvertKeepsSquareSize | include/core/vector.go:27-34 | the inverted vector has the same squared size ("same size, opposite direction") |
| Core.InvertTwice | include/core/vector.go:28-34 | inversion is componentwise negation and inverting twice gives back v |
| Core.SquareSize | include/core/vector.go:42-44 | the squared size is never negative and is 0 exactly for the zero vector |
| Core.ScaledSquareSize | include/core/vector.go:42-66 | scaling by k multiplies the squared size by k * k |
| Core.NormVector | include/core/vector.go:47-57 | when the size (the square root of SquareSize) is non-zero, the result is v scaled by the positive factor 1/size and has squared size 1 |
| Core.NormGuardIsZeroVector | include/core/vector.go:47-51 | the panic guard size == 0 holds exactly for the zero vector |
| Core.MultiplyScalar | include/core/vector.go:60-66 | scaling by 1 gives v; scaling by 0 gives the zero vector |
| Core.AddVector | include/core/vector.go:69-75 | adding the zero vector gives v |
| Core.SubtractVector | include/core/vector.go:78-84 | subtracting u is adding the inverse of u |
| Core.AddThenSubtract | include/core/vector.go:69-84 | adding u and then subtracting u gives back v |
| Core.AddScaledVector | include/core/vector.go:87-93 | the result equals AddVector of v and MultiplyScalar(u, value) |
| Core.AddScaledThenSubtract | include/core/vector.go:78-93 | subtracting v from AddScaledVector(v, u, value) leaves u scaled by value |
| Core.AddScaledByZero | include/core/vector.go:87-93 | adding u scaled by 0 gives back v |
| Core.ZeroVectorAbsorbs | include/core/vector.go:60-93 | adding any multiple of the zero vector gives v; every multiple of the zero vector is zero |
| Core.ZeroVectorIsNeutral | include/core/vector.go:69-93 | adding u to the zero vector gives u; adding a multiple of u to the zero vector gives that multiple |
| Core.ComponentProduct | include/core/vector.go:96-102 | the components of the result sum to the inner product; the product with (1, 1, 1) is v |
| Core.ComponentProductCommutes | include/core/vector.go:96-102 | the component product is commutative |
| Core.InnerProduct | include/core/vector.go:112-114 | the inner product of a vector with itself is its squared size |
| Core.InnerProductCommutes | include/core/vector.go:112-114 | the inner product is commutative |
| Core.CrossProductIsOrthogonal | include/core/vector.go:116-124 | v X u has inner product 0 with both v and u |
| Core.CrossProductOfAxes | include/core/vector.go:116-124 | the order is v X u with the right-hand rule: (a, 0, 0) X (0, b, 0) = (0, 0, ab), (0, a, 0) X (0, 0, b) = (ab, 0, 0) and (0, 0, a) X (b, 0, 0) = (0, ab, 0) |
| Core.CrossProductWithSelf | include/core/vector.go:116-124 | v X v is the zero vector |
| Core.CrossProductAddLeft | include/core/vector.go:116-124 | (v + w) X u = v X u + w X u |
| Core.CrossProductScaleLeft | include/core/vector.go:116-124 | (v * k) X u = (v X u) * k |
| Core.CrossProductAddRight | include/core/vector.go:116-124 | v X (u + w) = v X u + v X w |
| Core.CrossProductScaleRight | include/core/vector.go:116-124 | v X (u * k) = (v X u) * k |
| Core.CrossProductAntiCommutes | include/core/vector.go:116-124 | v X u is the inverse of u X v |
| Core.Vector.constructor | include/core/vector.go:19-25 | the new object holds (x0, y0, z0); padding takes its zero value |
| Core.Vector.ComponentProductUpdate | include/core/vector.go:105-109 | the receiver becomes the component product of its old value and u's old value, even when u is the receiver; a distinct u and the padding are unchanged |
| Core.Vector.Clear | include/core/vector.go:133-137 | the receiver becomes (0, 0, 0); only its x, y, z change |
| LegacyVector.NewZeroVector | include/vector.go:14-16 | the result has components (0, 0, 0) and is the core zero vector |
| LegacyVector.NewVector | include/vector.go:19-25 | the result stores exactly x, y and z |
| LegacyVector.InvertVector | include/vector.go:28-34 | agrees with the core negation |
| LegacyVector.InvertTwice | include/vector.go:28-34 | negation is componentwise and inverting twice gives back v |
| LegacyVector.SquareSize | include/vector.go:42-44 | agrees with the core squared size |
| LegacyVector.SquareSizeZeroIff | include/vector.go:42-44 | the squared size is never negative and is 0 exactly for the zero vector |
| LegacyVector.NormVector | include/vector.go:47-57 | agrees with the core NormVector for a non-zero size; the result has squared size 1 |
| LegacyVector.NormGuardIsZeroVector | include/vector.go:47-51 | the panic guard size == 0 holds exactly for the zero vector |
| LegacyVector.MultiplyScalar | include/vector.go:60-66 | agrees with the core scalar multiplication |
| LegacyVector.MultiplyScalarByZeroAndOne | include/vector.go:60-66 | scaling by 0 gives the zero vector and scaling by 1 gives v |
| LegacyVector.AddVector | include/vector.go:69-75 | agrees with the core sum; u is passed by value |
| LegacyVector.SubtractVector | include/vector.go:78-84 | agrees with the core difference; u is passed by value |
| LegacyVector.AddThenSubtract | include/vector.go:69-84 | adding u and then subtracting u gives back v |
| LegacyVector.AddScaledVector | include/vector.go:87-93 | agrees with the core add-scaled; u is passed by value |
| LegacyVector.AddScaledIsAddOfScaled | include/vector.go:60-93 | add-scaled equals AddVector of the scalar multiple; with factor 0 it gives back v |
| Particles.CheckIntegrate | include/particle/particle.go:18-23 | infinite mass is reported exactly when inverseMass <= 0, so it wins over the duration check; negative duration is reported exactly when inverseMass > 0 and duration <= 0; no error exactly when both are positive |
| Particles.IntegrateAsWritten | include/particle/particle.go:17-32 | the reported error is the one the two guards select, in order |
| Particles.IntegrateErrorChangesNothing | include/particle/particle.go:17-23 | an error is returned exactly when inverseMass <= 0 or duration <= 0, and then the state is unchanged |
| Particles.IntegrateSuccessClearsForceOnly | include/particle/particle.go:25-31 | a successful step returns nil and makes extForce zero; position, velocity, acceleration, damping and inverseMass are unchanged |
| Particles.IntegrateIdempotent | include/particle/particle.go:17-32 | a second step with the same duration yields the same error and state as the first |
| Particles.IntegrateAfterSuccessIsFixed | include/particle/particle.go:29 | after a successful step, a further step of any duration leaves the state as it is |
| Particles.TicksOnlyClearForce | include/particle/particle.go:17-32 | over any sequence of steps (one per tick, errors ignored), the particle never changes except its force accumulator, which ends as it was or zero |
| Particles.TicksAfterSuccessAreFixed | include/particle/particle.go:17-32 | once a step has succeeded, every later sequence of steps leaves the state as that step left it |
| Particles.AsWrittenNeverMoves | include/particle/particle.go:25 | a successful step never moves the particle, while the described step moves it exactly when the velocity is non-zero |
| Particles.IntegrateDropsDisplacement | include/particle/particle.go:25 | for velocity (1, 0, 0), unit mass and duration 1, Integrate leaves the position at the origin, while the described step moves it to (1, 0, 0) |
| Particles.IntegrateDescribed | include/particle/particle.go:17-23 | the described step reports the same errors as Integrate and changes nothing on error |
| Particles.IntegrateDescribedLaws | include/particle/particle.go:25-29 | described step: the displacement is velocity * duration, the change of acceleration is extForce * inverseMass, the new velocity is (velocity + new acceleration * duration) scaled by dampingFactor, so without damping the change of velocity is the new acceleration * duration, and the force is consumed |
| Particles.RestIsFixedPoint | include/particle/particle.go:25-29 | under the described step, a particle with no velocity, acceleration or force stays as it is |
| Particles.ForceFreeStepOnlyDamps | include/particle/particle.go:26-28 | under the described step with no force and no acceleration, the acceleration stays zero and the velocity is only damped |
| Particles.DampingScenario | include/particle/particle.go:28 | for velocity (10, 0, 0), damping 0.5 and duration 1, the described step gives velocity (5, 0, 0); as written the velocity stays (10, 0, 0) |
| Particles.StepFromRest | include/particle/particle.go:25-29 | under the described step from rest at the origin, the position stays at the origin, the acceleration becomes extForce * inverseMass, and the velocity becomes that acceleration * duration, damped |
| Particles.GravityScenario | include/particle/particle.go:25-29 | with force (0, -10, 0) applied from rest, unit mass and duration 1, the described step gives acceleration and velocity (0, -10, 0) at the origin; as written the particle is left as it was |
| Particles.AddForceAsWritten | include/particle/particle.go:35-37 | the whole state is returned unchanged, the force accumulator included |
| Particles.AddForceIsLost | include/particle/particle.go:35-37 | as written, AddForce followed by a step is the same as the step alone |
| Particles.AddForceDescribed | include/particle/particle.go:34-37 | described accumulation: subtracting the force from the new accumulator gives the old one; nothing else changes |
| Particles.AddForceAccumulates | include/particle/particle.go:34-37 | under the described accumulation, two forces add up to their sum, in either order |
| Particles.Particle.constructor | include/particle/particle.go:11-14 | the particle holds the given vector objects and scalars |
| Particles.Particle.Integrate | include/particle/particle.go:17-32 | returns the error CheckIntegrate selects; on error no vector changes; on success extForce becomes zero and its padding is kept; any vector that is a different object from extForce is unchanged; when extForce is shared with no other vector, the particle's new value is IntegrateAsWritten of its old value |
| Particles.Particle.AddForce | include/particle/particle.go:35-37 | the particle's value after the call is AddForceAsWritten of its value before, that is the same value; no field of the particle, of its four vectors or of the force changes |

## Left out

- `Size` (include/core/vector.go:37-39 and include/vector.go:37-39) is not modelled, because `real` has no square root.
- `NormVector` instead takes the square root as a parameter `size`, constrained by `size >= 0` and `Square(size) == SquareSize(v)`.
- The panic in `NormVector` is modelled as the precondition `size != 0`.
- `MakeOrthonormalBasis` (include/core/vector.go:126-130) is not modelled. It is an unimplemented stub that returns three zero vectors and nil.
- `math.Pow(p.damping, duration)` (include/particle/particle.go:28) is not modelled, because real exponentiation has no Dafny counterpart. The code drops its result anyway, and the described step takes it as the parameter `dampingFactor`.
- IEEE-754 rounding, NaN and infinities are not modelled: every identity holds over exact reals only.
- The messages of the two `errors.New` sentinels (include/error/errors.go:5-10) are not modelled. The model keeps only the two constructors of `IntegrateError`.
- Allocation of the fresh `&Vector{...}` results is not modelled. The value-receiver operations return `Vec` values.
- Nil pointers are not modelled, because a Dafny reference of type `Core.Vector` is never null. The `*Vector` arguments of the value operations of the `core` package are `Vec` values, so a nil argument to them cannot be expressed either.
- Particles.Particle.Integrate: its four vector fields are never nil. In Go, the zero value `Particle{}` has four nil vectors, and a call on it that passes both guards panics at include/particle/particle.go:25-29. That panic is excluded.
- Particles.Particle.AddForce: its receiver's `extForce` and its `force` argument are never nil. In Go, `AddForce` on `Particle{}` and `AddForce(nil)` both panic at include/particle/particle.go:36. Those panics are excluded.
- Core.Vector.ComponentProductUpdate: its argument `u` is never nil. In Go, `ComponentProductUpdate(nil)` panics at include/core/vector.go:106. That panic is excluded.
- `Particles.Particle.Integrate` states the particle's new value as `IntegrateAsWritten` only when `extForce` is not shared with another vector of the particle. When it is shared, that vector is cleared as well, and the other postconditions say so.

## Findings

Neither row was executed.

| source | as written | input that shows it | evidently intended | confidence | as-written member | corrected member |
|---|---|---|---|---|---|---|
| include/particle/particle.go:25-28 | the vectors returned by the value-receiver calls AddScaledVector and MultiplyScalar are discarded, so Integrate never moves, accelerates or damps the particle | velocity (1, 0, 0), inverseMass 1, duration 1: the position stays (0, 0, 0) | position += velocity * duration, acceleration += extForce * inverseMass, velocity += acceleration * duration, then damped | high; not executed | Particles.IntegrateDropsDisplacement | Particles.IntegrateDescribedLaws |
| include/particle/particle.go:36 | the vector returned by the value-receiver call AddVector is discarded, so AddForce never changes the accumulator | any non-zero force: a following step behaves as if it had not been added | extForce += force | high; not executed | Particles.AddForceIsLost | Particles.AddForceAccumulates |

The class `Particle` keeps the behaviour as written, because that is what the program does. The corrected behaviour is the separate definitions `IntegrateDescribed` and `AddForceDescribed`, which are proved against the laws the comments state.
