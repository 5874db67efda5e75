/*
 * The particle integration step of the `particle` package
 * (include/particle/particle.go), with the two error values of the `errors`
 * package (include/error/errors.go).
 *
 * A `Particle` holds four references to core vectors plus two scalars. As
 * written, Integrate and AddForce call the value-receiver operations
 * AddScaledVector, MultiplyScalar and AddVector and drop the vectors they
 * return, so the only effects of Integrate are its two ordered error returns
 * and clearing `extForce`, and AddForce has no effect at all.
 *
 * `State` is the particle's value (the values of its four vectors and its two
 * scalars); `IntegrateAsWritten` is the step on that value, and the class
 * method `Particle.Integrate` is proved to perform it. `IntegrateDescribed`
 * is a separate definition of the update the source's comments describe
 * (dx = v dt, a = F/m, dv = a dt, v' = v * damping^dt); it is NOT what
 * Integrate does.
 *
 * Scalars are `real`: IEEE-754 rounding, NaN and infinities are not modelled.
 */
module Particles {
  import Core

  /** The two sentinel errors a step can report. */
  datatype IntegrateError = ErrorIntegrateMassInfinite | ErrorIntegrateDurationNegative

  /** A Go `error` that may be nil. */
  datatype Option<T> = None | Some(value: T)

  /** The value of a particle: its four vectors and its two scalars. */
  datatype State = State(
    position: Core.Vec,
    velocity: Core.Vec,
    acceleration: Core.Vec,
    extForce: Core.Vec,
    damping: real,
    inverseMass: real)

  /** What a step reports and the state it leaves behind. */
  datatype Outcome = Outcome(err: Option<IntegrateError>, next: State)

  /**
   * The two guards of Integrate, in source order: an infinite mass
   * (inverseMass <= 0) is reported before a non-positive duration.
   */
  function CheckIntegrate(inverseMass: real, duration: real): (r: Option<IntegrateError>)
    ensures r == Some(ErrorIntegrateMassInfinite) <==> inverseMass <= 0.0
    ensures r == Some(ErrorIntegrateDurationNegative) <==> inverseMass > 0.0 && duration <= 0.0
    ensures r == None <==> inverseMass > 0.0 && duration > 0.0
  {
    if inverseMass <= 0.0 then Some(ErrorIntegrateMassInfinite)
    else if duration <= 0.0 then Some(ErrorIntegrateDurationNegative)
    else None
  }

  /**
   * Integrate as written: after the guards, the vectors computed by the
   * value-receiver calls are dropped (math.Pow's result included, which is
   * not computed here), and only the force accumulator is cleared.
   */
  function IntegrateAsWritten(s: State, duration: real): (r: Outcome)
    ensures r.err == CheckIntegrate(s.inverseMass, duration)
  {
    if s.inverseMass <= 0.0 then Outcome(Some(ErrorIntegrateMassInfinite), s)
    else if duration <= 0.0 then Outcome(Some(ErrorIntegrateDurationNegative), s)
    else
      // The vectors returned by the value-receiver calls position.AddScaledVector,
      // acceleration.AddScaledVector, velocity.AddScaledVector and
      // velocity.MultiplyScalar are dropped; only the accumulator is cleared.
      Outcome(None, s.(extForce := Core.NewZeroVector()))
  }

  /** On either error return, nothing in the particle changes. */
  lemma IntegrateErrorChangesNothing(s: State, duration: real)
    ensures IntegrateAsWritten(s, duration).err.Some? <==> s.inverseMass <= 0.0 || duration <= 0.0
    ensures IntegrateAsWritten(s, duration).err.Some? ==> IntegrateAsWritten(s, duration).next == s
  {
  }

  /**
   * A successful step leaves position, velocity, acceleration, damping and
   * inverseMass as they were and makes the force accumulator zero.
   */
  lemma IntegrateSuccessClearsForceOnly(s: State, duration: real)
    requires s.inverseMass > 0.0 && duration > 0.0
    ensures IntegrateAsWritten(s, duration).err == None
    ensures IntegrateAsWritten(s, duration).next.extForce == Core.NewZeroVector()
    ensures IntegrateAsWritten(s, duration).next.(extForce := s.extForce) == s
  {
  }

  /** Repeating a step with the same duration changes nothing more and reports the same. */
  lemma IntegrateIdempotent(s: State, duration: real)
    ensures IntegrateAsWritten(IntegrateAsWritten(s, duration).next, duration) == IntegrateAsWritten(s, duration)
  {
  }

  /** After a successful step, a further step of any duration leaves the state as it is. */
  lemma IntegrateAfterSuccessIsFixed(s: State, duration: real, later: real)
    requires IntegrateAsWritten(s, duration).err == None
    ensures IntegrateAsWritten(IntegrateAsWritten(s, duration).next, later).next == IntegrateAsWritten(s, duration).next
  {
  }

  /**
   * The driver outside this package steps a particle once per tick; this is
   * that loop on the particle's value, one step as written per duration, with
   * any reported error ignored.
   */
  function RunTicks(s: State, durations: seq<real>): (r: State)
    decreases |durations|
  {
    if |durations| == 0 then s
    else RunTicks(IntegrateAsWritten(s, durations[0]).next, durations[1..])
  }

  /**
   * However many ticks are stepped, as written the particle never changes
   * except for its force accumulator, which ends either as it was or zero.
   */
  lemma {:induction false} TicksOnlyClearForce(s: State, durations: seq<real>)
    ensures RunTicks(s, durations).(extForce := s.extForce) == s
    ensures RunTicks(s, durations).extForce == s.extForce || RunTicks(s, durations).extForce == Core.NewZeroVector()
    decreases |durations|
  {
    if |durations| > 0 {
      var n := IntegrateAsWritten(s, durations[0]).next;
      TicksOnlyClearForce(n, durations[1..]);
      if RunTicks(n, durations[1..]).extForce == n.extForce {
        assert n.extForce == s.extForce || n.extForce == Core.NewZeroVector();
      }
    }
  }

  /**
   * Once a tick has succeeded, every later sequence of ticks leaves the state
   * exactly as that tick left it.
   */
  lemma {:induction false} TicksAfterSuccessAreFixed(s: State, duration: real, later: seq<real>)
    requires IntegrateAsWritten(s, duration).err == None
    ensures RunTicks(IntegrateAsWritten(s, duration).next, later) == IntegrateAsWritten(s, duration).next
    decreases |later|
  {
    if |later| > 0 {
      IntegrateAfterSuccessIsFixed(s, duration, later[0]);
      var n := IntegrateAsWritten(s, duration).next;
      assert IntegrateAsWritten(n, later[0]).next == n;
      IntegrateIdempotent(s, duration);
      TicksAfterSuccessAreFixed(s, duration, later[1..]);
    }
  }

  /**
   * The update the comments of Integrate describe, defined separately: the
   * position advances by velocity * duration, the acceleration gains
   * extForce * inverseMass, the velocity gains the new acceleration *
   * duration and is then scaled by `dampingFactor`, the value of
   * math.Pow(damping, duration), which is passed in. The guards and the
   * clearing of the force are those of Integrate.
   */
  function IntegrateDescribed(s: State, duration: real, dampingFactor: real): (r: Outcome)
    ensures r.err == CheckIntegrate(s.inverseMass, duration)
    ensures r.err.Some? ==> r.next == s
  {
    if s.inverseMass <= 0.0 then Outcome(Some(ErrorIntegrateMassInfinite), s)
    else if duration <= 0.0 then Outcome(Some(ErrorIntegrateDurationNegative), s)
    else
      var position := Core.AddScaledVector(s.position, s.velocity, duration);
      var acceleration := Core.AddScaledVector(s.acceleration, s.extForce, s.inverseMass);
      var velocity := Core.MultiplyScalar(Core.AddScaledVector(s.velocity, acceleration, duration), dampingFactor);
      Outcome(None, State(position, velocity, acceleration, Core.NewZeroVector(), s.damping, s.inverseMass))
  }

  /**
   * The laws of the described step: the displacement is velocity * duration
   * (dx = v dt), the change of acceleration is extForce * inverseMass
   * (a = F/m), the new velocity is the old one plus the new acceleration *
   * duration, scaled by the damping factor (dv = a dt, v' = v * damping^dt),
   * so without damping the change of velocity is the new acceleration *
   * duration, and the force is consumed.
   */
  lemma IntegrateDescribedLaws(s: State, duration: real, dampingFactor: real)
    requires s.inverseMass > 0.0 && duration > 0.0
    ensures IntegrateDescribed(s, duration, dampingFactor).err == None
    ensures var n := IntegrateDescribed(s, duration, dampingFactor).next;
      Core.SubtractVector(n.position, s.position) == Core.MultiplyScalar(s.velocity, duration)
    ensures var n := IntegrateDescribed(s, duration, dampingFactor).next;
      Core.SubtractVector(n.acceleration, s.acceleration) == Core.MultiplyScalar(s.extForce, s.inverseMass)
    ensures var n := IntegrateDescribed(s, duration, dampingFactor).next;
      n.velocity == Core.MultiplyScalar(Core.AddVector(s.velocity, Core.MultiplyScalar(n.acceleration, duration)), dampingFactor)
    ensures var n := IntegrateDescribed(s, duration, dampingFactor).next;
      dampingFactor == 1.0 ==> Core.SubtractVector(n.velocity, s.velocity) == Core.MultiplyScalar(n.acceleration, duration)
    ensures var n := IntegrateDescribed(s, duration, dampingFactor).next;
      n.extForce == Core.NewZeroVector() && n.damping == s.damping && n.inverseMass == s.inverseMass
  {
    var n := IntegrateDescribed(s, duration, dampingFactor).next;
    Core.AddScaledThenSubtract(s.position, s.velocity, duration);
    Core.AddScaledThenSubtract(s.acceleration, s.extForce, s.inverseMass);
    if dampingFactor == 1.0 {
      Core.AddScaledThenSubtract(s.velocity, n.acceleration, duration);
    }
  }

  /**
   * The step as written and the described step differ on a moving particle:
   * with velocity (1, 0, 0), unit mass and duration 1, Integrate leaves the
   * position at the origin, where the described step moves it to (1, 0, 0).
   */
  lemma IntegrateDropsDisplacement()
    ensures var s := State(Core.Vec(0.0, 0.0, 0.0), Core.Vec(1.0, 0.0, 0.0), Core.Vec(0.0, 0.0, 0.0),
                           Core.Vec(0.0, 0.0, 0.0), 1.0, 1.0);
      IntegrateAsWritten(s, 1.0).err == None &&
      IntegrateAsWritten(s, 1.0).next.position == Core.Vec(0.0, 0.0, 0.0) &&
      IntegrateDescribed(s, 1.0, 1.0).next.position == Core.Vec(1.0, 0.0, 0.0)
  {
  }

  /**
   * More generally, a successful step as written never moves the particle,
   * while the described step moves it exactly when velocity is non-zero.
   */
  lemma {:induction false} AsWrittenNeverMoves(s: State, duration: real, dampingFactor: real)
    requires s.inverseMass > 0.0 && duration > 0.0
    ensures IntegrateAsWritten(s, duration).next.position == s.position
    ensures IntegrateDescribed(s, duration, dampingFactor).next.position == s.position <==> s.velocity == Core.NewZeroVector()
  {
    var p := IntegrateDescribed(s, duration, dampingFactor).next.position;
    var d := Core.MultiplyScalar(s.velocity, duration);
    IntegrateDescribedLaws(s, duration, dampingFactor);
    assert Core.SubtractVector(p, s.position) == d;
    if s.velocity != Core.NewZeroVector() {
      var k := 1.0 / duration;
      ScaleBack(s.velocity, duration);
      assert Core.MultiplyScalar(d, k) == s.velocity;
      assert d != Core.NewZeroVector();
    }
  }

  /** Scaling by a non-zero factor and then by its reciprocal gives the vector back. */
  lemma ScaleBack(v: Core.Vec, k: real)
    requires k != 0.0
    ensures Core.MultiplyScalar(Core.MultiplyScalar(v, k), 1.0 / k) == v
  {
    var w := Core.MultiplyScalar(v, k);
    assert k * (1.0 / k) == 1.0;
    assert w.x * (1.0 / k) == v.x * (k * (1.0 / k));
    assert w.y * (1.0 / k) == v.y * (k * (1.0 / k));
    assert w.z * (1.0 / k) == v.z * (k * (1.0 / k));
  }

  /** A particle at rest, with no force and no acceleration, stays where it is under the described step. */
  lemma RestIsFixedPoint(s: State, duration: real, dampingFactor: real)
    requires s.velocity == Core.NewZeroVector() && s.acceleration == Core.NewZeroVector()
    requires s.extForce == Core.NewZeroVector()
    ensures IntegrateDescribed(s, duration, dampingFactor).next == s
  {
    if s.inverseMass > 0.0 && duration > 0.0 {
      var zero := Core.NewZeroVector();
      Core.ZeroVectorAbsorbs(s.position, duration);
      Core.ZeroVectorAbsorbs(zero, s.inverseMass);
      Core.ZeroVectorAbsorbs(zero, duration);
      Core.ZeroVectorAbsorbs(zero, dampingFactor);
    }
  }

  /**
   * Without force and acceleration, the described step keeps the
   * acceleration at zero and only scales the velocity by the damping factor.
   */
  lemma ForceFreeStepOnlyDamps(s: State, duration: real, dampingFactor: real)
    requires s.acceleration == Core.NewZeroVector() && s.extForce == Core.NewZeroVector()
    requires s.inverseMass > 0.0 && duration > 0.0
    ensures IntegrateDescribed(s, duration, dampingFactor).next.acceleration == Core.NewZeroVector()
    ensures IntegrateDescribed(s, duration, dampingFactor).next.velocity == Core.MultiplyScalar(s.velocity, dampingFactor)
  {
    var zero := Core.NewZeroVector();
    Core.ZeroVectorAbsorbs(zero, s.inverseMass);
    Core.ZeroVectorAbsorbs(s.velocity, duration);
  }

  /**
   * A particle moving at (10, 0, 0) with damping 0.5, unit mass and no force
   * or acceleration, stepped for 1 (so the damping factor math.Pow(0.5, 1)
   * is 0.5): the described update halves its velocity; as written it keeps it.
   */
  lemma DampingScenario(s: State, duration: real, dampingFactor: real)
    requires s.velocity == Core.Vec(10.0, 0.0, 0.0)
    requires s.acceleration == Core.NewZeroVector() && s.extForce == Core.NewZeroVector()
    requires s.damping == 0.5 && s.inverseMass == 1.0
    requires duration == 1.0 && dampingFactor == 0.5
    ensures IntegrateDescribed(s, duration, dampingFactor).next.velocity == Core.Vec(5.0, 0.0, 0.0)
    ensures IntegrateAsWritten(s, duration).next.velocity == Core.Vec(10.0, 0.0, 0.0)
  {
    ForceFreeStepOnlyDamps(s, duration, dampingFactor);
    HalveTen();
  }

  /** Half of (10, 0, 0). */
  lemma HalveTen()
    ensures Core.MultiplyScalar(Core.Vec(10.0, 0.0, 0.0), 0.5) == Core.Vec(5.0, 0.0, 0.0)
  {
  }

  /**
   * From rest at the origin, the described step leaves the particle at the
   * origin, sets the acceleration to extForce * inverseMass and the velocity
   * to that acceleration * duration, damped.
   */
  lemma StepFromRest(s: State, duration: real, dampingFactor: real)
    requires s.position == Core.NewZeroVector() && s.velocity == Core.NewZeroVector()
    requires s.acceleration == Core.NewZeroVector()
    requires s.inverseMass > 0.0 && duration > 0.0
    ensures var n := IntegrateDescribed(s, duration, dampingFactor).next;
      n.position == Core.NewZeroVector() &&
      n.acceleration == Core.MultiplyScalar(s.extForce, s.inverseMass) &&
      n.velocity == Core.MultiplyScalar(Core.MultiplyScalar(n.acceleration, duration), dampingFactor)
  {
    var n := IntegrateDescribed(s, duration, dampingFactor).next;
    Core.ZeroVectorAbsorbs(s.position, duration);
    Core.ZeroVectorIsNeutral(s.extForce, s.inverseMass);
    Core.ZeroVectorIsNeutral(n.acceleration, duration);
  }

  /**
   * A particle at rest at the origin with unit mass and damping 1, given the
   * force (0, -10, 0) and stepped for 1 (damping factor math.Pow(1, 1) = 1):
   * under the described accumulation and update it stays at the origin (it
   * moves by its old velocity, zero), its acceleration and velocity become
   * (0, -10, 0) and the force is consumed; as written, the force never
   * arrives and the step leaves the particle as it was.
   */
  lemma GravityScenario(s: State, f: Core.Vec, duration: real, dampingFactor: real)
    requires s.position == Core.NewZeroVector() && s.velocity == Core.NewZeroVector()
    requires s.acceleration == Core.NewZeroVector() && s.extForce == Core.NewZeroVector()
    requires s.damping == 1.0 && s.inverseMass == 1.0
    requires f == Core.Vec(0.0, -10.0, 0.0) && duration == 1.0 && dampingFactor == 1.0
    ensures IntegrateDescribed(AddForceDescribed(s, f), duration, dampingFactor)
      == Outcome(None, s.(velocity := f, acceleration := f))
    ensures IntegrateAsWritten(AddForceAsWritten(s, f), duration) == Outcome(None, s)
  {
    AddForceIsLost(s, f, duration);
    var t := AddForceDescribed(s, f);
    ForceOnRestingParticle(s, f);
    StepFromRest(t, duration, dampingFactor);
    var r := IntegrateDescribed(t, duration, dampingFactor);
    ScaleByOne(f, t.inverseMass);
    ScaleByOne(r.next.acceleration, duration);
    ScaleByOne(r.next.acceleration, dampingFactor);
  }

  /** Adding a force to an empty accumulator stores exactly that force. */
  lemma ForceOnRestingParticle(s: State, f: Core.Vec)
    requires s.extForce == Core.NewZeroVector()
    ensures AddForceDescribed(s, f) == s.(extForce := f)
  {
    Core.ZeroVectorIsNeutral(f, 1.0);
  }

  /** Scaling by one changes nothing. */
  lemma ScaleByOne(v: Core.Vec, k: real)
    requires k == 1.0
    ensures Core.MultiplyScalar(v, k) == v
  {
  }

  /** AddForce as written: the sum is computed and dropped, so the state is returned as it was. */
  function AddForceAsWritten(s: State, force: Core.Vec): (r: State)
    ensures r == s
    ensures r.extForce == s.extForce
  {
    // The vector returned by extForce.AddVector(force) is dropped.
    s
  }

  /** The accumulation AddForce's name and comment describe: the force is added to extForce. */
  function AddForceDescribed(s: State, force: Core.Vec): (r: State)
    ensures Core.SubtractVector(r.extForce, force) == s.extForce
    ensures r.(extForce := s.extForce) == s
  {
    var r := s.(extForce := Core.AddVector(s.extForce, force));
    Core.AddThenSubtract(s.extForce, force);
    r
  }

  /** As written, AddForce followed by a step is just the step: the force never reaches the particle. */
  lemma AddForceIsLost(s: State, force: Core.Vec, duration: real)
    ensures IntegrateAsWritten(AddForceAsWritten(s, force), duration) == IntegrateAsWritten(s, duration)
  {
  }

  /** Under the described accumulation, two forces add up to their sum, in either order. */
  lemma AddForceAccumulates(s: State, f: Core.Vec, g: Core.Vec)
    ensures AddForceDescribed(AddForceDescribed(s, f), g) == AddForceDescribed(s, Core.AddVector(f, g))
    ensures AddForceDescribed(AddForceDescribed(s, f), g) == AddForceDescribed(AddForceDescribed(s, g), f)
  {
  }

  /**
   * A particle. Its four vectors are references to core vector objects; the
   * source does not forbid two of them being the same object.
   */
  class Particle {
    var position: Core.Vector
    var velocity: Core.Vector
    var acceleration: Core.Vector
    var extForce: Core.Vector
    var damping: real
    var inverseMass: real

    /** The particle built by a `Particle{...}` composite literal from the given vectors and scalars. */
    constructor (position0: Core.Vector, velocity0: Core.Vector, acceleration0: Core.Vector,
                 extForce0: Core.Vector, damping0: real, inverseMass0: real)
      ensures position == position0 && velocity == velocity0 && acceleration == acceleration0
      ensures extForce == extForce0 && damping == damping0 && inverseMass == inverseMass0
    {
      position, velocity, acceleration, extForce := position0, velocity0, acceleration0, extForce0;
      damping, inverseMass := damping0, inverseMass0;
    }

    /** The particle's value. */
    ghost function Snapshot(): (r: State)
      reads this, position, velocity, acceleration, extForce
      ensures r.extForce == extForce.Value() && r.inverseMass == inverseMass
    {
      State(position.Value(), velocity.Value(), acceleration.Value(), extForce.Value(), damping, inverseMass)
    }

    /** The force accumulator is an object of its own, shared with no other vector of the particle. */
    ghost predicate Owned()
      reads this
    {
      extForce != position && extForce != velocity && extForce != acceleration
    }

    /**
     * Integrate: the guards in order, then, as written, only the force
     * accumulator is cleared. When the accumulator is shared with another
     * vector of the particle, that vector is cleared with it.
     */
    method Integrate(duration: real) returns (err: Option<IntegrateError>)
      modifies extForce`x, extForce`y, extForce`z
      ensures err == CheckIntegrate(inverseMass, duration)
      ensures err.Some? ==> unchanged(position, velocity, acceleration, extForce)
      ensures err == None ==> extForce.Value() == Core.NewZeroVector() && extForce.padding == old(extForce.padding)
      ensures position != extForce ==> unchanged(position)
      ensures velocity != extForce ==> unchanged(velocity)
      ensures acceleration != extForce ==> unchanged(acceleration)
      ensures Owned() ==> Outcome(err, Snapshot()) == IntegrateAsWritten(old(Snapshot()), duration)
    {
      if inverseMass <= 0.0 {
        return Some(ErrorIntegrateMassInfinite);
      }
      if duration <= 0.0 {
        return Some(ErrorIntegrateDurationNegative);
      }
      // The vectors returned by position.AddScaledVector,
      // acceleration.AddScaledVector, velocity.AddScaledVector and
      // velocity.MultiplyScalar are dropped; only the accumulator is cleared.
      extForce.Clear();
      return None;
    }

    /** AddForce as written: the sum with `force` is computed and dropped, so nothing changes. */
    method AddForce(force: Core.Vector)
      ensures Snapshot() == AddForceAsWritten(old(Snapshot()), force.Value())
      ensures unchanged(this, position, velocity, acceleration, extForce, force)
    {
      // The vector returned by extForce.AddVector(force) is dropped.
    }
  }
}
