/**
  The easing controller of the thermometer panel as a pure state transition:
  one timer tick moves the displayed temperature toward the target with a
  velocity bounded by MaxSpeed and a steering force bounded by MaxForce, or
  reports that the temperature has settled so that the timer can stop.

  The class in module Panel performs the same steps in place; this function
  is its specification.
*/
module Easing {
  import opened Scale

  /** `MAX_SPEED`: the largest magnitude the velocity may have. */
  const MaxSpeed: real := 4.0
  /** `MAX_FORCE`: the largest steering force applied in one tick. */
  const MaxForce: real := 0.2
  /** Below this speed and distance the temperature counts as arrived. */
  const Deadband: real := 0.1
  /** Within this distance below the target the desired speed is damped. */
  const DampingDistance: real := 15.0

  /** The physics fields of the panel. */
  datatype Motion = Motion(temperature: real, velocity: real, acceleration: real, target: real)

  /** What holds between ticks: no force is pending and the speed is within
      bounds. */
  predicate BetweenTicks(m: Motion) {
    m.acceleration == 0.0 && Abs(m.velocity) <= MaxSpeed
  }

  /** The arrival test that stops the timer. */
  predicate Settled(m: Motion) {
    Abs(m.velocity) < Deadband && Abs(m.temperature - m.target) < Deadband
  }

  /** The velocity the controller steers toward. Saturation applies only when
      the target lies more than DampingDistance ABOVE the temperature; in every
      other case the desired speed is proportional to the distance, MaxSpeed
      at DampingDistance, so a target far below gives a speed beyond MaxSpeed. */
  function Desired(temperature: real, target: real): (r: real)
    ensures target - temperature > DampingDistance ==> r == MaxSpeed
    ensures target - temperature <= DampingDistance ==>
              r * DampingDistance == (target - temperature) * MaxSpeed
    ensures r > 0.0 <==> target > temperature
    ensures r < 0.0 <==> target < temperature
    ensures -DampingDistance <= target - temperature ==> Abs(r) <= MaxSpeed
    ensures target - temperature < -DampingDistance ==> r < -MaxSpeed
  {
    if target - temperature > DampingDistance then
      (if temperature < target then 1.0 else -1.0) * MaxSpeed
    else
      (target - temperature) / DampingDistance * MaxSpeed
  }

  /** The desired velocity decreases as the temperature approaches the
      target from below, and keeps decreasing past it: a warmer temperature
      never asks for a larger velocity. */
  lemma DesiredDecreasesApproaching(t1: real, t2: real, target: real)
    requires t1 <= t2
    ensures Desired(t2, target) <= Desired(t1, target)
  {
  }

  /** One timer tick (`update`). */
  function Tick(m: Motion): (r: Motion)
    ensures r.target == m.target
    ensures Settled(m) ==> r == m
    ensures !Settled(m) ==> r.acceleration == 0.0 && Abs(r.velocity) <= MaxSpeed
    ensures !Settled(m) ==> r.temperature == m.temperature + r.velocity
  {
    if Settled(m) then m
    else
      var steer := Desired(m.temperature, m.target) - m.velocity;
      var acceleration := m.acceleration + Limit(steer, -MaxForce, MaxForce);
      var velocity := Limit(m.velocity + acceleration, -MaxSpeed, MaxSpeed);
      Motion(m.temperature + velocity, velocity, 0.0, m.target)
  }

  /** A tick keeps the between-ticks invariant. */
  lemma TickKeepsBetweenTicks(m: Motion)
    requires BetweenTicks(m)
    ensures BetweenTicks(Tick(m))
  {
  }

  /** The velocity changes by at most MaxForce per tick: the force is clamped,
      and the final clamp into [-MaxSpeed, MaxSpeed], which contains the old
      velocity, cannot move it further. */
  lemma TickVelocityChange(m: Motion)
    requires BetweenTicks(m)
    ensures Abs(Tick(m).velocity - m.velocity) <= MaxForce
  {
    if !Settled(m) {
      var force := Limit(Desired(m.temperature, m.target) - m.velocity, -MaxForce, MaxForce);
      LimitNonExpansive(m.velocity + force, -MaxSpeed, MaxSpeed, m.velocity);
    }
  }

  /** A tick steers the velocity toward the desired velocity (clamped to
      [-MaxSpeed, MaxSpeed]) and never past it: a velocity below the goal does
      not fall and does not overshoot it, and likewise from above. */
  lemma TickSteersTowardDesired(m: Motion)
    requires BetweenTicks(m)
    ensures m.velocity <= Limit(Desired(m.temperature, m.target), -MaxSpeed, MaxSpeed) ==>
              m.velocity <= Tick(m).velocity <= Limit(Desired(m.temperature, m.target), -MaxSpeed, MaxSpeed)
    ensures Limit(Desired(m.temperature, m.target), -MaxSpeed, MaxSpeed) <= m.velocity ==>
              Limit(Desired(m.temperature, m.target), -MaxSpeed, MaxSpeed) <= Tick(m).velocity <= m.velocity
  {
  }

  /** Far below the target, starting at rest or moving up, the controller
      speeds up and the temperature rises. */
  lemma TickFarBelowTargetRises(m: Motion)
    requires BetweenTicks(m) && m.velocity >= 0.0
    requires m.target - m.temperature > DampingDistance
    ensures m.velocity <= Tick(m).velocity
    ensures m.temperature <= Tick(m).temperature
  {
  }

  /** The asymmetric damping test makes no difference to the motion: with the
      target far below, the linear branch's desired speed (beyond -MaxSpeed)
      yields the same new velocity as saturating it at -MaxSpeed would. */
  lemma DampingAsymmetryImmaterial(m: Motion)
    requires BetweenTicks(m)
    requires m.target - m.temperature < -DampingDistance
    ensures Tick(m).velocity
         == Limit(m.velocity + Limit(-MaxSpeed - m.velocity, -MaxForce, MaxForce), -MaxSpeed, MaxSpeed)
  {
    var desired := Desired(m.temperature, m.target);
    var asWritten := Limit(m.velocity + Limit(desired - m.velocity, -MaxForce, MaxForce), -MaxSpeed, MaxSpeed);
    var saturated := Limit(m.velocity + Limit(-MaxSpeed - m.velocity, -MaxForce, MaxForce), -MaxSpeed, MaxSpeed);
    assert Tick(m).velocity == asWritten;
    if m.velocity - MaxForce <= -MaxSpeed {
      // both forces take the velocity to -MaxSpeed or below
      assert asWritten == -MaxSpeed;
      assert saturated == -MaxSpeed;
    } else {
      // both forces are clamped to -MaxForce
      assert Limit(desired - m.velocity, -MaxForce, MaxForce) == -MaxForce;
      assert Limit(-MaxSpeed - m.velocity, -MaxForce, MaxForce) == -MaxForce;
    }
  }

  /** A tick leaves the motion unchanged exactly when it has settled: an
      unsettled panel always moves. */
  lemma TickFixedPointIffSettled(m: Motion)
    requires BetweenTicks(m)
    ensures Tick(m) == m <==> Settled(m)
  {
  }
}
