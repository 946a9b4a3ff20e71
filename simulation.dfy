/**
  The simulation state and its controls: the `state` record, reset, the three
  physics routines run on it in place, the trail update, the run/pause toggle,
  the reset button and the per-frame rule of the animation loop.
 */
module OrbitSimulation {
  import opened Bodies
  import opened Gravity
  import opened Leapfrog
  import opened Energy
  import opened Trails

  /** The three bodies a reset installs, with empty trails. */
  function InitialBodies(): (bs: seq<Body>)
    ensures |bs| == 3
    ensures forall k :: 0 <= k < |bs| ==> bs[k].m > 0.0 && bs[k].trail == []
  {
    [ Body(1.2, Vec(-0.6, 0.2), Vec(0.0, -0.42), []),
      Body(1.0, Vec(0.6, -0.1), Vec(0.0, 0.5), []),
      Body(0.8, Vec(0.0, 0.55), Vec(-0.55, 0.0), []) ]
  }

  /** What every state keeps: positive masses and trails within their bound. */
  ghost predicate BodiesValid(bs: seq<Body>) {
    PositiveMasses(bs) && TrailsBounded(bs)
  }

  /** n rounds of one leapfrog step followed by one trail update. */
  function Advance(bs: seq<Body>, n: nat, dt: real, sqrt: real -> real): seq<Body>
    requires SqrtPositive(sqrt)
  {
    if n == 0 then bs else TrailsUpdated(StepBodies(Advance(bs, n - 1, dt, sqrt), dt, sqrt))
  }

  /**
    One round of a step and a trail update keeps the number of bodies, every
    mass, positive masses and bounded trails, and ends every trail at its
    body's new position.
   */
  lemma RoundKeepsBodiesValid(bs: seq<Body>, dt: real, sqrt: real -> real)
    requires SqrtPositive(sqrt) && BodiesValid(bs)
    ensures var out := TrailsUpdated(StepBodies(bs, dt, sqrt));
      BodiesValid(out) && |out| == |bs| &&
      (forall k :: 0 <= k < |bs| ==> out[k].m == bs[k].m) &&
      (forall k :: 0 <= k < |out| ==>
        |out[k].trail| > 0 && out[k].trail[|out[k].trail| - 1] == out[k].r)
  {
    var stepped := StepBodies(bs, dt, sqrt);
    assert BodiesValid(stepped);
    TrailsUpdatedEndAtPositions(stepped);
  }

  /**
    Rounds of stepping and trail updates keep the number of bodies and every
    mass, keep every trail within MAX_TRAIL, and after at least one round every
    trail ends at its body's current position.
   */
  lemma {:induction false} AdvanceKeepsBodiesValid(bs: seq<Body>, n: nat, dt: real, sqrt: real -> real)
    requires SqrtPositive(sqrt) && BodiesValid(bs)
    ensures var out := Advance(bs, n, dt, sqrt);
      BodiesValid(out) && |out| == |bs| &&
      (forall k :: 0 <= k < |bs| ==> out[k].m == bs[k].m) &&
      (n > 0 ==> forall k :: 0 <= k < |out| ==>
        |out[k].trail| > 0 && out[k].trail[|out[k].trail| - 1] == out[k].r)
  {
    if n > 0 {
      AdvanceKeepsBodiesValid(bs, n - 1, dt, sqrt);
      RoundKeepsBodiesValid(Advance(bs, n - 1, dt, sqrt), dt, sqrt);
    }
  }

  /** The page's single simulation state. */
  class State {
    var running: bool
    var step: nat
    var dt: real
    var bodies: seq<Body>
    /** Math.sqrt, supplied from outside the model. */
    const sqrt: real -> real

    ghost predicate Valid()
      reads this
    {
      SqrtPositive(sqrt) && BodiesValid(bodies)
    }

    /** The initial record: paused, at step 0, with the slider's dt and no bodies yet. */
    constructor (initialDt: real, sqrt: real -> real)
      requires SqrtPositive(sqrt)
      ensures Valid()
      ensures !running && step == 0 && dt == initialDt && bodies == [] && this.sqrt == sqrt
    {
      running := false;
      step := 0;
      dt := initialDt;
      bodies := [];
      this.sqrt := sqrt;
    }

    /** Install the initial bodies and restart the step count; running is left as it was. */
    method Reset()
      requires Valid()
      modifies this`bodies, this`step
      ensures Valid()
      ensures bodies == InitialBodies() && step == 0
    {
      bodies := InitialBodies();
      step := 0;
    }

    /**
      One acceleration per body, in body order: body i accumulates the pull of
      every body j != i.
     */
    method ComputeAccelerations() returns (accelerations: seq<Vec>)
      requires Valid()
      ensures |accelerations| == |bodies|
      ensures accelerations == Accelerations(bodies, sqrt)
    {
      accelerations := [];
      var i := 0;
      while i < |bodies|
        invariant 0 <= i <= |bodies|
        invariant |accelerations| == i
        invariant forall k :: 0 <= k < i ==> accelerations[k] == AccelSum(bodies, k, |bodies|, sqrt)
      {
        var body := bodies[i];
        var ax := 0.0;
        var ay := 0.0;
        var j := 0;
        while j < |bodies|
          invariant 0 <= j <= |bodies|
          invariant Vec(ax, ay) == AccelSum(bodies, i, j, sqrt)
        {
          if i != j {
            var other := bodies[j];
            var dx := other.r.x - body.r.x;
            var dy := other.r.y - body.r.y;
            var distSq := DistSq(body.r, other.r);
            var invDist := 1.0 / sqrt(distSq);
            var invDist3 := invDist * invDist * invDist;
            var factor := other.m * invDist3;
            ax := ax + dx * factor;
            ay := ay + dy * factor;
          }
          j := j + 1;
        }
        accelerations := accelerations + [Vec(ax, ay)];
        i := i + 1;
      }
    }

    /**
      Half-kick in place: every velocity gains half its acceleration times dt;
      positions, masses and trails are untouched.
     */
    method KickVelocities(accelerations: seq<Vec>)
      requires Valid() && |accelerations| == |bodies|
      modifies this`bodies
      ensures Valid()
      ensures bodies == HalfKick(old(bodies), accelerations, dt)
    {
      ghost var start := bodies;
      var i := 0;
      while i < |bodies|
        invariant 0 <= i <= |bodies| == |start|
        invariant forall k :: 0 <= k < i ==> bodies[k] == KickBody(start[k], accelerations[k], dt)
        invariant forall k :: i <= k < |bodies| ==> bodies[k] == start[k]
      {
        var body := bodies[i];
        bodies := bodies[i := body.(v := Vec(body.v.x + 0.5 * accelerations[i].x * dt,
                                             body.v.y + 0.5 * accelerations[i].y * dt))];
        i := i + 1;
      }
    }

    /** Drift in place: every position moves by its velocity times dt; nothing else changes. */
    method DriftPositions()
      requires Valid()
      modifies this`bodies
      ensures Valid()
      ensures bodies == Drift(old(bodies), dt)
    {
      ghost var start := bodies;
      var i := 0;
      while i < |bodies|
        invariant 0 <= i <= |bodies| == |start|
        invariant forall k :: 0 <= k < i ==> bodies[k] == DriftBody(start[k], dt)
        invariant forall k :: i <= k < |bodies| ==> bodies[k] == start[k]
      {
        var body := bodies[i];
        bodies := bodies[i := body.(r := Vec(body.r.x + body.v.x * dt, body.r.y + body.v.y * dt))];
        i := i + 1;
      }
    }

    /**
      Kick-drift-kick in place, then count the step. The bodies become
      StepBodies of the old bodies, so a step with -dt after it restores them
      (StepReversible), and masses and trails are kept.
     */
    method LeapfrogStep()
      requires Valid()
      modifies this`bodies, this`step
      ensures Valid()
      ensures bodies == StepBodies(old(bodies), dt, sqrt)
      ensures step == old(step) + 1
    {
      var accelerations := ComputeAccelerations();
      KickVelocities(accelerations);
      DriftPositions();
      var accelerationsNext := ComputeAccelerations();
      KickVelocities(accelerationsNext);
      step := step + 1;
    }

    /** Kinetic energy of every body plus the softened potential of every unordered pair. */
    method ComputeEnergy() returns (energy: real)
      requires Valid()
      ensures energy == TotalEnergy(bodies, sqrt)
    {
      var kinetic := 0.0;
      var potential := 0.0;

      var k := 0;
      while k < |bodies|
        invariant 0 <= k <= |bodies|
        invariant kinetic == Kinetic(bodies, k)
      {
        var body := bodies[k];
        kinetic := kinetic + 0.5 * body.m * (body.v.x * body.v.x + body.v.y * body.v.y);
        k := k + 1;
      }

      var i := 0;
      while i < |bodies|
        invariant 0 <= i <= |bodies|
        invariant potential == Potential(bodies, i, sqrt)
      {
        var j := i + 1;
        while j < |bodies|
          invariant i + 1 <= j <= |bodies|
          invariant potential == Potential(bodies, i, sqrt) + RowPotential(bodies, i, j, sqrt)
        {
          var bodyA := bodies[i];
          var bodyB := bodies[j];
          potential := potential - PairPotential(bodyA, bodyB, sqrt);
          j := j + 1;
        }
        i := i + 1;
      }

      energy := kinetic + potential;
    }

    /** Every body appends its position to its trail, dropping the oldest point past MAX_TRAIL. */
    method UpdateTrails()
      requires Valid()
      modifies this`bodies
      ensures Valid()
      ensures bodies == TrailsUpdated(old(bodies))
    {
      ghost var start := bodies;
      var i := 0;
      while i < |bodies|
        invariant 0 <= i <= |bodies| == |start|
        invariant forall k :: 0 <= k < i ==> bodies[k] == start[k].(trail := TrailPush(start[k].trail, start[k].r))
        invariant forall k :: i <= k < |bodies| ==> bodies[k] == start[k]
      {
        var body := bodies[i];
        var trail := body.trail + [body.r];
        if |trail| > MAX_TRAIL {
          trail := trail[1..];
        }
        bodies := bodies[i := body.(trail := trail)];
        i := i + 1;
      }
      assert bodies == TrailsUpdated(start);
      TrailsUpdatedEndAtPositions(start);
    }

    /** The run/pause branch of one animation frame: two rounds of step and trail update when running. */
    method AnimateFrame()
      requires Valid()
      modifies this`bodies, this`step
      ensures Valid()
      ensures bodies == if running then Advance(old(bodies), 2, dt, sqrt) else old(bodies)
      ensures step == if running then old(step) + 2 else old(step)
    {
      if running {
        for i := 0 to 2
          invariant Valid()
          invariant bodies == Advance(old(bodies), i, dt, sqrt)
          invariant step == old(step) + i
        {
          LeapfrogStep();
          UpdateTrails();
        }
      }
    }

    /** The toggle button: flip between running and paused. */
    method ToggleRunning()
      modifies this`running
      ensures running == !old(running)
    {
      running := !running;
    }

    /** The reset button: reset, then pause. */
    method ResetClicked()
      requires Valid()
      modifies this`bodies, this`step, this`running
      ensures Valid()
      ensures bodies == InitialBodies() && step == 0 && !running
    {
      Reset();
      running := false;
    }
  }
}
