/**
  The kick-drift-kick leapfrog update of leapfrogStep, as functions on the
  list of bodies: a half-kick of every velocity with the accelerations at the
  current positions, a drift of every position with the half-kicked velocity,
  and a second half-kick with the accelerations at the drifted positions.
 */
module Leapfrog {
  import opened Bodies
  import opened Gravity

  /** v <- v + a * dt / 2; nothing else of the body changes. */
  function KickBody(b: Body, a: Vec, dt: real): (k: Body)
    ensures k.m == b.m && k.r == b.r && k.trail == b.trail
  {
    b.(v := Vec(b.v.x + 0.5 * a.x * dt, b.v.y + 0.5 * a.y * dt))
  }

  /** r <- r + v * dt; nothing else of the body changes. */
  function DriftBody(b: Body, dt: real): (d: Body)
    ensures d.m == b.m && d.v == b.v && d.trail == b.trail
  {
    b.(r := Vec(b.r.x + b.v.x * dt, b.r.y + b.v.y * dt))
  }

  /** Half-kick every body with its own acceleration. */
  function HalfKick(bs: seq<Body>, acc: seq<Vec>, dt: real): (out: seq<Body>)
    requires |acc| == |bs|
    ensures SameMassesAndPositions(out, bs)
    ensures forall k :: 0 <= k < |bs| ==> out[k].trail == bs[k].trail
  {
    seq(|bs|, k requires 0 <= k < |bs| => KickBody(bs[k], acc[k], dt))
  }

  /** Drift every body with its own velocity. */
  function Drift(bs: seq<Body>, dt: real): (out: seq<Body>)
    ensures |out| == |bs|
    ensures forall k :: 0 <= k < |bs| ==> out[k].m == bs[k].m && out[k].v == bs[k].v && out[k].trail == bs[k].trail
  {
    seq(|bs|, k requires 0 <= k < |bs| => DriftBody(bs[k], dt))
  }

  /**
    One leapfrog step of size dt. It writes only positions and velocities:
    the number of bodies, every mass and every trail are kept.
   */
  function StepBodies(bs: seq<Body>, dt: real, sqrt: real -> real): (out: seq<Body>)
    requires SqrtPositive(sqrt)
    ensures |out| == |bs|
    ensures forall k :: 0 <= k < |bs| ==> out[k].m == bs[k].m && out[k].trail == bs[k].trail
  {
    var accelerations := Accelerations(bs, sqrt);
    var kicked := HalfKick(bs, accelerations, dt);
    var drifted := Drift(kicked, dt);
    var accelerationsNext := Accelerations(drifted, sqrt);
    HalfKick(drifted, accelerationsNext, dt)
  }

  /** A half-kick with -dt undoes a half-kick with dt under the same accelerations. */
  lemma HalfKickUndone(bs: seq<Body>, acc: seq<Vec>, dt: real)
    requires |acc| == |bs|
    ensures HalfKick(HalfKick(bs, acc, dt), acc, -dt) == bs
  {
    var back := HalfKick(HalfKick(bs, acc, dt), acc, -dt);
    forall k | 0 <= k < |bs| ensures back[k] == bs[k] {
      var b := bs[k];
      assert back[k].v.x == b.v.x + 0.5 * acc[k].x * dt + 0.5 * acc[k].x * (-dt);
      assert back[k].v.y == b.v.y + 0.5 * acc[k].y * dt + 0.5 * acc[k].y * (-dt);
    }
  }

  /** A drift with -dt undoes a drift with dt. */
  lemma DriftUndone(bs: seq<Body>, dt: real)
    ensures Drift(Drift(bs, dt), -dt) == bs
  {
    var back := Drift(Drift(bs, dt), -dt);
    forall k | 0 <= k < |bs| ensures back[k] == bs[k] {
      var b := bs[k];
      assert back[k].r.x == b.r.x + b.v.x * dt + b.v.x * (-dt);
      assert back[k].r.y == b.r.y + b.v.y * dt + b.v.y * (-dt);
    }
  }

  /** A half-kick moves no body and changes no mass, so the accelerations stay the same. */
  lemma HalfKickKeepsAccelerations(bs: seq<Body>, acc: seq<Vec>, dt: real, sqrt: real -> real)
    requires |acc| == |bs| && SqrtPositive(sqrt)
    ensures Accelerations(HalfKick(bs, acc, dt), sqrt) == Accelerations(bs, sqrt)
  {
    AccelerationsReadMassesAndPositions(HalfKick(bs, acc, dt), bs, sqrt);
  }

  /**
    Time reversibility over exact arithmetic: a step with dt followed by a step
    with -dt gives back every body exactly. It holds because the accelerations
    read positions and masses only, and the second half-kick of a step uses the
    accelerations at the drifted positions, which are where the reversed step
    starts.
   */
  lemma {:induction false} StepReversible(bs: seq<Body>, dt: real, sqrt: real -> real)
    requires SqrtPositive(sqrt)
    ensures StepBodies(StepBodies(bs, dt, sqrt), -dt, sqrt) == bs
  {
    var a0 := Accelerations(bs, sqrt);
    var kicked := HalfKick(bs, a0, dt);
    var drifted := Drift(kicked, dt);
    var a1 := Accelerations(drifted, sqrt);
    var stepped := HalfKick(drifted, a1, dt);
    assert stepped == StepBodies(bs, dt, sqrt);
    // The reversed step starts where the forward step ended its drift.
    HalfKickKeepsAccelerations(drifted, a1, dt, sqrt);
    assert Accelerations(stepped, sqrt) == a1;
    HalfKickUndone(drifted, a1, dt);
    assert HalfKick(stepped, a1, -dt) == drifted;
    DriftUndone(kicked, dt);
    assert Drift(drifted, -dt) == kicked;
    HalfKickKeepsAccelerations(bs, a0, dt, sqrt);
    assert Accelerations(kicked, sqrt) == a0;
    HalfKickUndone(bs, a0, dt);
  }

  /** A lone body feels no force: a step keeps its velocity and moves it by exactly v * dt. */
  lemma {:induction false} LoneBodyMovesUniformly(b: Body, dt: real, sqrt: real -> real)
    requires SqrtPositive(sqrt)
    ensures StepBodies([b], dt, sqrt) == [b.(r := Vec(b.r.x + b.v.x * dt, b.r.y + b.v.y * dt))]
  {
    LoneBodyFeelsNoForce(b, sqrt);
    var kicked := HalfKick([b], [ZERO], dt);
    assert kicked[0] == KickBody(b, ZERO, dt) == b;
    assert kicked == [b];
    var drifted := Drift(kicked, dt);
    assert drifted == [DriftBody(b, dt)];
    LoneBodyFeelsNoForce(DriftBody(b, dt), sqrt);
    assert StepBodies([b], dt, sqrt) == HalfKick(drifted, [ZERO], dt);
    assert HalfKick(drifted, [ZERO], dt)[0] == KickBody(DriftBody(b, dt), ZERO, dt) == DriftBody(b, dt);
    assert HalfKick(drifted, [ZERO], dt) == [DriftBody(b, dt)];
    assert DriftBody(b, dt) == b.(r := Vec(b.r.x + b.v.x * dt, b.r.y + b.v.y * dt));
  }
}
