/**
  The values the simulation is made of: planar vectors and point bodies, and
  the softened squared distance shared by the force law and the energy.
  Numbers are mathematical reals; the floating-point rounding of
  script.js is not modelled.
 */
module Bodies {

  /** A point or a vector in the plane. */
  datatype Vec = Vec(x: real, y: real)

  const ZERO: Vec := Vec(0.0, 0.0)

  function Add(a: Vec, b: Vec): Vec {
    Vec(a.x + b.x, a.y + b.y)
  }

  /** A body: its mass, position, velocity and the history of positions drawn behind it. */
  datatype Body = Body(m: real, r: Vec, v: Vec, trail: seq<Vec>)

  /** The softening length of the simulation state; it is never reassigned. */
  const SOFTENING: real := 0.02

  /** Two body lists agree on everything the force law reads: masses and positions. */
  ghost predicate SameMassesAndPositions(bs: seq<Body>, cs: seq<Body>) {
    |bs| == |cs| &&
    forall k :: 0 <= k < |bs| ==> bs[k].m == cs[k].m && bs[k].r == cs[k].r
  }

  /**
    The model's stand-in for Math.sqrt: any function that is positive on
    positive arguments. Nothing else about the square root is needed.
   */
  ghost predicate SqrtPositive(sqrt: real -> real) {
    forall x: real :: x > 0.0 ==> sqrt(x) > 0.0
  }

  /**
    Squared distance from p to q plus the squared softening length. It is
    never below SOFTENING^2, so it is positive even for coincident points
    and its square root can be divided by.
   */
  function DistSq(p: Vec, q: Vec): (d: real)
    ensures d >= SOFTENING * SOFTENING > 0.0
  {
    var dx := q.x - p.x;
    var dy := q.y - p.y;
    dx * dx + dy * dy + SOFTENING * SOFTENING
  }

  /** The softened distance does not depend on which point it is measured from. */
  lemma DistSqSymmetric(p: Vec, q: Vec)
    ensures DistSq(p, q) == DistSq(q, p)
  {
  }
}
