/**
  The force model of computeAccelerations: the direct pairwise sum of softened
  Newtonian pulls, in units where the gravitational constant is 1.
 */
module Gravity {
  import opened Bodies

  /**
    The pull of `other` on `body`, per unit mass of `body`, with the softened
    inverse-cube law: other.m * d / (|d|^2 + SOFTENING^2)^(3/2), d = other.r - body.r.
    It lies along the line joining the two bodies and is the zero vector when
    their positions coincide.
   */
  function PairAccel(body: Body, other: Body, sqrt: real -> real): (a: Vec)
    requires SqrtPositive(sqrt)
    ensures a.x * (other.r.y - body.r.y) == a.y * (other.r.x - body.r.x)
    ensures body.r == other.r ==> a == ZERO
  {
    var dx := other.r.x - body.r.x;
    var dy := other.r.y - body.r.y;
    var distSq := DistSq(body.r, other.r);
    var invDist := 1.0 / sqrt(distSq);
    var invDist3 := invDist * invDist * invDist;
    var factor := other.m * invDist3;
    Vec(dx * factor, dy * factor)
  }

  /**
    Attraction: for a nonnegative puller mass, each component of the pull has
    the sign of the separation d = other.r - body.r, so the pull points
    towards the other body.
   */
  lemma PairAccelAttracts(body: Body, other: Body, sqrt: real -> real)
    requires SqrtPositive(sqrt) && other.m >= 0.0
    ensures PairAccel(body, other, sqrt).x * (other.r.x - body.r.x) >= 0.0
    ensures PairAccel(body, other, sqrt).y * (other.r.y - body.r.y) >= 0.0
  {
    var dx := other.r.x - body.r.x;
    var dy := other.r.y - body.r.y;
    var s := sqrt(DistSq(body.r, other.r));
    assert s > 0.0;
    var invDist := 1.0 / s;
    assert invDist > 0.0;
    var invDist3 := invDist * invDist * invDist;
    assert invDist * invDist > 0.0;
    assert invDist3 > 0.0;
    var factor := other.m * invDist3;
    assert factor >= 0.0;
    assert dx * dx >= 0.0 && dy * dy >= 0.0;
    assert PairAccel(body, other, sqrt) == Vec(dx * factor, dy * factor);
    assert (dx * factor) * dx == factor * (dx * dx);
    assert (dy * factor) * dy == factor * (dy * dy);
  }

  /** A single pull reads the position of the body pulled and the mass and position of the puller. */
  lemma PairAccelReads(body: Body, other: Body, body': Body, other': Body, sqrt: real -> real)
    requires body.r == body'.r && other.r == other'.r && other.m == other'.m
    requires SqrtPositive(sqrt)
    ensures PairAccel(body, other, sqrt) == PairAccel(body', other', sqrt)
  {
  }

  /**
    The acceleration of body i accumulated over the bodies with index below j,
    in index order, skipping j == i (no self-interaction).
   */
  function AccelSum(bs: seq<Body>, i: nat, j: nat, sqrt: real -> real): Vec
    requires i < |bs| && j <= |bs|
    requires SqrtPositive(sqrt)
    decreases j
  {
    if j == 0 then ZERO
    else if j - 1 == i then AccelSum(bs, i, j - 1, sqrt)
    else Add(AccelSum(bs, i, j - 1, sqrt), PairAccel(bs[i], bs[j - 1], sqrt))
  }

  /** One acceleration per body: the net pull of all the other bodies on it. */
  function Accelerations(bs: seq<Body>, sqrt: real -> real): (acc: seq<Vec>)
    requires SqrtPositive(sqrt)
    ensures |acc| == |bs|
  {
    seq(|bs|, i requires 0 <= i < |bs| => AccelSum(bs, i, |bs|, sqrt))
  }

  /** Bodies sitting at body i's own position exert no net pull on it. */
  lemma {:induction false} AccelSumCoincidentIsZero(bs: seq<Body>, i: nat, j: nat, sqrt: real -> real)
    requires i < |bs| && j <= |bs| && SqrtPositive(sqrt)
    requires forall k :: 0 <= k < j ==> bs[k].r == bs[i].r
    ensures AccelSum(bs, i, j, sqrt) == ZERO
    decreases j
  {
    if j > 0 {
      AccelSumCoincidentIsZero(bs, i, j - 1, sqrt);
    }
  }

  /** Partial sums read only the masses and positions of the bodies. */
  lemma {:induction false} AccelSumReadsMassesAndPositions(
    bs: seq<Body>, cs: seq<Body>, i: nat, j: nat, sqrt: real -> real)
    requires SameMassesAndPositions(bs, cs)
    requires i < |bs| && j <= |bs|
    requires SqrtPositive(sqrt)
    ensures AccelSum(bs, i, j, sqrt) == AccelSum(cs, i, j, sqrt)
    decreases j
  {
    if j > 0 {
      AccelSumReadsMassesAndPositions(bs, cs, i, j - 1, sqrt);
      PairAccelReads(bs[i], bs[j - 1], cs[i], cs[j - 1], sqrt);
    }
  }

  /**
    The accelerations depend on masses and positions only, never on velocities
    or trails: two body lists that agree on those get the same accelerations.
   */
  lemma AccelerationsReadMassesAndPositions(
    bs: seq<Body>, cs: seq<Body>, sqrt: real -> real)
    requires SameMassesAndPositions(bs, cs)
    requires SqrtPositive(sqrt)
    ensures Accelerations(bs, sqrt) == Accelerations(cs, sqrt)
  {
    forall i | 0 <= i < |bs|
      ensures Accelerations(bs, sqrt)[i] == Accelerations(cs, sqrt)[i]
    {
      AccelSumReadsMassesAndPositions(bs, cs, i, |bs|, sqrt);
    }
  }

  lemma {:induction false} AccelSumIgnoresOwnMassAndVelocity(
    bs: seq<Body>, i: nat, b: Body, j: nat, sqrt: real -> real)
    requires i < |bs| && j <= |bs| && b.r == bs[i].r
    requires SqrtPositive(sqrt)
    ensures AccelSum(bs[i := b], i, j, sqrt) == AccelSum(bs, i, j, sqrt)
    decreases j
  {
    if j > 0 {
      AccelSumIgnoresOwnMassAndVelocity(bs, i, b, j - 1, sqrt);
      if j - 1 != i {
        PairAccelReads(b, bs[j - 1], bs[i], bs[j - 1], sqrt);
      }
    }
  }

  /**
    Self-exclusion: the acceleration of body i does not depend on its own mass
    or velocity; replacing body i by any body at the same position leaves it as is.
   */
  lemma OwnMassDoesNotPullItself(bs: seq<Body>, i: nat, b: Body, sqrt: real -> real)
    requires i < |bs| && b.r == bs[i].r
    requires SqrtPositive(sqrt)
    ensures Accelerations(bs[i := b], sqrt)[i] == Accelerations(bs, sqrt)[i]
  {
    AccelSumIgnoresOwnMassAndVelocity(bs, i, b, |bs|, sqrt);
  }

  /** A body alone feels no force. */
  lemma {:induction false} LoneBodyFeelsNoForce(b: Body, sqrt: real -> real)
    requires SqrtPositive(sqrt)
    ensures Accelerations([b], sqrt) == [ZERO]
  {
    assert AccelSum([b], 0, 1, sqrt) == AccelSum([b], 0, 0, sqrt);
  }

  /** Two bodies: each feels exactly the pull of the other. */
  lemma {:induction false} TwoBodyAccelerations(a: Body, b: Body, sqrt: real -> real)
    requires SqrtPositive(sqrt)
    ensures Accelerations([a, b], sqrt) == [PairAccel(a, b, sqrt), PairAccel(b, a, sqrt)]
  {
    var bs := [a, b];
    assert AccelSum(bs, 0, 2, sqrt) == Add(AccelSum(bs, 0, 1, sqrt), PairAccel(a, b, sqrt));
    assert AccelSum(bs, 0, 1, sqrt) == ZERO;
    assert AccelSum(bs, 1, 2, sqrt) == AccelSum(bs, 1, 1, sqrt);
    assert AccelSum(bs, 1, 1, sqrt) == Add(ZERO, PairAccel(b, a, sqrt));
    assert Add(ZERO, PairAccel(a, b, sqrt)) == PairAccel(a, b, sqrt);
    assert Add(ZERO, PairAccel(b, a, sqrt)) == PairAccel(b, a, sqrt);
  }

  /**
    Action and reaction: the mass-weighted pulls within a pair are opposite,
    m_a * a_ab == -(m_b * a_ba).
   */
  lemma PairPullsAreOpposite(a: Body, b: Body, sqrt: real -> real)
    requires SqrtPositive(sqrt)
    ensures a.m * PairAccel(a, b, sqrt).x == -(b.m * PairAccel(b, a, sqrt).x)
    ensures a.m * PairAccel(a, b, sqrt).y == -(b.m * PairAccel(b, a, sqrt).y)
  {
    DistSqSymmetric(a.r, b.r);
  }
}
