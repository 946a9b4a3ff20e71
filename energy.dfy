/**
  The energy diagnostic of computeEnergy: kinetic energy summed over the bodies
  plus the softened potential summed over unordered pairs i < j, each pair once.
 */
module Energy {
  import opened Bodies

  /** m * |v|^2 / 2, nonnegative for a nonnegative mass. */
  function KineticTerm(b: Body): (e: real)
    ensures b.m >= 0.0 ==> e >= 0.0
  {
    var speedSq := b.v.x * b.v.x + b.v.y * b.v.y;
    NonnegativeProduct(0.5 * b.m, speedSq);
    0.5 * b.m * speedSq
  }

  /** Kinetic energy of the first n bodies, added in index order. */
  function Kinetic(bs: seq<Body>, n: nat): real
    requires n <= |bs|
  {
    if n == 0 then 0.0 else Kinetic(bs, n - 1) + KineticTerm(bs[n - 1])
  }

  /** The magnitude m_a * m_b / dist of the softened pair potential; positive for positive masses. */
  function PairPotential(a: Body, b: Body, sqrt: real -> real): (e: real)
    requires SqrtPositive(sqrt)
    ensures a.m > 0.0 && b.m > 0.0 ==> e > 0.0
  {
    var dist := sqrt(DistSq(a.r, b.r));
    PositiveQuotient(a.m * b.m, dist);
    (a.m * b.m) / dist
  }

  /**
    Potential contributed by body i with the bodies i+1 .. j-1, each pair
    term subtracted in index order.
   */
  function RowPotential(bs: seq<Body>, i: nat, j: nat, sqrt: real -> real): real
    requires i < j <= |bs| && SqrtPositive(sqrt)
    decreases j
  {
    if j == i + 1 then 0.0
    else RowPotential(bs, i, j - 1, sqrt) - PairPotential(bs[i], bs[j - 1], sqrt)
  }

  /** Potential of all pairs whose first index is below i. */
  function Potential(bs: seq<Body>, i: nat, sqrt: real -> real): real
    requires i <= |bs| && SqrtPositive(sqrt)
  {
    if i == 0 then 0.0 else Potential(bs, i - 1, sqrt) + RowPotential(bs, i - 1, |bs|, sqrt)
  }

  /** Total mechanical energy: kinetic plus potential. */
  function TotalEnergy(bs: seq<Body>, sqrt: real -> real): real
    requires SqrtPositive(sqrt)
  {
    Kinetic(bs, |bs|) + Potential(bs, |bs|, sqrt)
  }

  ghost predicate PositiveMasses(bs: seq<Body>) {
    forall k :: 0 <= k < |bs| ==> bs[k].m > 0.0
  }

  lemma NonnegativeProduct(a: real, b: real)
    ensures a >= 0.0 && b >= 0.0 ==> a * b >= 0.0
  {
  }

  lemma PositiveQuotient(a: real, b: real)
    requires b != 0.0
    ensures a > 0.0 && b > 0.0 ==> a / b > 0.0
  {
  }

  /** With positive masses the kinetic part is nonnegative. */
  lemma {:induction false} KineticNonnegative(bs: seq<Body>, n: nat)
    requires n <= |bs| && PositiveMasses(bs)
    ensures Kinetic(bs, n) >= 0.0
  {
    if n > 0 {
      KineticNonnegative(bs, n - 1);
    }
  }

  lemma {:induction false} RowPotentialNonpositive(bs: seq<Body>, i: nat, j: nat, sqrt: real -> real)
    requires i < j <= |bs| && SqrtPositive(sqrt) && PositiveMasses(bs)
    ensures RowPotential(bs, i, j, sqrt) <= 0.0
    decreases j
  {
    if j > i + 1 {
      RowPotentialNonpositive(bs, i, j - 1, sqrt);
    }
  }

  /** With positive masses the potential part is at most zero. */
  lemma {:induction false} PotentialNonpositive(bs: seq<Body>, i: nat, sqrt: real -> real)
    requires i <= |bs| && SqrtPositive(sqrt) && PositiveMasses(bs)
    ensures Potential(bs, i, sqrt) <= 0.0
  {
    if i > 0 {
      PotentialNonpositive(bs, i - 1, sqrt);
      RowPotentialNonpositive(bs, i - 1, |bs|, sqrt);
    }
  }

  /** A lone body has no pair, so its energy is its kinetic energy. */
  lemma {:induction false} LoneBodyEnergy(b: Body, sqrt: real -> real)
    requires SqrtPositive(sqrt)
    ensures TotalEnergy([b], sqrt) == KineticTerm(b)
  {
    assert Kinetic([b], 1) == Kinetic([b], 0) + KineticTerm(b);
    assert Potential([b], 1, sqrt) == Potential([b], 0, sqrt) + RowPotential([b], 0, 1, sqrt);
  }

  /** Two bodies form one pair, counted once. */
  lemma {:induction false} TwoBodyEnergy(a: Body, b: Body, sqrt: real -> real)
    requires SqrtPositive(sqrt)
    ensures TotalEnergy([a, b], sqrt) == KineticTerm(a) + KineticTerm(b) - PairPotential(a, b, sqrt)
  {
    var bs := [a, b];
    assert Kinetic(bs, 2) == Kinetic(bs, 1) + KineticTerm(b);
    assert Kinetic(bs, 1) == Kinetic(bs, 0) + KineticTerm(a);
    assert RowPotential(bs, 0, 2, sqrt) == RowPotential(bs, 0, 1, sqrt) - PairPotential(a, b, sqrt);
    assert Potential(bs, 2, sqrt) == Potential(bs, 1, sqrt) + RowPotential(bs, 1, 2, sqrt);
    assert Potential(bs, 1, sqrt) == Potential(bs, 0, sqrt) + RowPotential(bs, 0, 2, sqrt);
  }

  /** The pair term reads the two bodies symmetrically. */
  lemma PairPotentialSymmetric(a: Body, b: Body, sqrt: real -> real)
    requires SqrtPositive(sqrt)
    ensures PairPotential(a, b, sqrt) == PairPotential(b, a, sqrt)
  {
    DistSqSymmetric(a.r, b.r);
  }

  /** The pair terms of body b with each of the first i bodies of bs, summed. */
  function ColumnPotential(bs: seq<Body>, b: Body, i: nat, sqrt: real -> real): real
    requires i <= |bs| && SqrtPositive(sqrt)
  {
    if i == 0 then 0.0 else ColumnPotential(bs, b, i - 1, sqrt) + PairPotential(bs[i - 1], b, sqrt)
  }

  lemma {:induction false} RowPotentialAppend(bs: seq<Body>, b: Body, i: nat, j: nat, sqrt: real -> real)
    requires i < j <= |bs| && SqrtPositive(sqrt)
    ensures RowPotential(bs + [b], i, j, sqrt) == RowPotential(bs, i, j, sqrt)
    decreases j
  {
    if j > i + 1 {
      RowPotentialAppend(bs, b, i, j - 1, sqrt);
      assert (bs + [b])[i] == bs[i] && (bs + [b])[j - 1] == bs[j - 1];
    }
  }

  lemma {:induction false} PotentialAppendPrefix(bs: seq<Body>, b: Body, i: nat, sqrt: real -> real)
    requires i <= |bs| && SqrtPositive(sqrt)
    ensures Potential(bs + [b], i, sqrt) == Potential(bs, i, sqrt) - ColumnPotential(bs, b, i, sqrt)
  {
    if i > 0 {
      PotentialAppendPrefix(bs, b, i - 1, sqrt);
      var cs := bs + [b];
      var n := |bs|;
      assert RowPotential(cs, i - 1, n + 1, sqrt) == RowPotential(cs, i - 1, n, sqrt) - PairPotential(bs[i - 1], b, sqrt) by {
        if n > i {
          assert cs[i - 1] == bs[i - 1] && cs[n] == b;
        } else {
          assert cs[i - 1] == bs[i - 1] && cs[n] == b;
          assert RowPotential(cs, i - 1, n, sqrt) == 0.0;
        }
      }
      if n > i - 1 + 1 {
        RowPotentialAppend(bs, b, i - 1, n, sqrt);
      }
    }
  }

  /**
    Each unordered pair is counted exactly once: a new body adds one pair term
    with every body already present and nothing else.
   */
  lemma PotentialAddsOneTermPerPair(bs: seq<Body>, b: Body, sqrt: real -> real)
    requires SqrtPositive(sqrt)
    ensures Potential(bs + [b], |bs| + 1, sqrt) == Potential(bs, |bs|, sqrt) - ColumnPotential(bs, b, |bs|, sqrt)
  {
    PotentialAppendPrefix(bs, b, |bs|, sqrt);
    var cs := bs + [b];
    assert Potential(cs, |bs| + 1, sqrt) == Potential(cs, |bs|, sqrt) + RowPotential(cs, |bs|, |bs| + 1, sqrt);
  }
}
