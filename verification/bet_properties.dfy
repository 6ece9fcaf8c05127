/** What the calculator promises for every valid pair of estimates: each
    midpoint is the unique point that balances the discount it is named for,
    the stakes are the only fair pair whose smaller stake is 1, the labels
    follow the midpoint, and swapping the two people swaps everything that
    belongs to a person while leaving the midpoints alone. */
module BetProperties {

  import opened Wrappers
  import opened Rounding
  import opened Bets

  /** a / b == c / d exactly when the cross products agree. */
  lemma CrossMultiply(a: real, b: real, c: real, d: real)
    requires b > 0.0 && d > 0.0
    ensures a / b == c / d <==> a * d == c * b
  {
    assert a / b * (b * d) == a * d;
    assert c / d * (b * d) == c * b;
  }

  /** Between the two estimates, the linear midpoint is the one point at which
      the YES bettor (higher estimate) and the NO bettor (lower estimate) give
      up the same number of probability points. */
  lemma LinearMidpointEqualises(p1: real, p2: real, m: real)
    requires Probability(p1) && Probability(p2)
    ensures (&& Min(p1, p2) <= m <= Max(p1, p2)
             && DiscountOf(YES, Max(p1, p2), m).absolute == DiscountOf(NO, Min(p1, p2), m).absolute)
            <==> m == LinearMidpoint(p1, p2)
  {
  }

  /** Between the two estimates, the relative midpoint is the one point at
      which the YES bettor and the NO bettor give up the same fraction of
      their own belief. */
  lemma RelativeMidpointEqualises(p1: real, p2: real, m: real)
    requires Probability(p1) && Probability(p2)
    ensures (&& Min(p1, p2) <= m <= Max(p1, p2)
             && DiscountOf(YES, Max(p1, p2), m).relative == DiscountOf(NO, Min(p1, p2), m).relative)
            <==> m == RelativeMidpoint(p1, p2)
  {
    var hi, lo := Max(p1, p2), Min(p1, p2);
    if lo <= m <= hi {
      assert DiscountOf(YES, hi, m).relative == (hi - m) / hi;
      assert DiscountOf(NO, lo, m).relative == (m - lo) / (1.0 - lo);
      EqualisingEquation(hi, lo, m);
    }
  }

  /** The equal-relative-discount equation reduces to m * (1 + hi - lo) == hi,
      whose only solution is hi / (1 + hi - lo). */
  lemma EqualisingEquation(hi: real, lo: real, m: real)
    requires 0.0 < lo <= hi < 1.0
    ensures (hi - m) / hi == (m - lo) / (1.0 - lo) <==> m == hi / (1.0 + hi - lo)
  {
    CrossMultiply(hi - m, hi, m - lo, 1.0 - lo);
    assert (hi - m) * (1.0 - lo) - (m - lo) * hi == hi - m * (1.0 + hi - lo);
    var k := 1.0 + hi - lo;
    assert m * k == hi <==> m == hi / k;
  }

  /** The relative midpoint does not depend on the order of the estimates. */
  lemma RelativeMidpointSymmetric(p1: real, p2: real)
    ensures RelativeMidpoint(p1, p2) == RelativeMidpoint(p2, p1)
  {
  }

  /** The scaled stakes are the only pair of positive amounts that is fair at
      the midpoint and whose smaller amount is 1. */
  lemma StakesDetermined(p1: real, p2: real, m: real, x: real, y: real)
    requires Probability(p1) && Probability(p2) && Probability(m)
    requires x > 0.0 && y > 0.0 && Min(x, y) == 1.0
    ensures Fair(m, Labels(p1, p2), (x, y)) <==> (x, y) == Settle(p1, p2, m).amounts
  {
    if Fair(m, Labels(p1, p2), (x, y)) {
      FairUnique(m, Labels(p1, p2), (x, y), Settle(p1, p2, m).amounts);
    }
  }

  /** Two pairs of positive stakes, both fair at m for the same labels and
      both with smaller stake 1, are the same pair. */
  lemma FairUnique(m: real, labels: (Label, Label), a: (real, real), b: (real, real))
    requires Probability(m)
    requires a.0 > 0.0 && a.1 > 0.0 && Min(a.0, a.1) == 1.0 && Fair(m, labels, a)
    requires b.0 > 0.0 && b.1 > 0.0 && Min(b.0, b.1) == 1.0 && Fair(m, labels, b)
    ensures a == b
  {
    if labels.0 == YES {
      FairPairUnique(m, a.0, a.1, b.0, b.1);
    } else {
      FairPairUnique(m, a.1, a.0, b.1, b.0);
    }
  }

  /** Two positive pairs fair at the same m with the same smaller element 1
      coincide. */
  lemma FairPairUnique(m: real, yes: real, no: real, yes': real, no': real)
    requires Probability(m)
    requires yes > 0.0 && no > 0.0 && yes' > 0.0 && no' > 0.0
    requires m * no == (1.0 - m) * yes && m * no' == (1.0 - m) * yes'
    requires Min(yes, no) == 1.0 && Min(yes', no') == 1.0
    ensures yes == yes' && no == no'
  {
    if m <= 0.5 {
      // The NO side is the more likely one, so its stake is the larger.
      assert no >= yes by { assert m * no >= m * yes; }
      assert no' >= yes' by { assert m * no' >= m * yes'; }
    } else {
      // The YES side is the more likely one, so its stake is the larger.
      assert yes > no by { assert m * no > (1.0 - m) * no; }
      assert yes' > no' by { assert m * no' > (1.0 - m) * no'; }
    }
  }

  /** For both strategies, the left person bets YES exactly when their estimate
      is strictly above the midpoint, and when the estimates differ the same
      holds for the right person. Equal estimates fall to the tie rule: left
      NO, right YES. */
  lemma LabelsFollowMidpoint(a: Input, b: Input)
    requires Percentage(a) && Percentage(b)
    ensures var bet := CalcBet(a, b).value;
            var p1, p2 := a.value / 100.0, b.value / 100.0;
            && (bet.labels.0 == YES <==> p1 > bet.linear.midpoint)
            && (bet.labels.0 == YES <==> p1 > bet.relative.midpoint)
            && (p1 != p2 ==> (bet.labels.1 == YES <==> p2 > bet.linear.midpoint))
            && (p1 != p2 ==> (bet.labels.1 == YES <==> p2 > bet.relative.midpoint))
            && (p1 == p2 ==> bet.labels == (NO, YES))
  {
  }

  /** The linear strategy: the midpoint is the average (a + b) / 200 of the
      two fractions, the opposite is its complement, and both people give up
      the same number of probability points. */
  lemma LinearBalancesAbsoluteDiscounts(a: Input, b: Input)
    requires Percentage(a) && Percentage(b)
    ensures var s := CalcBet(a, b).value.linear;
            && s.midpoint * 200.0 == a.value + b.value
            && s.opposite == 1.0 - s.midpoint
            && s.left.absolute == s.right.absolute
  {
  }

  /** The relative strategy: the midpoint lies between the two fractions and
      both people give up the same fraction of their own belief. */
  lemma RelativeBalancesRelativeDiscounts(a: Input, b: Input)
    requires Percentage(a) && Percentage(b)
    ensures var s := CalcBet(a, b).value.relative;
            var p1, p2 := a.value / 100.0, b.value / 100.0;
            && Min(p1, p2) <= s.midpoint <= Max(p1, p2)
            && s.left.relative == s.right.relative
  {
    var p1, p2 := a.value / 100.0, b.value / 100.0;
    var m := RelativeMidpoint(p1, p2);
    RelativeMidpointEqualises(p1, p2, m);
    var s := CalcBet(a, b).value.relative;
    if p1 > p2 {
      assert s.left == DiscountOf(YES, Max(p1, p2), m);
      assert s.right == DiscountOf(NO, Min(p1, p2), m);
    } else if p1 < p2 {
      assert s.left == DiscountOf(NO, Min(p1, p2), m);
      assert s.right == DiscountOf(YES, Max(p1, p2), m);
    } else {
      assert s.left.absolute == 0.0 && s.right.absolute == 0.0;
    }
  }

  /** Swapping two different estimates swaps the labels, the stakes and the
      discounts of both strategies, and leaves the midpoints and the ratio
      between the stakes unchanged. */
  lemma SwapInputs(a: Input, b: Input)
    requires Percentage(a) && Percentage(b) && a.value != b.value
    ensures var bet, rev := CalcBet(a, b).value, CalcBet(b, a).value;
            && rev.labels == (bet.labels.1, bet.labels.0)
            && Swapped(bet.linear, rev.linear)
            && Swapped(bet.relative, rev.relative)
  {
  }

  /** The suite's "amounts should flip" check: the left linear stake of
      calcBet(a, b) equals the right linear stake of calcBet(b, a). It holds
      for every pair of different estimates, but for two equal estimates
      only at 50: equal estimates are labelled (NO, YES) in either order, so
      the stakes are (1 - p, p) / min(p, 1 - p) and mirror only when p is one
      half. */
  lemma AmountsFlip(a: Input, b: Input)
    requires Percentage(a) && Percentage(b)
    ensures CalcBet(a, b).value.linear.amounts.0 == CalcBet(b, a).value.linear.amounts.1
            <==> a.value != b.value || a.value == 50.0
  {
    if a.value != b.value {
      SwapInputs(a, b);
    } else {
      var p := a.value / 100.0;
      assert a == b;
      assert CalcBet(a, b).value.linear == Settle(p, p, p);
      StakesEqualAtHalf(p);
    }
  }

  /** The two stakes Settle reports are equal exactly when the midpoint is
      one half. */
  lemma StakesEqualAtHalf(p: real)
    requires Probability(p)
    ensures Settle(p, p, p).amounts.0 == Settle(p, p, p).amounts.1 <==> p == 0.5
  {
    var s := Settle(p, p, p);
    if s.amounts.0 == s.amounts.1 {
      assert s.normalized == 1.0;
    }
  }

  /** `rev` is `s` seen from the other side of the table. */
  predicate Swapped(s: Strategy, rev: Strategy)
  {
    && rev.midpoint == s.midpoint
    && rev.opposite == s.opposite
    && rev.amounts == (s.amounts.1, s.amounts.0)
    && rev.normalized == s.normalized
    && rev.left == s.right
    && rev.right == s.left
  }

  /** Two people who agree: both midpoints are their common estimate, nobody
      gives anything up, and the labels follow the tie rule. */
  lemma EqualInputs(a: Input)
    requires Percentage(a)
    ensures var bet, p := CalcBet(a, a).value, a.value / 100.0;
            && bet.labels == (NO, YES)
            && bet.linear.midpoint == p && bet.relative.midpoint == p
            && bet.linear.left == Discount(0.0, 0.0) && bet.linear.right == Discount(0.0, 0.0)
            && bet.relative.left == Discount(0.0, 0.0) && bet.relative.right == Discount(0.0, 0.0)
  {
  }

}
