/** The worked examples of the calculator's test suite, stated for the exact
    model. The test runner's Jest-compatible `toBeCloseTo` is CloseTo;
    `round` is proved for every tie rule, since none of these values is an
    exact half. */
module BetCases {

  import opened Wrappers
  import opened Rounding
  import opened Bets
  import opened BetProperties

  lemma RoundExamples(tie: TieBreak)
    ensures Round(3.14159265, 2, tie) == 3.14
    ensures Round(3.14159265, 4, tie) == 3.1416
    ensures Round(3.14159265, 0, tie) == 3.0
    ensures Round(-3.14159265, 2, tie) == -3.14
    ensures Round(0.0, 2, tie) == 0.0
  {
    assert Pow10(2) == 100 && Pow10(4) == 10000 && Pow10(0) == 1;
    RoundToNearby(3.14159265, 2, tie, 3.14);
    RoundToNearby(3.14159265, 4, tie, 3.1416);
    RoundToNearby(3.14159265, 0, tie, 3.0);
    RoundToNearby(-3.14159265, 2, tie, -3.14);
    RoundToNearby(0.0, 2, tie, 0.0);
  }

  lemma RejectedExamples()
    ensures CalcBet(Num(0.0), Num(50.0)).None?
    ensures CalcBet(Num(50.0), Num(0.0)).None?
    ensures CalcBet(NaN, Num(50.0)).None?
    ensures CalcBet(Num(50.0), NaN).None?
    ensures CalcBet(Num(0.0), Num(0.0)).None?
  {
  }

  /** One row of the labels-and-stakes table: the labels, and each linear
      stake rounded to two places. */
  predicate StakeRow(odds1: real, odds2: real, left: (Label, real), right: (Label, real), tie: TieBreak)
    requires Percentage(Num(odds1)) && Percentage(Num(odds2))
  {
    var bet := CalcBet(Num(odds1), Num(odds2)).value;
    && bet.labels == (left.0, right.0)
    && Round(bet.linear.amounts.0, 2, tie) == left.1
    && Round(bet.linear.amounts.1, 2, tie) == right.1
  }

  /** A stake table row holds when the labels follow the comparison of the
      odds and each exact linear stake, worked out from the average m, lies
      within half a cent of the expected two-place value. */
  lemma CheckStakeRow(odds1: real, odds2: real, left: (Label, real), right: (Label, real), tie: TieBreak)
    requires Percentage(Num(odds1)) && Percentage(Num(odds2))
    requires (left.0, right.0) == if odds1 > odds2 then (YES, NO) else (NO, YES)
    requires Scaled(left.1, 2).Floor as real == Scaled(left.1, 2)
    requires Scaled(right.1, 2).Floor as real == Scaled(right.1, 2)
    requires var m := (odds1 + odds2) / 200.0;
             var unit := Min(m, 1.0 - m);
             && Abs(Scaled(Stake(left.0, m) / unit, 2) - Scaled(left.1, 2)) < 0.5
             && Abs(Scaled(Stake(right.0, m) / unit, 2) - Scaled(right.1, 2)) < 0.5
    ensures StakeRow(odds1, odds2, left, right, tie)
  {
    var p1, p2 := odds1 / 100.0, odds2 / 100.0;
    var m := LinearMidpoint(p1, p2);
    assert m == (odds1 + odds2) / 200.0;
    var bet := CalcBet(Num(odds1), Num(odds2)).value;
    assert bet.labels == (left.0, right.0);
    RoundToNearby(bet.linear.amounts.0, 2, tie, left.1);
    RoundToNearby(bet.linear.amounts.1, 2, tie, right.1);
  }

  lemma EvenStakeRows(tie: TieBreak)
    ensures StakeRow(60.0, 40.0, (YES, 1.0), (NO, 1.0), tie)
    ensures StakeRow(40.0, 60.0, (NO, 1.0), (YES, 1.0), tie)
    ensures StakeRow(50.0, 50.0, (NO, 1.0), (YES, 1.0), tie)
    ensures StakeRow(75.0, 25.0, (YES, 1.0), (NO, 1.0), tie)
    ensures StakeRow(99.0, 1.0, (YES, 1.0), (NO, 1.0), tie)
    ensures StakeRow(48.0, 52.0, (NO, 1.0), (YES, 1.0), tie)
    ensures StakeRow(10.0, 90.0, (NO, 1.0), (YES, 1.0), tie)
  {
    assert Pow10(2) == 100;
    CheckStakeRow(60.0, 40.0, (YES, 1.0), (NO, 1.0), tie);
    CheckStakeRow(40.0, 60.0, (NO, 1.0), (YES, 1.0), tie);
    CheckStakeRow(50.0, 50.0, (NO, 1.0), (YES, 1.0), tie);
    CheckStakeRow(75.0, 25.0, (YES, 1.0), (NO, 1.0), tie);
    CheckStakeRow(99.0, 1.0, (YES, 1.0), (NO, 1.0), tie);
    CheckStakeRow(48.0, 52.0, (NO, 1.0), (YES, 1.0), tie);
    CheckStakeRow(10.0, 90.0, (NO, 1.0), (YES, 1.0), tie);
  }

  lemma StakeRows70vs20(tie: TieBreak)
    ensures StakeRow(70.0, 20.0, (YES, 1.0), (NO, 1.22), tie)
    ensures StakeRow(20.0, 70.0, (NO, 1.22), (YES, 1.0), tie)
  {
    assert Pow10(2) == 100;
    CheckStakeRow(70.0, 20.0, (YES, 1.0), (NO, 1.22), tie);
    CheckStakeRow(20.0, 70.0, (NO, 1.22), (YES, 1.0), tie);
  }

  lemma StakeRows2vs40(tie: TieBreak)
    ensures StakeRow(2.0, 40.0, (NO, 3.76), (YES, 1.0), tie)
    ensures StakeRow(40.0, 2.0, (YES, 1.0), (NO, 3.76), tie)
  {
    assert Pow10(2) == 100;
    CheckStakeRow(2.0, 40.0, (NO, 3.76), (YES, 1.0), tie);
    CheckStakeRow(40.0, 2.0, (YES, 1.0), (NO, 3.76), tie);
  }

  lemma StakeRows1vs5(tie: TieBreak)
    ensures StakeRow(1.0, 5.0, (NO, 32.33), (YES, 1.0), tie)
    ensures StakeRow(5.0, 1.0, (YES, 1.0), (NO, 32.33), tie)
  {
    assert Pow10(2) == 100;
    CheckStakeRow(1.0, 5.0, (NO, 32.33), (YES, 1.0), tie);
    CheckStakeRow(5.0, 1.0, (YES, 1.0), (NO, 32.33), tie);
  }

  lemma StakeRows10vs50(tie: TieBreak)
    ensures StakeRow(10.0, 50.0, (NO, 2.33), (YES, 1.0), tie)
    ensures StakeRow(50.0, 10.0, (YES, 1.0), (NO, 2.33), tie)
  {
    assert Pow10(2) == 100;
    CheckStakeRow(10.0, 50.0, (NO, 2.33), (YES, 1.0), tie);
    CheckStakeRow(50.0, 10.0, (YES, 1.0), (NO, 2.33), tie);
  }

  /** The midpoint, opposite and ratio the first row pins, in percent. */
  lemma EvenMidpointRow()
    ensures var s := CalcBet(Num(60.0), Num(40.0)).value.linear;
            && CloseTo(s.midpoint * 100.0, 50.0, DefaultPrecision)
            && CloseTo(s.opposite * 100.0, 50.0, DefaultPrecision)
            && s.normalized == 1.0
  {
    assert Pow10(DefaultPrecision) == 100;
    LinearBalancesAbsoluteDiscounts(Num(60.0), Num(40.0));
  }

  /** The linear midpoint of calcBet(odds1, odds2), in percent, is within
      the default `toBeCloseTo` precision of `percent`. */
  predicate MidpointRow(odds1: real, odds2: real, percent: real)
    requires Percentage(Num(odds1)) && Percentage(Num(odds2))
  {
    CloseTo(CalcBet(Num(odds1), Num(odds2)).value.linear.midpoint * 100.0, percent, DefaultPrecision)
  }

  lemma CheckMidpointRow(odds1: real, odds2: real, percent: real)
    requires Percentage(Num(odds1)) && Percentage(Num(odds2))
    requires (odds1 + odds2) / 2.0 == percent
    ensures MidpointRow(odds1, odds2, percent)
  {
    LinearBalancesAbsoluteDiscounts(Num(odds1), Num(odds2));
  }

  /** The linear midpoints the table pins, in percent. */
  lemma MidpointRows()
    ensures MidpointRow(40.0, 60.0, 50.0)
    ensures MidpointRow(50.0, 50.0, 50.0)
    ensures MidpointRow(75.0, 25.0, 50.0)
    ensures MidpointRow(99.0, 1.0, 50.0)
    ensures MidpointRow(70.0, 20.0, 45.0)
  {
    CheckMidpointRow(40.0, 60.0, 50.0);
    CheckMidpointRow(50.0, 50.0, 50.0);
    CheckMidpointRow(75.0, 25.0, 50.0);
    CheckMidpointRow(99.0, 1.0, 50.0);
    CheckMidpointRow(70.0, 20.0, 45.0);
  }

  lemma RelativeMidpointExamples()
    ensures RelativeMidpoint(0.99, 0.5) == RelativeMidpoint(0.5, 0.99)
    ensures CloseTo(RelativeMidpoint(0.1, 0.3), 0.25, DefaultPrecision)
    ensures CloseTo(RelativeMidpoint(0.3, 0.1), 0.25, DefaultPrecision)
    ensures CloseTo(RelativeMidpoint(0.05, 0.4), 0.2962, DefaultPrecision)
    ensures CloseTo(RelativeMidpoint(0.4, 0.05), 0.2962, DefaultPrecision)
  {
  }

  /** A strategy's midpoint and discounts each within three places of the
      expected values. */
  predicate DiscountsClose(s: Strategy, midpoint: real, left: Discount, right: Discount)
  {
    && CloseTo(s.midpoint, midpoint, 3)
    && CloseTo(s.left.absolute, left.absolute, 3)
    && CloseTo(s.left.relative, left.relative, 3)
    && CloseTo(s.right.absolute, right.absolute, 3)
    && CloseTo(s.right.relative, right.relative, 3)
  }

  /** The discounts calcBet(odds1, odds2) reports at midpoint m, spelled out
      from the labels and the fractions odds / 100. */
  lemma DiscountsAt(odds1: real, odds2: real, m: real, s: Strategy)
    requires Percentage(Num(odds1)) && Percentage(Num(odds2))
    requires var p1, p2 := odds1 / 100.0, odds2 / 100.0;
             || (m == LinearMidpoint(p1, p2) && s == CalcBet(Num(odds1), Num(odds2)).value.linear)
             || (m == RelativeMidpoint(p1, p2) && s == CalcBet(Num(odds1), Num(odds2)).value.relative)
    ensures var p1, p2 := odds1 / 100.0, odds2 / 100.0;
            var labels := if p1 > p2 then (YES, NO) else (NO, YES);
            && s.midpoint == m
            && s.left == Discount(Abs(p1 - m), Abs(p1 - m) / Belief(labels.0, p1))
            && s.right == Discount(Abs(p2 - m), Abs(p2 - m) / Belief(labels.1, p2))
  {
  }

  lemma DiscountRows99vs50()
    ensures var bet := CalcBet(Num(99.0), Num(50.0)).value;
            && DiscountsClose(bet.linear, 0.745, Discount(0.245, 0.247), Discount(0.245, 0.49))
            && DiscountsClose(bet.relative, 0.6644, Discount(0.326, 0.329), Discount(0.164, 0.3288))
  {
    assert Pow10(3) == 1000;
    var bet := CalcBet(Num(99.0), Num(50.0)).value;
    DiscountsAt(99.0, 50.0, 0.745, bet.linear);
    assert RelativeMidpoint(0.99, 0.5) == 0.99 / 1.49;
    DiscountsAt(99.0, 50.0, 0.99 / 1.49, bet.relative);
  }

  lemma DiscountRows50vs99()
    ensures var bet := CalcBet(Num(50.0), Num(99.0)).value;
            && DiscountsClose(bet.linear, 0.745, Discount(0.245, 0.49), Discount(0.245, 0.247))
            && DiscountsClose(bet.relative, 0.6644, Discount(0.164, 0.3288), Discount(0.326, 0.329))
  {
    assert Pow10(3) == 1000;
    var bet := CalcBet(Num(50.0), Num(99.0)).value;
    DiscountsAt(50.0, 99.0, 0.745, bet.linear);
    assert RelativeMidpoint(0.5, 0.99) == 0.99 / 1.49;
    DiscountsAt(50.0, 99.0, 0.99 / 1.49, bet.relative);
  }

  lemma DiscountRows50vs50()
    ensures var bet := CalcBet(Num(50.0), Num(50.0)).value;
            && DiscountsClose(bet.linear, 0.5, Discount(0.0, 0.0), Discount(0.0, 0.0))
            && DiscountsClose(bet.relative, 0.5, Discount(0.0, 0.0), Discount(0.0, 0.0))
  {
    assert Pow10(3) == 1000;
    var bet := CalcBet(Num(50.0), Num(50.0)).value;
    DiscountsAt(50.0, 50.0, 0.5, bet.linear);
    assert RelativeMidpoint(0.5, 0.5) == 0.5;
    DiscountsAt(50.0, 50.0, 0.5, bet.relative);
  }

  lemma DiscountRows40vs60()
    ensures var bet := CalcBet(Num(40.0), Num(60.0)).value;
            && DiscountsClose(bet.linear, 0.5, Discount(0.1, 0.1666), Discount(0.1, 0.1666))
            && DiscountsClose(bet.relative, 0.5, Discount(0.1, 0.1666), Discount(0.1, 0.1666))
  {
    assert Pow10(3) == 1000;
    var bet := CalcBet(Num(40.0), Num(60.0)).value;
    DiscountsAt(40.0, 60.0, 0.5, bet.linear);
    assert RelativeMidpoint(0.4, 0.6) == 0.5;
    DiscountsAt(40.0, 60.0, 0.5, bet.relative);
  }

  lemma DiscountRows60vs40()
    ensures var bet := CalcBet(Num(60.0), Num(40.0)).value;
            && DiscountsClose(bet.linear, 0.5, Discount(0.1, 0.1666), Discount(0.1, 0.1666))
            && DiscountsClose(bet.relative, 0.5, Discount(0.1, 0.1666), Discount(0.1, 0.1666))
  {
    assert Pow10(3) == 1000;
    var bet := CalcBet(Num(60.0), Num(40.0)).value;
    DiscountsAt(60.0, 40.0, 0.5, bet.linear);
    assert RelativeMidpoint(0.6, 0.4) == 0.5;
    DiscountsAt(60.0, 40.0, 0.5, bet.relative);
  }

  lemma DiscountRows50vs70()
    ensures var bet := CalcBet(Num(50.0), Num(70.0)).value;
            && DiscountsClose(bet.linear, 0.6, Discount(0.1, 0.1999), Discount(0.1, 0.1428))
            && DiscountsClose(bet.relative, 0.583, Discount(0.0833, 0.1666), Discount(0.1166, 0.1666))
  {
    assert Pow10(3) == 1000;
    var bet := CalcBet(Num(50.0), Num(70.0)).value;
    DiscountsAt(50.0, 70.0, 0.6, bet.linear);
    assert RelativeMidpoint(0.5, 0.7) == 0.7 / 1.2;
    DiscountsAt(50.0, 70.0, 0.7 / 1.2, bet.relative);
  }

  lemma AmountRows65vs99()
    ensures var s := CalcBet(Num(65.0), Num(99.0)).value.linear;
            CloseTo(s.amounts.0, 1.0, 3) && CloseTo(s.amounts.1, 4.5555, 3)
    ensures var s := CalcBet(Num(99.0), Num(65.0)).value.linear;
            CloseTo(s.amounts.0, 4.5555, 3) && CloseTo(s.amounts.1, 1.0, 3)
  {
    assert Pow10(3) == 1000;
    assert LinearMidpoint(0.65, 0.99) == 0.82 && LinearMidpoint(0.99, 0.65) == 0.82;
    assert CalcBet(Num(65.0), Num(99.0)).value.linear.amounts == (1.0, 0.82 / 0.18);
    assert CalcBet(Num(99.0), Num(65.0)).value.linear.amounts == (0.82 / 0.18, 1.0);
  }

}
