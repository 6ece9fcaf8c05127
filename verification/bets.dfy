/** The bet calculator `calcBet(odds1, odds2)` and its relative-midpoint
    strategy `getRelativeMidpoint(p1, p2)`.

    Two people state the chance, in percent, that an event resolves YES. The
    calculator turns both into fractions, derives an agreed ("midpoint")
    probability in two ways (linear and relative), decides who bets YES and
    who bets NO, and prices the stakes so that the bet is fair at the
    midpoint. Numbers are exact reals; the IEEE doubles of the program and the
    tolerances of its checks are not modelled here. */
module Bets {

  import opened Wrappers
  import opened Rounding

  /** A number handed to `calcBet`: either NaN or an ordinary value. */
  datatype Input = NaN | Num(value: real)

  datatype Label = YES | NO

  /** How much one side gives up by accepting the midpoint instead of their
      own estimate: in probability points, and as a fraction of the chance
      they themselves give to the outcome they bet on. */
  datatype Discount = Discount(absolute: real, relative: real)

  /** Everything one midpoint strategy derives. `amounts` are the stakes of
      the left and right person, scaled so that the smaller is 1; `normalized`
      is the larger divided by the smaller. */
  datatype Strategy = Strategy(
    midpoint: real,
    opposite: real,
    amounts: (real, real),
    normalized: real,
    left: Discount,
    right: Discount)

  /** The result of a valid call: one pair of labels, shared by both
      strategies, and the two strategies. */
  datatype Bet = Bet(labels: (Label, Label), linear: Strategy, relative: Strategy)

  /** Inputs for which `calcBet` gives no result: NaN and zero. */
  predicate Rejected(x: Input)
  {
    x.NaN? || x.value == 0.0
  }

  /** A percentage strictly between 0 and 100. */
  predicate Percentage(x: Input)
  {
    x.Num? && 0.0 < x.value < 100.0
  }

  /** The inputs whose outcome the program pins down: a rejected input on
      either side, or two percentages strictly between 0 and 100. */
  predicate Pinned(a: Input, b: Input)
  {
    Rejected(a) || Rejected(b) || (Percentage(a) && Percentage(b))
  }

  predicate Probability(p: real)
  {
    0.0 < p < 1.0
  }

  function Max(x: real, y: real): real
  {
    if x >= y then x else y
  }

  function Min(x: real, y: real): real
  {
    if x <= y then x else y
  }

  /** The chance a person with estimate p gives to the outcome their side
      bets on. */
  function Belief(side: Label, p: real): real
  {
    match side
    case YES => p
    case NO => 1.0 - p
  }

  /** The consensus probability of the outcome a side bets on, which is
      that side's stake before scaling. */
  function Stake(side: Label, m: real): real
  {
    match side
    case YES => m
    case NO => 1.0 - m
  }

  /** The left person bets YES exactly when their estimate is strictly the
      larger one; otherwise the left person bets NO and the right one YES. */
  function Labels(p1: real, p2: real): (labels: (Label, Label))
    ensures labels.0 != labels.1
    ensures labels.0 == YES <==> p1 > p2
  {
    if p1 > p2 then (YES, NO) else (NO, YES)
  }

  /** The discount of a person with estimate p who bets on `side` at midpoint m. */
  function DiscountOf(side: Label, p: real, m: real): (d: Discount)
    requires Belief(side, p) != 0.0
    ensures d.absolute >= 0.0
    ensures d.absolute == 0.0 <==> p == m
    ensures d.relative * Belief(side, p) == d.absolute
  {
    var absolute := Abs(p - m);
    Discount(absolute, absolute / Belief(side, p))
  }

  /** The linear midpoint: the plain average of the two estimates. */
  function LinearMidpoint(p1: real, p2: real): (m: real)
    ensures Min(p1, p2) <= m <= Max(p1, p2)
    ensures p1 != p2 ==> Min(p1, p2) < m < Max(p1, p2)
  {
    (p1 + p2) / 2.0
  }

  /** `getRelativeMidpoint(p1, p2)`: the point at which the YES bettor (the
      higher estimate hi) and the NO bettor (the lower estimate lo) give up the
      same fraction of their own belief, (hi - m) / hi == (m - lo) / (1 - lo).
      Solving that equation for m gives the closed form below; the lemma
      RelativeMidpointEqualises shows it is the equation's only solution. */
  function RelativeMidpoint(p1: real, p2: real): (m: real)
    ensures Probability(p1) && Probability(p2) ==> Min(p1, p2) <= m <= Max(p1, p2)
    ensures Probability(p1) && Probability(p2) && p1 != p2 ==> Min(p1, p2) < m < Max(p1, p2)
  {
    var hi := Max(p1, p2);
    var lo := Min(p1, p2);
    var m := hi / (1.0 + hi - lo);
    SolutionBetween(hi, lo, m);
    m
  }

  /** The solution m of m * (1 + hi - lo) == hi lies between lo and hi, and
      strictly so when they differ. */
  lemma SolutionBetween(hi: real, lo: real, m: real)
    requires lo <= hi && m == hi / (1.0 + hi - lo)
    ensures 0.0 < lo && hi < 1.0 ==> lo <= m <= hi
    ensures 0.0 < lo && hi < 1.0 && lo < hi ==> lo < m < hi
  {
    var d := hi - lo;
    assert m * (1.0 + d) == hi;
    assert hi - m == m * d;
    assert m - lo == (hi - lo * (1.0 + d)) / (1.0 + d);
    assert hi - lo * (1.0 + d) == d * (1.0 - lo);
    if 0.0 < lo && hi < 1.0 && lo < hi {
      assert m * d > 0.0;
      assert d * (1.0 - lo) > 0.0;
    }
  }

  /** The bet is fair at m: the YES bettor's expected gain, m times the NO
      stake, equals their expected loss, (1 - m) times their own stake. */
  predicate Fair(m: real, labels: (Label, Label), amounts: (real, real))
  {
    var (yes, no) := if labels.0 == YES then (amounts.0, amounts.1) else (amounts.1, amounts.0);
    m * no == (1.0 - m) * yes
  }

  /** The post-processing both strategies share: from the midpoint m derive
      the opposite, the scaled stakes, the ratio between them and the two
      discounts. */
  function Settle(p1: real, p2: real, m: real): (s: Strategy)
    requires Probability(p1) && Probability(p2) && Probability(m)
    ensures s.midpoint == m && s.opposite == 1.0 - m
    ensures s.amounts.0 > 0.0 && s.amounts.1 > 0.0
    ensures Min(s.amounts.0, s.amounts.1) == 1.0
    ensures Fair(s.midpoint, Labels(p1, p2), s.amounts)
    ensures s.normalized == Max(s.amounts.0, s.amounts.1)
    ensures s.normalized == 1.0 <==> m == 0.5
    ensures s.left.absolute == Abs(p1 - m) && s.right.absolute == Abs(p2 - m)
    ensures s.left.relative == Abs(p1 - m) / Belief(Labels(p1, p2).0, p1)
    ensures s.right.relative == Abs(p2 - m) / Belief(Labels(p1, p2).1, p2)
  {
    var labels := Labels(p1, p2);
    var unit := Min(m, 1.0 - m);
    var amounts := (Stake(labels.0, m) / unit, Stake(labels.1, m) / unit);
    var normalized := Max(m, 1.0 - m) / unit;
    StakesFair(m, labels, unit);
    Strategy(m, 1.0 - m, amounts, normalized,
             DiscountOf(labels.0, p1, m), DiscountOf(labels.1, p2, m))
  }

  lemma StakesFair(m: real, labels: (Label, Label), unit: real)
    requires Probability(m) && labels.0 != labels.1 && unit == Min(m, 1.0 - m)
    ensures unit > 0.0
    ensures Stake(labels.0, m) / unit > 0.0 && Stake(labels.1, m) / unit > 0.0
    ensures Min(Stake(labels.0, m) / unit, Stake(labels.1, m) / unit) == 1.0
    ensures Max(m, 1.0 - m) / unit == Max(Stake(labels.0, m) / unit, Stake(labels.1, m) / unit)
    ensures Fair(m, labels, (Stake(labels.0, m) / unit, Stake(labels.1, m) / unit))
    ensures Max(m, 1.0 - m) / unit == 1.0 <==> m == 0.5
  {
    ScaledStakes(m, unit);
    if labels.0 == YES {
      assert Stake(labels.0, m) / unit == m / unit;
      assert Stake(labels.1, m) / unit == (1.0 - m) / unit;
    } else {
      assert Stake(labels.0, m) / unit == (1.0 - m) / unit;
      assert Stake(labels.1, m) / unit == m / unit;
    }
  }

  /** The two consensus probabilities divided by the smaller of them. */
  lemma ScaledStakes(m: real, unit: real)
    requires Probability(m) && unit == Min(m, 1.0 - m)
    ensures unit > 0.0
    ensures m / unit > 0.0 && (1.0 - m) / unit > 0.0
    ensures Min(m / unit, (1.0 - m) / unit) == 1.0
    ensures Max(m, 1.0 - m) / unit == Max(m / unit, (1.0 - m) / unit)
    ensures m * ((1.0 - m) / unit) == (1.0 - m) * (m / unit)
    ensures Max(m, 1.0 - m) / unit == 1.0 <==> m == 0.5
  {
    var yes := m / unit;
    var no := (1.0 - m) / unit;
    assert m * no == m * (1.0 - m) / unit;
    assert (1.0 - m) * yes == m * (1.0 - m) / unit;
    if m <= 0.5 {
      assert unit == m && yes == 1.0;
      assert no >= 1.0;
    } else {
      assert unit == 1.0 - m && no == 1.0;
      assert yes > 1.0;
    }
  }

  /** `calcBet(odds1, odds2)`: no result when either input is NaN or 0;
      otherwise both strategies, priced from the fractions odds / 100. */
  function CalcBet(a: Input, b: Input): (r: Option<Bet>)
    requires Pinned(a, b)
    ensures r.None? <==> Rejected(a) || Rejected(b)
    ensures r.Some? ==> (r.value.labels.0 == YES <==> a.value > b.value)
  {
    if Rejected(a) || Rejected(b) then None
    else
      var p1 := a.value / 100.0;
      var p2 := b.value / 100.0;
      Some(Bet(Labels(p1, p2),
               Settle(p1, p2, LinearMidpoint(p1, p2)),
               Settle(p1, p2, RelativeMidpoint(p1, p2))))
  }

}
