# Fair-bet calculator, modelled in Dafny

The application helps two people with different estimates for the same
yes/no event agree on a fair wager. Each person types a percentage. The
calculator `calcBet(odds1, odds2)` works out three things:

- who bets YES and who bets NO;
- an agreed "midpoint" probability, derived two ways: **linear**, the plain
  average, and **relative**, the point where both people give up the same
  fraction of their own belief;
- for each strategy, the stakes. These are fair at the midpoint and scaled
  so that the smaller stake is 1. Each strategy also reports the ratio
  between the stakes and, for each person, an absolute and a relative
  "discount".

The display helper `round(value, decimals)` belongs to the calculator too.
The hook `useUrlHashState` keeps the two typed strings in the URL hash as
`#<odds1>-<odds2>`.

The implementation file `app/calcBet.ts` is not part of this model. The
calculator is reconstructed from the assertions of `app/calcBet.test.ts`.
Every definition below is fixed by one of those assertions or by the data
that the display in `app/Calculation.tsx` consumes.

Files:

- `wrappers.dfy`: `Option`, used both for "no bet" and for a missing hash field.
- `rounding.dfy`: `round`, and the test runner's Jest-compatible `toBeCloseTo` as `CloseTo`.
- `bets.dfy`: the data types, the two midpoints, the shared stake and
  discount computation (`Settle`), and `CalcBet`.
- `bet_properties.dfy`: the properties that hold for all valid inputs.
- `bet_cases.dfy`: the test suite's worked examples, stated for the exact model.
- `strings.dfy`: JavaScript's one-character `replace` and `split`, with `Join`
  as the inverse of `Split`.
- `url_hash_state.dfy`: reading the hash, formatting it, and the
  compare-then-write step of `setHashValues`.

Design decisions:

- Numbers are exact `real`s. An input is `NaN` or `Num(x)`.
- The relative midpoint is defined by the closed form `hi / (1 + hi - lo)`,
  where hi is the higher estimate and lo the lower one.
  `BetProperties.RelativeMidpointEqualises` proves that, between the two
  estimates, this is the only point where the YES bettor's relative discount
  `(hi - m) / hi` equals the NO bettor's `(m - lo) / (1 - lo)`.
- A person's relative discount is divided by their belief in the side they
  bet on. That is p for the YES bettor and 1 - p for the NO bettor. The
  40-vs-60 example (app/calcBet.test.ts:182-200) expects 0.1666, which is
  0.1 / 0.6. Dividing by the person's own input would give 0.1 / 0.4 = 0.25
  for the left person.
- `normalized` is the larger stake divided by the smaller. This matches the
  display "1 : n when the midpoint is below one half, n : 1 otherwise"
  (app/Calculation.tsx:90-97).
- The test suite pins a single pair of labels, and both strategies share it.
  Because both midpoints lie between the two estimates, the labels agree
  with each strategy's "YES exactly when your estimate is above the
  midpoint" rule (`BetProperties.LabelsFollowMidpoint`).
- Rounding takes the tie rule as a parameter (`TieBreak`), because no test
  pins how an exact half is rounded. Every concrete rounding is proved for
  all tie rules.

## Model

| member | source | states |
|---|---|---|
| `Rounding.Round` | app/calcBet.test.ts:5-18 | the result is a whole number of units 10^-places and lies within half a unit of the input |
| `Rounding.RoundIsNearest` | app/calcBet.test.ts:5-18 | no whole number of units is strictly nearer to the input than the rounded value |
| `Rounding.RoundToNearby` | app/calcBet.test.ts:5-18 | an input strictly within half a unit of a grid value rounds to that value under every tie rule |
| `Rounding.TieRuleOnlyMattersAtHalf` | app/calcBet.test.ts:6-10 | away from an exact half, all tie rules give the same rounding |
| `Rounding.RoundNegation` | app/calcBet.test.ts:12-14 | away from an exact half, rounding the negation gives the negated rounding |
| `BetCases.RoundExamples` | app/calcBet.test.ts:5-18 | 3.14159265 rounds to 3.14, 3.1416 and 3 at 2, 4 and 0 places; -3.14159265 rounds to -3.14; 0 rounds to 0 |
| `Bets.CalcBet` | app/calcBet.test.ts:22-71 | there is no result exactly when either input is NaN or 0; in a result, the left person is YES exactly when their input is the larger |
| `BetCases.RejectedExamples` | app/calcBet.test.ts:22-28 | (0, 50), (50, 0), (NaN, 50), (50, NaN) and (0, 0) give no result |
| `Bets.Labels` | app/calcBet.test.ts:38-71 | the labels are complementary, and the left person is YES exactly when their estimate is strictly larger, so equal estimates give (NO, YES) |
| `Bets.DiscountOf` | app/calcBet.test.ts:182-200 | the absolute discount is non-negative and zero exactly when estimate and midpoint coincide; the relative discount times the bettor's belief in their own side equals the absolute discount |
| `Bets.LinearMidpoint` | app/calcBet.test.ts:74-77 | the linear midpoint lies between the two estimates, strictly when they differ |
| `Bets.RelativeMidpoint` | app/calcBet.test.ts:84-101 | for two probabilities, the relative midpoint lies between them, strictly when they differ |
| `Bets.SolutionBetween` | app/calcBet.test.ts:84-101 | the solution of m * (1 + hi - lo) == hi lies between two probabilities lo <= hi, strictly when they differ |
| `Bets.Settle` | app/calcBet.test.ts:38-79 | the reported midpoint is m and the opposite 1 - m; both stakes are positive; the smaller stake is exactly 1; the stakes are fair at m (the YES side's expected gain equals its expected loss); `normalized` is the larger stake, and it is 1 exactly when m is one half; each person's absolute discount is the distance from their estimate to m, and the relative one is that distance divided by their belief in their own side |
| `Bets.StakesFair` | app/calcBet.test.ts:38-79 | the stakes scaled by the smaller consensus probability are positive, have minimum 1, are fair at the midpoint, and their maximum is the ratio, which is 1 exactly at one half |
| `Bets.ScaledStakes` | app/calcBet.test.ts:38-79 | dividing m and 1 - m by the smaller of the two gives positive stakes with minimum 1 that are fair at m, and their maximum is 1 exactly at one half |
| `BetProperties.StakesDetermined` | app/calcBet.test.ts:38-79 | the reported stakes are the only positive pair that is fair at the midpoint and whose smaller stake is 1 |
| `BetProperties.FairUnique` | app/calcBet.test.ts:38-79 | two pairs of positive stakes, fair at the same midpoint for the same labels and each with smaller stake 1, are equal |
| `BetProperties.FairPairUnique` | app/calcBet.test.ts:38-79 | two positive pairs fair at the same midpoint, each with smaller element 1, coincide |
| `BetProperties.LinearMidpointEqualises` | app/calcBet.test.ts:248-252 | between the estimates, a point is the linear midpoint exactly when the YES and NO bettors' absolute discounts are equal |
| `BetProperties.RelativeMidpointEqualises` | app/calcBet.test.ts:253-257 | between the estimates, a point is the relative midpoint exactly when the YES and NO bettors' relative discounts are equal |
| `BetProperties.EqualisingEquation` | app/calcBet.test.ts:253-257 | for probabilities lo <= hi, the relative discounts (hi - m) / hi and (m - lo) / (1 - lo) are equal exactly when m is hi / (1 + hi - lo) |
| `BetProperties.CrossMultiply` | app/calcBet.test.ts:253-257 | two quotients with positive denominators are equal exactly when their cross products are |
| `BetProperties.RelativeMidpointSymmetric` | app/calcBet.test.ts:85-89 | the relative midpoint does not depend on the order of its arguments |
| `BetProperties.LabelsFollowMidpoint` | app/calcBet.test.ts:38-71 | under both strategies the left person is YES exactly when their estimate exceeds the midpoint; for different estimates the same holds for the right person; equal estimates give (NO, YES) |
| `BetProperties.LinearBalancesAbsoluteDiscounts` | app/calcBet.test.ts:248-252 | the linear midpoint is (odds1 + odds2) / 200, the opposite is its complement, and both absolute discounts are equal |
| `BetProperties.RelativeBalancesRelativeDiscounts` | app/calcBet.test.ts:253-257 | the relative midpoint lies between the two fractions and both relative discounts are equal |
| `BetProperties.SwapInputs` | app/calcBet.test.ts:259-272 | swapping two different inputs swaps the labels, stakes and discounts of both strategies and leaves midpoints, opposites and ratios unchanged |
| `BetProperties.AmountsFlip` | app/calcBet.test.ts:268-272 | the left linear stake of calcBet(a, b) equals the right linear stake of calcBet(b, a) exactly when the estimates differ or both are 50 |
| `BetProperties.StakesEqualAtHalf` | app/calcBet.test.ts:38-79 | for two equal estimates p, the two linear stakes are equal exactly when p is one half |
| `BetProperties.EqualInputs` | app/calcBet.test.ts:144-162 | equal inputs give labels (NO, YES), both midpoints equal to the common estimate, and all discounts zero |
| `BetCases.CheckStakeRow` | app/calcBet.test.ts:65-80 | a row of the stake table holds when its labels follow the comparison and each exact linear stake is within half a cent of the expected two-place value |
| `BetCases.EvenStakeRows` | app/calcBet.test.ts:38-80 | rows 60/40, 40/60, 50/50, 75/25, 99/1, 48/52 and 10/90 have the expected labels and stakes 1 : 1 after rounding to two places |
| `BetCases.StakeRows70vs20` | app/calcBet.test.ts:53-54 | 70/20 gives (YES 1, NO 1.22), and 20/70 gives (NO 1.22, YES 1) |
| `BetCases.StakeRows2vs40` | app/calcBet.test.ts:56-57 | 2/40 gives (NO 3.76, YES 1), and 40/2 gives (YES 1, NO 3.76) |
| `BetCases.StakeRows1vs5` | app/calcBet.test.ts:58-59 | 1/5 gives (NO 32.33, YES 1), and 5/1 gives (YES 1, NO 32.33) |
| `BetCases.StakeRows10vs50` | app/calcBet.test.ts:61-62 | 10/50 gives (NO 2.33, YES 1), and 50/10 gives (YES 1, NO 2.33) |
| `BetCases.EvenMidpointRow` | app/calcBet.test.ts:39-48 | 60/40 has linear midpoint 50 %, opposite 50 % and ratio exactly 1 |
| `BetCases.CheckMidpointRow` | app/calcBet.test.ts:74-75 | a row's linear midpoint in percent is close to the average of the two inputs |
| `BetCases.MidpointRows` | app/calcBet.test.ts:49-53 | the linear midpoints of 40/60, 50/50, 75/25, 99/1 and 70/20 are close to 50, 50, 50, 50 and 45 % |
| `BetCases.RelativeMidpointExamples` | app/calcBet.test.ts:84-101 | the relative midpoint of 0.99 and 0.5 is order-independent; the relative midpoints of 0.1 and 0.3, and of 0.05 and 0.4, are close to 0.25 and 0.2962 in either order |
| `BetCases.DiscountsAt` | app/calcBet.test.ts:104-236 | a strategy's discounts are the distance from each fraction to the midpoint, and that distance divided by the person's belief in their own side |
| `BetCases.DiscountRows99vs50` | app/calcBet.test.ts:105-124 | 99/50: linear midpoint 0.745 with discounts (0.245, 0.247) and (0.245, 0.49); relative midpoint 0.6644 with (0.326, 0.329) and (0.164, 0.3288) |
| `BetCases.DiscountRows50vs99` | app/calcBet.test.ts:125-143 | 50/99: the same midpoints, with left and right discounts swapped |
| `BetCases.DiscountRows50vs50` | app/calcBet.test.ts:144-162 | 50/50: both midpoints 0.5 and all discounts 0 |
| `BetCases.DiscountRows50vs70` | app/calcBet.test.ts:163-181 | 50/70: linear midpoint 0.6 with (0.1, 0.1999) and (0.1, 0.1428); relative midpoint 0.583 with (0.0833, 0.1666) and (0.1166, 0.1666) |
| `BetCases.DiscountRows40vs60` | app/calcBet.test.ts:182-200 | 40/60: both midpoints 0.5 and all discounts (0.1, 0.1666) |
| `BetCases.DiscountRows60vs40` | app/calcBet.test.ts:201-219 | 60/40: both midpoints 0.5 and all discounts (0.1, 0.1666) |
| `BetCases.AmountRows65vs99` | app/calcBet.test.ts:220-235 | 65/99 gives linear stakes close to (1, 4.5555), and 99/65 gives (4.5555, 1) |
| `Strings.FirstIndex` | app/useUrlHashState.ts:15 | the result holds the character, and nothing before it does |
| `Strings.FirstIndexUnique` | app/useUrlHashState.ts:15 | a position holding the character with none before it is the first index |
| `Strings.ReplaceFirst` | app/useUrlHashState.ts:15 | a string without the character is unchanged; otherwise the result is one shorter, and putting the character back at its first index restores the input |
| `Strings.Split` | app/useUrlHashState.ts:16 | there is at least one field, no field contains the separator, and joining the fields restores the input |
| `Strings.SplitJoin` | app/useUrlHashState.ts:16 | splitting a join of separator-free fields returns those fields |
| `Strings.SplitFirst` | app/useUrlHashState.ts:16 | for a string containing the separator, the first field is the text before its first occurrence and the remaining fields are the split of the text after it |
| `Strings.JoinStartsWithHead` | app/useUrlHashState.ts:16 | a join begins with its first field, followed by the separator or the end |
| `Strings.JoinStartsWithTwo` | app/useUrlHashState.ts:16 | a join of two or more fields begins with the first two fields and a separator between them, followed by the end or another separator |
| `Strings.SplitFirstTwo` | app/useUrlHashState.ts:16 | a string containing the separator begins with its first two fields joined by the separator, followed by the end or another separator |
| `UrlHashState.HashFields` | app/useUrlHashState.ts:14-16 | there is at least one field, no field contains '-', and joining the fields with '-' gives the hash with its first '#' removed; by `Strings.SplitJoin` these facts determine the fields uniquely |
| `UrlHashState.ReadHashFields` | app/useUrlHashState.ts:14-17 | the read values are free of '-'; without a '-' they are (rest, ''); otherwise rest starts with first + '-' + second, followed by the end or another '-'; later fields are ignored |
| `UrlHashState.StripLeadingHash` | app/useUrlHashState.ts:15 | removing the first '#' from a string that begins with '#' removes exactly that leading character |
| `UrlHashState.FormattedFields` | app/useUrlHashState.ts:14-31 | the fields of a written hash are exactly the two written values when neither contains '-' |
| `UrlHashState.OnHashChange` | app/useUrlHashState.ts:13-21 | a read leaves the hash alone and sets the held pair to what the hash says |
| `UrlHashState.MountReadReplacesDefault` | app/useUrlHashState.ts:9-20 | the read on mount discards the ('', '') default: the state after it is the same as a read from any held pair, and holds exactly what the hash says |
| `UrlHashState.SetHashValues` | app/useUrlHashState.ts:25-34 | if neither field changes, nothing happens; otherwise the hash becomes '#' + first + '-' + second and the held pair becomes exactly the written pair |
| `UrlHashState.ReadFormatRoundTrip` | app/useUrlHashState.ts:14-31 | reading a written hash returns the written pair when neither value contains '-' |
| `UrlHashState.DashSplitsValue` | app/useUrlHashState.ts:14-31 | a value containing '-' does not survive the round trip: ("1-2", "3") reads back as ("1", "2") |
| `UrlHashState.ChangesVersusRead` | app/useUrlHashState.ts:14-30 | when the hash has a second field, a write fires exactly when the read pair differs from the next pair; with no second field every write fires |
| `UrlHashState.EmptyHashStillWrites` | app/useUrlHashState.ts:27-31 | with an empty hash, writing ('', '') fires and yields "#-" |
| `UrlHashState.WrittenHashIsCurrent` | app/useUrlHashState.ts:27-31 | the written hash of a pair without '-' has exactly that pair as its compared fields, so the same write does not fire again |
| `UrlHashState.SetHashValuesIdempotent` | app/useUrlHashState.ts:25-34 | writing any pair twice is the same as writing it once, including a pair containing '-', where the second write fires again but leaves the same state |
| `UrlHashState.ReadAfterSet` | app/useUrlHashState.ts:12-34 | after writing a pair without '-', the next hash read hands out exactly that pair, whether or not the write fired |

## Left out

- `app/calcBet.ts` is not part of this model. The calculator is a
  behavioural reconstruction from the assertions of `app/calcBet.test.ts`.
  In particular, the relative strategy's stakes and ratio are not asserted
  anywhere. They are modelled with the same post-processing as the linear
  ones.
- BetProperties.SwapInputs: requires the two estimates to differ. For
  equal estimates the two calls are the same call, labelled (NO, YES), so
  the stakes cannot swap; `BetProperties.AmountsFlip` states exactly when
  the suite's "amounts should flip" check holds, which for equal estimates
  is only at 50, the one equal pair the suite contains.
- Bets.CalcBet: requires both inputs to be percentages strictly between 0
  and 100 unless one of them is rejected (NaN or 0). No test covers other
  values, such as negative numbers, 100 or above. There, double arithmetic
  can divide by zero and give Infinity or NaN, which exact reals cannot
  express.
- IEEE-754 doubles: all arithmetic is exact. `toBeCloseTo` becomes
  `CloseTo`, and assertions made to 10 digits become exact equalities.
- The relative midpoint comes from a closed form. No iterative root-finding
  is used, because the equation has an exact solution.
- Rounding.Round: the direction in which an exact half is rounded is a
  parameter, not a fixed rule, because no test pins it. Negative `decimals`
  are not modelled, because the program only uses 0 to 6.
- `getNestedValue` and `traverseTree` (app/calcBet.test.ts:280-304): test
  helpers over untyped objects.
- `app/Calculation.tsx`: React rendering, the linear/relative toggle,
  display rounding, and the string-to-number coercion `+odds1`. It only
  consumes the calculator.
- In `useUrlHashState`: `window.location`, the `hashchange` listener and its
  removal, `router.replace` and the path it prefixes, and React state
  plumbing. A write is modelled as replacing the hash string verbatim,
  without URL encoding.
- UrlHashState.ReadFormatRoundTrip: holds because the model stores the hash
  verbatim. A browser stores the fragment percent-encoded (space, `"`, `<`,
  `>`, backtick and every non-ASCII character), and reading it back returns
  the encoded form, so a typed "50 " reads back as "50%20". The lemma holds
  in the program only for values the browser leaves unencoded; URL encoding
  is not part of this model.
- UrlHashState.WrittenHashIsCurrent: for the same reason, a value the
  browser encodes makes a repeat write fire again in the program.
- UrlHashState.ReadAfterSet: for the same reason, the read after writing a
  value the browser encodes returns its encoded form.
- `app/AppInstallModal.tsx`, `app/AddToHomeScreen.tsx`, `app/layout.tsx`,
  `app/components/OddsInput.tsx`: pure UI. The `useUrlSync` hook that
  `OddsInput` imports is not part of this model.
