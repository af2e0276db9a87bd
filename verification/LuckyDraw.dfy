/** The lucky-gift draws of src/modules/luckyGift/luckyReward.engine.js over exact reals: how the
    return-to-player difference steers the odds, and how a combo reward is split into steps. */
module LuckyDraw {

  /** Math.round: to the nearest integer, halves up. */
  function Round(x: real): int {
    (x + 0.5).Floor
  }

  function MinR(x: real, y: real): real {
    if x <= y then x else y
  }

  function MaxR(x: real, y: real): real {
    if x >= y then x else y
  }

  function SumR(s: seq<real>): real {
    if s == [] then 0.0 else SumR(s[..|s| - 1]) + s[|s| - 1]
  }

  // ----- The single draw -----

  /** MISS, SMALL, EQUAL, MEDIUM, JACKPOT. */
  const MULTIPLIERS: seq<real> := [0.0, 0.5, 1.0, 2.5, 10.0]

  /** What the steps pay; a miss pays nothing. */
  datatype PayTable = PayTable(small: real, equal: real, medium: real, jackpot: real)

  datatype Weights = Weights(miss: real, small: real, equal: real, medium: real, jackpot: real) {
    function Steps(): seq<real> {
      [miss, small, equal, medium, jackpot]
    }

    function Total(): real {
      miss + small + equal + medium + jackpot
    }

    function Payout(t: PayTable): real {
      t.small * small + t.equal * equal + t.medium * medium + t.jackpot * jackpot
    }
  }

  const BASE_WEIGHTS := Weights(40.0, 30.0, 20.0, 9.0, 1.0)

  /** `getDynamicStepMultipliers`, by rtpDiff = targetRtp - currentRtp. */
  function DynamicWeights(rtpDiff: real): Weights {
    var w := BASE_WEIGHTS;
    if rtpDiff > 2.0 then
      var boost := MinR(5.0, rtpDiff);
      w.(medium := w.medium + Round(boost * 1.5) as real,
         jackpot := w.jackpot + Round(boost * 0.5) as real,
         miss := MaxR(10.0, w.miss - Round(boost * 2.0) as real))
    else if rtpDiff < -2.0 then
      var reduce := MinR(5.0, -rtpDiff);
      w.(medium := MaxR(2.0, w.medium - Round(reduce * 1.2) as real),
         jackpot := MaxR(0.1, w.jackpot - Round(reduce * 0.4) as real),
         miss := w.miss + Round(reduce * 1.6) as real)
    else w
  }

  /** The mean of what the table pays over the weights. */
  function Expected(w: Weights, t: PayTable): real
    requires w.Total() > 0.0
  {
    w.Payout(t) / w.Total()
  }

  /** The whole coins paid for a gift of this cost. */
  function Coins(cost: nat): PayTable {
    PayTable(WholeCoins(cost, MULTIPLIERS[1]) as real, WholeCoins(cost, MULTIPLIERS[2]) as real,
             WholeCoins(cost, MULTIPLIERS[3]) as real, WholeCoins(cost, MULTIPLIERS[4]) as real)
  }

  function WholeCoins(cost: nat, multiplier: real): (r: nat)
    requires multiplier >= 0.0
    ensures r as real <= cost as real * multiplier < r as real + 1.0
  {
    Times(cost as real, multiplier);
    (cost as real * multiplier).Floor
  }

  lemma RoundMonotone(x: real, y: real)
    requires x <= y
    ensures Round(x) <= Round(y)
  {
  }

  /** Steering moves every weight one way: more for the player, fewer misses and more high steps. */
  predicate Kinder(w: Weights, v: Weights) {
    v.miss <= w.miss && v.small == w.small && v.equal == w.equal && w.medium <= v.medium && w.jackpot <= v.jackpot
  }

  predicate Sane(w: Weights) {
    10.0 <= w.miss && w.small == 30.0 && w.equal == 20.0 && 2.0 <= w.medium && 0.1 <= w.jackpot <= 4.0
  }

  /** Past a difference of 2, and up to 5, every weight is moved by its factor times the difference, rounded; the
      jackpot does not fall below 0.1. Within 2 nothing is moved. */
  lemma SteersByTheDifference(rtpDiff: real)
    ensures var w := DynamicWeights(rtpDiff);
            && w.small == 30.0 && w.equal == 20.0
            && (-2.0 <= rtpDiff <= 2.0 ==> w == Weights(40.0, 30.0, 20.0, 9.0, 1.0))
            && (rtpDiff > 2.0 ==>
                var d := if rtpDiff < 5.0 then rtpDiff else 5.0;
                Near(w.medium, 9.0 + 1.5 * d) && Near(w.jackpot, 1.0 + 0.5 * d) && Near(w.miss, 40.0 - 2.0 * d))
            && (rtpDiff < -2.0 ==>
                var d := if rtpDiff > -5.0 then -rtpDiff else 5.0;
                Near(w.medium, 9.0 - 1.2 * d) && w.jackpot == 0.1 && Near(w.miss, 40.0 + 1.6 * d))
  {
  }

  /** Not more than one half apart. */
  predicate Near(x: real, y: real) {
    -0.5 <= x - y <= 0.5
  }

  lemma BoostIsKinder(x: real, y: real)
    requires 2.0 < x <= y
    ensures Sane(DynamicWeights(x)) && Kinder(DynamicWeights(x), DynamicWeights(y))
            && Kinder(BASE_WEIGHTS, DynamicWeights(x))
  {
    var a, b := MinR(5.0, x), MinR(5.0, y);
    RoundMonotone(a * 1.5, b * 1.5);
    RoundMonotone(a * 0.5, b * 0.5);
    RoundMonotone(a * 2.0, b * 2.0);
    assert Round(a * 1.5) >= 0 && 0 <= Round(a * 0.5) <= 3 && Round(a * 2.0) >= 0;
  }

  lemma ReduceIsHarsher(x: real, y: real)
    requires x <= y < -2.0
    ensures Sane(DynamicWeights(x)) && Kinder(DynamicWeights(x), DynamicWeights(y))
            && Kinder(DynamicWeights(y), BASE_WEIGHTS)
  {
    var a, b := MinR(5.0, -x), MinR(5.0, -y);
    RoundMonotone(b * 1.2, a * 1.2);
    RoundMonotone(b * 0.4, a * 0.4);
    RoundMonotone(b * 1.6, a * 1.6);
    assert Round(b * 1.2) >= 0 && Round(b * 0.4) >= 0 && Round(b * 1.6) >= 0;
    assert Round(a * 1.2) >= 0 && Round(a * 0.4) >= 0 && Round(a * 1.6) >= 0;
  }

  lemma SteeringIsMonotone(x: real, y: real)
    requires x <= y
    ensures Sane(DynamicWeights(x)) && Sane(DynamicWeights(y)) && Kinder(DynamicWeights(x), DynamicWeights(y))
  {
    if x > 2.0 {
      BoostIsKinder(x, y);
      BoostIsKinder(y, y);
    } else if y < -2.0 {
      ReduceIsHarsher(x, y);
      ReduceIsHarsher(y, y);
    } else {
      if x < -2.0 { ReduceIsHarsher(x, x); }
      if y > 2.0 { BoostIsKinder(y, y); }
    }
  }

  /** The two high steps pay well above the others. */
  predicate Steep(t: PayTable) {
    0.0 <= t.small <= t.equal && 2.0 * t.equal <= t.medium <= t.jackpot <= 10.0 * t.equal
  }

  lemma CoinsAreSteep(cost: nat)
    ensures Steep(Coins(cost))
  {
    var half, most := WholeCoins(cost, 0.5), WholeCoins(cost, 2.5);
    assert WholeCoins(cost, 1.0) == cost && WholeCoins(cost, 10.0) == 10 * cost;
    assert half as real <= cost as real;
    assert 2.0 * cost as real < most as real + 1.0;
    assert 2 * cost <= most;
  }

  /** The other steps take less from the average than a medium win adds to it. */
  lemma OthersPayLess(miss: real, jack: real, e: real, medium: real, jackpot: real)
    requires 10.0 <= miss && 0.0 <= jack <= 4.0 && 0.0 <= 2.0 * e <= medium && jackpot <= 10.0 * e
    ensures 50.0 * e + jackpot * jack <= medium * (miss + 50.0 + jack)
  {
    var rest := miss + 50.0 + jack;
    Scale(jackpot, 10.0 * e, jack);
    Scale(2.0 * e, medium, rest);
    Scale(50.0 + 10.0 * jack, 2.0 * rest, e);
    assert 10.0 * e * jack + 50.0 * e == (50.0 + 10.0 * jack) * e;
    assert 2.0 * rest * e == 2.0 * e * rest;
  }

  lemma Scale(x: real, y: real, k: real)
    requires x <= y && k >= 0.0
    ensures x * k <= y * k
  {
    Times(y - x, k);
  }

  /** A medium win pays at least the average. */
  lemma MediumIsAboveAverage(w: Weights, t: PayTable)
    requires Sane(w) && Steep(t)
    ensures 0.0 <= w.Payout(t) <= t.medium * w.Total()
  {
    OthersPayLess(w.miss, w.jackpot, t.equal, t.medium, t.jackpot);
    Times(t.medium, w.medium);
    Times(t.jackpot, w.jackpot);
    Distribute(t.medium, w.medium, w.Total());
  }

  lemma GainsOutweigh(n: real, t: real, k: real, m: real, j: real, pm: real, pj: real)
    requires 0.0 <= n <= pm * t && pm * t <= pj * t && k >= 0.0 && m >= 0.0 && j >= 0.0
    ensures (n + pm * m + pj * j) * t - n * (t - k + m + j) >= 0.0
  {
    Times(m, pm * t - n);
    Times(j, pj * t - n);
    Times(k, n);
    assert (n + pm * m + pj * j) * t - n * (t - k + m + j) == m * (pm * t - n) + j * (pj * t - n) + k * n;
  }

  lemma Times(x: real, y: real)
    requires x >= 0.0 && y >= 0.0
    ensures x * y >= 0.0
  {
  }

  /** Kinder weights pay more: every step that gains weight pays at least the current average. */
  lemma KinderPaysMore(w: Weights, v: Weights, table: PayTable)
    requires Sane(w) && Sane(v) && Kinder(w, v) && Steep(table)
    ensures Expected(w, table) <= Expected(v, table)
  {
    var n, t := w.Payout(table), w.Total();
    var k, m, j := w.miss - v.miss, v.medium - w.medium, v.jackpot - w.jackpot;
    var n', t' := n + table.medium * m + table.jackpot * j, t - k + m + j;
    Distribute(table.medium, w.medium, v.medium);
    Distribute(table.jackpot, w.jackpot, v.jackpot);
    assert v.Payout(table) == n' && v.Total() == t';
    MediumIsAboveAverage(w, table);
    Times(table.jackpot - table.medium, t);
    GainsOutweigh(n, t, k, m, j, table.medium, table.jackpot);
    CrossMultiply(n, t, n', t');
  }

  lemma Distribute(p: real, x: real, y: real)
    ensures p * y == p * x + p * (y - x)
  {
  }

  /** And the steering is felt: beyond a difference of 2 the mean multiplier is above or below the one at rest. */
  lemma SteeringIsFelt(rtpDiff: real)
    ensures var table := PayTable(0.5, 1.0, 2.5, 10.0);
            var w := DynamicWeights(rtpDiff);
            && w.Total() > 0.0 && Weights(40.0, 30.0, 20.0, 9.0, 1.0).Total() > 0.0
            && Expected(Weights(40.0, 30.0, 20.0, 9.0, 1.0), table) == 0.675
            && (rtpDiff > 2.0 ==> Expected(w, table) > 0.8)
            && (rtpDiff < -2.0 ==> Expected(w, table) < 0.6)
  {
    SteeringIsMonotone(rtpDiff, rtpDiff);
    MovedFarEnough(rtpDiff);
    var w := DynamicWeights(rtpDiff);
    if rtpDiff > 2.0 {
      PaysWell(w);
    } else if rtpDiff < -2.0 {
      PaysBadly(w);
    }
  }

  lemma MovedFarEnough(rtpDiff: real)
    ensures var w := DynamicWeights(rtpDiff);
            && w.small == 30.0 && w.equal == 20.0
            && (rtpDiff > 2.0 ==> w.medium >= 12.0 && w.jackpot >= 2.0 && 0.0 <= w.miss <= 36.0)
            && (rtpDiff < -2.0 ==> 0.0 <= w.medium <= 7.0 && w.jackpot == 0.1 && w.miss >= 43.0)
  {
  }

  lemma PaysWell(w: Weights)
    requires w.small == 30.0 && w.equal == 20.0 && w.medium >= 12.0 && w.jackpot >= 2.0 && 0.0 <= w.miss <= 36.0
    ensures w.Total() > 0.0 && Expected(w, PayTable(0.5, 1.0, 2.5, 10.0)) > 0.8
  {
    AboveShare(w.Payout(PayTable(0.5, 1.0, 2.5, 10.0)), w.Total(), 0.8);
  }

  lemma PaysBadly(w: Weights)
    requires w.small == 30.0 && w.equal == 20.0 && 0.0 <= w.medium <= 7.0 && w.jackpot == 0.1 && w.miss >= 43.0
    ensures w.Total() > 0.0 && Expected(w, PayTable(0.5, 1.0, 2.5, 10.0)) < 0.6
  {
    BelowShare(w.Payout(PayTable(0.5, 1.0, 2.5, 10.0)), w.Total(), 0.6);
  }

  lemma AboveShare(n: real, t: real, share: real)
    requires t > 0.0 && n > share * t
    ensures n / t > share
  {
  }

  lemma BelowShare(n: real, t: real, share: real)
    requires t > 0.0 && n < share * t
    ensures n / t < share
  {
  }

  lemma CrossMultiply(a: real, b: real, c: real, d: real)
    requires b > 0.0 && d > 0.0 && c * b - a * d >= 0.0
    ensures a / b <= c / d
  {
    assert c / d - a / b == (c * b - a * d) / (b * d);
    assert b * d > 0.0;
  }

  /** The further the current return is below its target, the more coins a draw of any gift is
      expected to pay, and the higher is the mean multiplier: the steering holds through every rounding. */
  lemma ReturnFollowsTheTarget(cost: nat, current1: real, target1: real, current2: real, target2: real)
    requires target1 - current1 <= target2 - current2
    ensures var w, v := DynamicWeights(target1 - current1), DynamicWeights(target2 - current2);
            && w.Total() > 0.0 && v.Total() > 0.0
            && Expected(w, Coins(cost)) <= Expected(v, Coins(cost))
            && Expected(w, PayTable(0.5, 1.0, 2.5, 10.0)) <= Expected(v, PayTable(0.5, 1.0, 2.5, 10.0))
  {
    SteeringIsMonotone(target1 - current1, target2 - current2);
    CoinsAreSteep(cost);
    KinderPaysMore(DynamicWeights(target1 - current1), DynamicWeights(target2 - current2), Coins(cost));
    KinderPaysMore(DynamicWeights(target1 - current1), DynamicWeights(target2 - current2),
        PayTable(0.5, 1.0, 2.5, 10.0));
  }

  /** The draw falls on step i: past the steps before it, and not past it. */
  predicate Drawn(weights: seq<real>, rand: real, i: nat)
    requires i < |weights|
  {
    rand * SumR(weights) <= SumR(weights[..i]) + weights[i] && (i > 0 ==> SumR(weights[..i]) < rand * SumR(weights))
  }

  /** A draw falls on one step only. */
  lemma DrawnOnce(weights: seq<real>, rand: real, i: nat, j: nat)
    requires forall k :: 0 <= k < |weights| ==> weights[k] > 0.0
    requires i < |weights| && j < |weights| && Drawn(weights, rand, i) && Drawn(weights, rand, j)
    ensures i == j
  {
    assert weights[..i + 1][..i] == weights[..i] && weights[..j + 1][..j] == weights[..j];
    if i < j {
      PrefixGrows(weights, i + 1, j);
    } else if j < i {
      PrefixGrows(weights, j + 1, i);
    }
  }

  lemma {:induction false} PrefixGrows(weights: seq<real>, m: nat, n: nat)
    requires m <= n <= |weights| && forall k :: 0 <= k < |weights| ==> weights[k] > 0.0
    ensures SumR(weights[..m]) <= SumR(weights[..n])
  {
    if m < n {
      PrefixGrows(weights, m, n - 1);
      assert weights[..n][..n - 1] == weights[..n - 1];
    }
  }

  /** The cumulative selection: step i is drawn on an interval of draws as long as its share of the
      total weight, so Expected is the mean over the draws. */
  method DrawStep(weights: seq<real>, rand: real) returns (i: nat)
    requires weights != [] && 0.0 <= rand < 1.0
    requires forall k :: 0 <= k < |weights| ==> weights[k] > 0.0
    ensures i < |weights| && Drawn(weights, rand, i)
    ensures rand * SumR(weights) <= SumR(weights[..i]) + weights[i]
    ensures i > 0 ==> SumR(weights[..i]) < rand * SumR(weights)
  {
    i := 0;
    var total := SumR(weights);
    var draw := rand * total;
    BelowTotal(total, rand) by { SumPositive(weights); }
    assert weights[..|weights|] == weights;
    var cumulative := 0.0;
    for k := 0 to |weights|
      invariant cumulative == SumR(weights[..k])
      invariant k > 0 ==> cumulative < draw
      invariant draw < SumR(weights[..|weights|])
    {
      assert weights[..k + 1][..k] == weights[..k];
      cumulative := cumulative + weights[k];
      if draw <= cumulative {
        return k;
      }
    }
    assert false;
  }

  lemma WeightsArePositive(rtpDiff: real)
    ensures var w := DynamicWeights(rtpDiff).Steps(); forall k :: 0 <= k < |w| ==> w[k] > 0.0
  {
    SteeringIsMonotone(rtpDiff, rtpDiff);
  }

  /** Nothing, half the cost, the cost, two and a half times and ten times the cost, in whole coins. */
  lemma CoinsByStep(cost: nat, step: nat, coins: int)
    requires step < |MULTIPLIERS| && coins as real <= cost as real * MULTIPLIERS[step] < coins as real + 1.0
    ensures coins == [0, cost / 2, cost, 5 * cost / 2, 10 * cost][step]
  {
    assert step == 0 || step == 1 || step == 2 || step == 3 || step == 4;
  }

  /** `calculateSingleReward`: the drawn step's multiple of the cost, in whole coins. */
  method CalculateSingleReward(cost: nat, currentRtp: real, targetRtp: real, rand: real)
      returns (rewardCoins: int, step: nat)
    requires 0.0 <= rand < 1.0
    ensures step < |MULTIPLIERS| && Drawn(DynamicWeights(targetRtp - currentRtp).Steps(), rand, step)
    ensures 0 <= rewardCoins && rewardCoins as real <= cost as real * MULTIPLIERS[step] < rewardCoins as real + 1.0
    ensures rewardCoins == [0, cost / 2, cost, 5 * cost / 2, 10 * cost][step]
  {
    WeightsArePositive(targetRtp - currentRtp);
    rewardCoins, step := DrawReward(cost, DynamicWeights(targetRtp - currentRtp).Steps(), rand);
    CoinsByStep(cost, step, rewardCoins);
  }

  method DrawReward(cost: nat, weights: seq<real>, rand: real) returns (rewardCoins: int, step: nat)
    requires 0.0 <= rand < 1.0 && |weights| == |MULTIPLIERS|
    requires forall k :: 0 <= k < |weights| ==> weights[k] > 0.0
    ensures step < |MULTIPLIERS| && Drawn(weights, rand, step)
    ensures 0 <= rewardCoins && rewardCoins as real <= cost as real * MULTIPLIERS[step] < rewardCoins as real + 1.0
  {
    step := DrawStep(weights, rand);
    rewardCoins := WholeCoins(cost, MULTIPLIERS[step]);
  }

  lemma {:induction false} SumPositive(s: seq<real>)
    requires s != [] && forall k :: 0 <= k < |s| ==> s[k] > 0.0
    ensures SumR(s) > 0.0
  {
    if |s| > 1 {
      SumPositive(s[..|s| - 1]);
    }
  }

  lemma BelowTotal(total: real, rand: real)
    requires total > 0.0 && 0.0 <= rand < 1.0
    ensures rand * total < total
  {
    assert (1.0 - rand) * total > 0.0;
  }

  // ----- The combo draw -----

  datatype Category = Category(returnRatio: real, weight: real)

  /** MISS, UNLUCKY, NORMAL, BREAK_EVEN, WINNER. */
  const RATIOS: seq<real> := [0.0, 0.5, 0.9, 1.0, 1.5]
  const COMBO_WEIGHTS: seq<real> := [20.0, 25.0, 35.0, 15.0, 5.0]
  const REDUCE_WEIGHTS: seq<real> := [28.0, 27.0, 32.0, 11.0, 2.0]

  /** `comboOddsForDraw`: the weights used, and what becomes of a return ratio. The reduce fix can be
      switched off, which brings the older floor of one half back. */
  function ComboWeights(rtpDiff: real, fix: bool): seq<real> {
    if rtpDiff < -2.0 && fix then REDUCE_WEIGHTS else COMBO_WEIGHTS
  }

  function PaidRatio(rtpDiff: real, fix: bool, ratio: real): real {
    if rtpDiff > 2.0 then ratio + 0.05
    else if rtpDiff < -2.0 && !fix then MaxR(0.5, ratio - 0.05)
    else ratio
  }

  /** Below the target every category pays five hundredths of the cost more; above it, only without the fix is the
      payment changed, to at least one half. */
  lemma RatiosPaid(rtpDiff: real, fix: bool, ratio: real)
    ensures rtpDiff > 2.0 ==> PaidRatio(rtpDiff, fix, ratio) - ratio == 0.05
    ensures rtpDiff <= 2.0 && (fix || rtpDiff >= -2.0) ==> PaidRatio(rtpDiff, fix, ratio) == ratio
    ensures rtpDiff < -2.0 && !fix ==>
              var paid := PaidRatio(rtpDiff, fix, ratio);
              paid >= 0.5 && paid >= ratio - 0.05 && (paid == 0.5 || ratio - paid == 0.05)
  {
  }

  /** `expectedComboEv` of the odds in use. */
  function ComboReturn(rtpDiff: real, fix: bool): real {
    var w := ComboWeights(rtpDiff, fix);
    (w[0] * PaidRatio(rtpDiff, fix, RATIOS[0]) + w[1] * PaidRatio(rtpDiff, fix, RATIOS[1])
     + w[2] * PaidRatio(rtpDiff, fix, RATIOS[2]) + w[3] * PaidRatio(rtpDiff, fix, RATIOS[3])
     + w[4] * PaidRatio(rtpDiff, fix, RATIOS[4])) / 100.0
  }

  lemma ComboReturns(rtpDiff: real, fix: bool)
    ensures ComboReturn(rtpDiff, fix) ==
            if rtpDiff > 2.0 then 0.715 else if rtpDiff >= -2.0 then 0.665 else if fix then 0.563 else 0.7375
  {
  }

  /** The combo draw pays less when the return is over its target exactly when the reduce fix is on. */
  lemma ComboFollowsTheTargetIffFixed(fix: bool)
    ensures (forall x, y :: x <= y ==> ComboReturn(x, fix) <= ComboReturn(y, fix)) <==> fix
  {
    forall x { ComboReturns(x, fix); }
    if !fix {
      assert ComboReturn(-3.0, fix) > ComboReturn(0.0, fix);
    }
  }

  /** The coins of a combo of this cost: rounded to the nearest whole coin. */
  function ComboCoins(totalCost: nat, ratio: real): (r: nat)
    requires ratio >= 0.0
    ensures r as real - 0.5 <= totalCost as real * ratio < r as real + 0.5
    ensures totalCost == 0 ==> r == 0
  {
    Times(totalCost as real, ratio);
    Round(totalCost as real * ratio)
  }

  /** The coins that a combo of this cost is expected to pay. */
  function ComboMean(totalCost: nat, rtpDiff: real, fix: bool): real {
    var w := ComboWeights(rtpDiff, fix);
    (w[0] * ComboCoins(totalCost, PaidRatio(rtpDiff, fix, RATIOS[0])) as real
     + w[1] * ComboCoins(totalCost, PaidRatio(rtpDiff, fix, RATIOS[1])) as real
     + w[2] * ComboCoins(totalCost, PaidRatio(rtpDiff, fix, RATIOS[2])) as real
     + w[3] * ComboCoins(totalCost, PaidRatio(rtpDiff, fix, RATIOS[3])) as real
     + w[4] * ComboCoins(totalCost, PaidRatio(rtpDiff, fix, RATIOS[4])) as real) / 100.0
  }

  lemma ComboCoinsMonotone(totalCost: nat, p: real, q: real)
    requires 0.0 <= p <= q
    ensures ComboCoins(totalCost, p) <= ComboCoins(totalCost, q)
  {
    Scale(p, q, totalCost as real);
    RoundMonotone(totalCost as real * p, totalCost as real * q);
  }

  const BELOW := 3.0
  const ON := 0.0
  const ABOVE := -3.0

  /** One difference for each way of steering: below the target, on it, above it. */
  function Standing(rtpDiff: real): real {
    if rtpDiff > 2.0 then BELOW else if rtpDiff < -2.0 then ABOVE else ON
  }

  lemma OnlyTheStandingCounts(totalCost: nat, rtpDiff: real, fix: bool)
    ensures ComboMean(totalCost, rtpDiff, fix) == ComboMean(totalCost, Standing(rtpDiff), fix)
  {
    assert ComboWeights(rtpDiff, fix) == ComboWeights(Standing(rtpDiff), fix);
    assert forall ratio :: PaidRatio(rtpDiff, fix, ratio) == PaidRatio(Standing(rtpDiff), fix, ratio);
  }

  /** Below its target the combo pays no less than on it. */
  lemma BoostPaysMore(totalCost: nat, fix: bool)
    ensures ComboMean(totalCost, ON, fix) <= ComboMean(totalCost, BELOW, fix)
  {
    ComboCoinsMonotone(totalCost, 0.0, 0.05);
    ComboCoinsMonotone(totalCost, 0.5, 0.55);
    ComboCoinsMonotone(totalCost, 0.9, 0.95);
    ComboCoinsMonotone(totalCost, 1.0, 1.05);
    ComboCoinsMonotone(totalCost, 1.5, 1.55);
  }

  /** With the fix, it pays no more above its target than on it. */
  lemma FixedReducePaysLess(totalCost: nat)
    ensures ComboMean(totalCost, ABOVE, true) <= ComboMean(totalCost, ON, true)
  {
    ComboCoinsMonotone(totalCost, 0.5, 0.9);
  }

  /** Without it, a combo that costs anything pays more. */
  lemma UnfixedReducePaysMore(totalCost: nat)
    requires totalCost > 0
    ensures ComboMean(totalCost, ABOVE, false) > ComboMean(totalCost, ON, false)
  {
    var c := totalCost;
    var half, a, b, d := ComboCoins(c, 0.5), ComboCoins(c, 0.85), ComboCoins(c, 0.95), ComboCoins(c, 1.45);
    var a', b', d' := ComboCoins(c, 0.9), ComboCoins(c, 1.0), ComboCoins(c, 1.5);
    UnfixedGain(c, half, a, b, d, a', b', d');
    MeanAboveUnfixed(c, half, a, b, d);
    MeanOn(c, half, a', b', d');
  }

  lemma MeanAboveUnfixed(c: nat, half: nat, a: nat, b: nat, d: nat)
    requires half == ComboCoins(c, 0.5) && a == ComboCoins(c, 0.85) && b == ComboCoins(c, 0.95)
             && d == ComboCoins(c, 1.45)
    ensures ComboMean(c, ABOVE, false) == (45 * half + 35 * a + 15 * b + 5 * d) as real / 100.0
  {
  }

  lemma MeanOn(c: nat, half: nat, a: nat, b: nat, d: nat)
    requires half == ComboCoins(c, 0.5) && a == ComboCoins(c, 0.9) && b == ComboCoins(c, 1.0) && d == ComboCoins(c, 1.5)
    ensures ComboMean(c, ON, false) == (25 * half + 35 * a + 15 * b + 5 * d) as real / 100.0
  {
    assert ComboCoins(c, 0.0) == 0;
  }

  predicate Nearest(x: real, n: int) {
    n as real - 0.5 <= x < n as real + 0.5
  }

  /** The floor of one half gives a miss more than the cut of 0.05 takes from the others. */
  lemma UnfixedGain(c: nat, half: nat, a: nat, b: nat, d: nat, a': nat, b': nat, d': nat)
    requires c > 0
    requires Nearest(c as real * 0.5, half) && Nearest(c as real * 0.85, a) && Nearest(c as real * 0.95, b)
    requires Nearest(c as real * 1.45, d) && Nearest(c as real * 0.9, a') && Nearest(c as real * 1.0, b')
             && Nearest(c as real * 1.5, d')
    ensures 20 * half + 35 * a + 15 * b + 5 * d > 35 * a' + 15 * b' + 5 * d'
  {
    assert b' == c;
    if c < 8 {
      assert c == 1 || c == 2 || c == 3 || c == 4 || c == 5 || c == 6 || c == 7;
    } else {
      assert 20.0 * half as real >= 10.0 * c as real - 10.0;
      assert 2 * half >= c;
    }
  }

  /** The coins a combo is expected to pay follow the target, through the rounding, exactly when the
      reduce fix is on or the combo is free. */
  lemma ComboCoinsFollowTheTargetIff(totalCost: nat, fix: bool)
    ensures (forall x, y :: x <= y ==> ComboMean(totalCost, x, fix) <= ComboMean(totalCost, y, fix)) <==>
            fix || totalCost == 0
  {
    if fix || totalCost == 0 {
      forall x, y | x <= y ensures ComboMean(totalCost, x, fix) <= ComboMean(totalCost, y, fix) {
        OnlyTheStandingCounts(totalCost, x, fix);
        OnlyTheStandingCounts(totalCost, y, fix);
        ComboOrdered(totalCost, fix);
      }
    } else {
      UnfixedReducePaysMore(totalCost);
      assert ABOVE <= ON;
    }
  }

  lemma ComboOrdered(totalCost: nat, fix: bool)
    requires fix || totalCost == 0
    ensures ComboMean(totalCost, ABOVE, fix) <= ComboMean(totalCost, ON, fix) <= ComboMean(totalCost, BELOW, fix)
  {
    BoostPaysMore(totalCost, fix);
    if fix {
      FixedReducePaysLess(totalCost);
    } else {
      FreeComboPaysNothing(ABOVE, fix);
      FreeComboPaysNothing(ON, fix);
    }
  }

  lemma FreeComboPaysNothing(rtpDiff: real, fix: bool)
    ensures ComboMean(0, rtpDiff, fix) == 0.0
  {
  }

  function SumN(s: seq<nat>): nat {
    if s == [] then 0 else SumN(s[..|s| - 1]) + s[|s| - 1]
  }

  /** The part of the reward that falls to step i by its weight. */
  function PartOf(weights: seq<real>, totalReward: nat, i: nat): real
    requires i < |weights|
  {
    if SumR(weights) > 0.0 then weights[i] / SumR(weights) * totalReward as real else 0.0
  }

  /** The last of the filled steps got its part of the reward, to the nearest coin, or all that was left. */
  predicate FairLast(filled: seq<nat>, part: real, totalReward: nat)
    requires filled != []
  {
    var last := filled[|filled| - 1] as real;
    last <= part + 0.5 && (last > part - 0.5 || SumN(filled) == totalReward)
  }

  ghost predicate AllFair(weights: seq<real>, totalReward: nat, filled: seq<nat>) {
    && |filled| <= |weights|
    && forall k :: 0 <= k < |filled| ==> FairLast(filled[..k + 1], PartOf(weights, totalReward, k), totalReward)
  }

  lemma OneMoreFair(weights: seq<real>, totalReward: nat, before: seq<nat>, filled: seq<nat>, part: real)
    requires AllFair(weights, totalReward, before)
    requires |before| + 1 == |filled| <= |weights| && filled[..|before|] == before
    requires part == PartOf(weights, totalReward, |before|) && FairLast(filled, part, totalReward)
    ensures AllFair(weights, totalReward, filled)
  {
    forall k | 0 <= k < |filled| ensures FairLast(filled[..k + 1], PartOf(weights, totalReward, k), totalReward) {
      if k < |before| {
        assert filled[..k + 1] == before[..k + 1];
      } else {
        assert filled[..k + 1] == filled;
      }
    }
  }

  lemma NearestOrRest(part: real, remaining: nat, before: seq<nat>, step: nat, totalReward: nat)
    requires Round(part) >= 0 && step == (if Round(part) <= remaining then Round(part) else remaining)
    requires remaining + SumN(before) == totalReward
    ensures FairLast(before + [step], part, totalReward)
  {
    Snoc(before, step);
  }

  /** The shares of all steps but the last, each rounded and capped by what is left. */
  method FillShares(weights: seq<real>, totalReward: nat, breakdown: array<nat>) returns (remaining: nat)
    requires breakdown.Length == |weights| > 0 && forall k :: 0 <= k < |weights| ==> weights[k] > 0.0
    modifies breakdown
    ensures remaining + SumN(breakdown[..|weights| - 1]) == totalReward
    // Each share is its weight's, to the nearest coin, as long as so much is left.
    ensures AllFair(weights, totalReward, breakdown[..|weights| - 1])
  {
    SumPositive(weights);
    var weightSum := SumR(weights);
    remaining := totalReward;
    for i := 0 to |weights| - 1
      invariant remaining + SumN(breakdown[..i]) == totalReward
      invariant AllFair(weights, totalReward, breakdown[..i])
    {
      var part := PartFor(weights, weightSum, totalReward, i);
      ghost var before := breakdown[..i];
      remaining := FillStep(part, totalReward, breakdown, i, remaining);
      OneMoreFair(weights, totalReward, before, breakdown[..i + 1], part);
    }
  }

  method PartFor(weights: seq<real>, weightSum: real, totalReward: nat, i: nat) returns (part: real)
    requires i < |weights| && weightSum == SumR(weights) > 0.0 && weights[i] > 0.0
    ensures part == PartOf(weights, totalReward, i) && Round(part) >= 0
  {
    Share(weights[i], weightSum, totalReward);
    part := weights[i] / weightSum * totalReward as real;
  }

  method FillStep(part: real, ghost totalReward: nat, breakdown: array<nat>, i: nat, remaining: nat) returns (left: nat)
    requires i < breakdown.Length && Round(part) >= 0
    requires remaining + SumN(breakdown[..i]) == totalReward
    modifies breakdown
    ensures breakdown[..i] == old(breakdown[..i])
    ensures FairLast(breakdown[..i + 1], part, totalReward)
    ensures left + SumN(breakdown[..i + 1]) == totalReward
  {
    ghost var before := breakdown[..i];
    var stepShare: nat := Round(part);
    var actualStep: nat := if stepShare <= remaining then stepShare else remaining;
    breakdown[i] := actualStep;
    assert breakdown[..i + 1] == before + [actualStep];
    NearestOrRest(part, remaining, before, actualStep, totalReward);
    Snoc(before, actualStep);
    left := remaining - actualStep;
  }

  function PartWeights(draws: nat -> real, n: nat): seq<real> {
    seq(n, (k: nat) => draws(k) + 0.1)
  }

  /** The reward split over at most ten steps by random weights: no negative step, and nothing lost. */
  method Breakdown(totalReward: nat, count: nat, draws: nat -> real) returns (breakdown: array<nat>)
    requires forall k :: 0.0 <= draws(k) < 1.0
    requires count == 0 ==> totalReward == 0
    ensures fresh(breakdown) && breakdown.Length == if count < 10 then count else 10
    ensures SumN(breakdown[..]) == totalReward
    // By random weights of 0.1 to 1.1, every step but the last gets its part.
    ensures totalReward > 0 ==>
            AllFair(PartWeights(draws, breakdown.Length), totalReward, breakdown[..breakdown.Length - 1])
  {
    var stepCount := if count < 10 then count else 10;
    breakdown := new nat[stepCount](_ => 0);
    if totalReward == 0 {
      Zeros(breakdown[..]);
    } else {
      var weights := PartWeights(draws, stepCount);
      var remaining := FillShares(weights, totalReward, breakdown);
      ghost var before := breakdown[..stepCount - 1];
      breakdown[stepCount - 1] := remaining;
      assert breakdown[..] == before + [remaining];
      Snoc(before, remaining);
    }
  }

  lemma ComboWeightsSumTo100(rtpDiff: real, fix: bool)
    ensures var w := ComboWeights(rtpDiff, fix);
            |w| == |RATIOS| && SumR(w) == 100.0 && forall k :: 0 <= k < |w| ==> w[k] > 0.0
  {
    var w := ComboWeights(rtpDiff, fix);
    assert w[..4][..3] == w[..3] && w[..3][..2] == w[..2] && w[..2][..1] == w[..1] && w[..1][..0] == [];
    assert SumR(w[..1]) == w[0];
    assert SumR(w[..2]) == w[0] + w[1];
    assert SumR(w[..3]) == w[0] + w[1] + w[2];
    assert SumR(w[..4]) == w[0] + w[1] + w[2] + w[3];
  }

  /** `calculateComboReward`: draw a category, round its return on the total cost, split it over the steps. */
  method CalculateComboReward(unitCost: nat, count: nat, rtpDiff: real, fix: bool, rand: real, draws: nat -> real)
    returns (totalReward: nat, breakdown: array<nat>, category: nat)
    requires 0.0 <= rand < 1.0 && forall k :: 0.0 <= draws(k) < 1.0
    ensures category < |RATIOS| && |ComboWeights(rtpDiff, fix)| == |RATIOS|
            && Drawn(ComboWeights(rtpDiff, fix), rand, category)
    ensures var ratio := PaidRatio(rtpDiff, fix, RATIOS[category]);
            totalReward as real - 0.5 <= (unitCost * count) as real * ratio < totalReward as real + 0.5
    ensures fresh(breakdown) && breakdown.Length == if count < 10 then count else 10
    ensures SumN(breakdown[..]) == totalReward
  {
    ComboWeightsSumTo100(rtpDiff, fix);
    category := DrawStep(ComboWeights(rtpDiff, fix), rand);
    totalReward := ComboCoins(unitCost * count, PaidRatio(rtpDiff, fix, RATIOS[category]));
    breakdown := Breakdown(totalReward, count, draws);
  }

  lemma Snoc(s: seq<nat>, x: nat)
    ensures SumN(s + [x]) == SumN(s) + x
  {
    assert (s + [x])[..|s|] == s;
  }

  lemma {:induction false} Zeros(s: seq<nat>)
    requires forall k :: 0 <= k < |s| ==> s[k] == 0
    ensures SumN(s) == 0
  {
    if s != [] {
      Zeros(s[..|s| - 1]);
    }
  }

  lemma Share(w: real, sum: real, total: nat)
    requires w > 0.0 && sum > 0.0
    ensures Round(w / sum * total as real) >= 0
  {
    assert w / sum > 0.0;
    assert w / sum * total as real >= 0.0;
  }
}
