/** Wilder smoothing and the average directional index, over reals. */
module AverageDirectionalIndex {
  import opened Wrappers

  // ---------------------------------------------------------------- smoothing

  function Sum(xs: seq<real>): real {
    if xs == [] then 0.0 else Sum(xs[..|xs| - 1]) + xs[|xs| - 1]
  }

  function Mean(sum: real, n: nat): real
    requires n > 0
  {
    sum / n as real
  }

  /** An n-th of the way from `s` to `x`. */
  function Toward(s: real, x: real, n: nat): real
    requires n > 0
  {
    s + Mean(x - s, n)
  }

  /** The definition: the mean of the first `n` values, then each value moves the result an n-th of the way. */
  function Smooth(xs: seq<real>, n: nat): (s: Option<real>)
    requires n > 0
    ensures s.Some? <==> |xs| >= n
  {
    if |xs| < n then None
    else if |xs| == n then Some(Mean(Sum(xs), n))
    else Some(Toward(Smooth(xs[..|xs| - 1], n).value, xs[|xs| - 1], n))
  }

  class Wilder {
    const period: nat
    var seed: seq<real>
    var value: Option<real>
    ghost var pushed: seq<real>

    ghost predicate Valid()
      reads this
    {
      && period > 0
      && value == Smooth(pushed, period)
      && (value.None? ==> seed == pushed)
    }

    constructor (period: nat)
      requires period > 0
      ensures Valid() && this.period == period && pushed == []
    {
      this.period := period;
      seed, value, pushed := [], None, [];
    }

    method Push(x: real) returns (result: Option<real>)
      requires Valid()
      modifies this
      ensures Valid() && pushed == old(pushed) + [x] && result == Smooth(pushed, period)
    {
      pushed := pushed + [x];
      assert pushed[..|pushed| - 1] == old(pushed);
      if value.None? {
        seed := seed + [x];
        if |seed| < period {
          return None;
        }
        value := Some(Sum(seed) / period as real);
        return value;
      }
      value := Some(value.value + (x - value.value) / period as real);
      result := value;
    }
  }

  method WilderSmooth(values: seq<real>, period: nat) returns (out: seq<Option<real>>)
    requires period > 0
    ensures |out| == |values| && forall i :: 0 <= i < |out| ==> out[i] == Smooth(values[..i + 1], period)
  {
    var state := new Wilder(period);
    out := [];
    for i := 0 to |values|
      invariant state.Valid() && state.period == period && state.pushed == values[..i]
      invariant |out| == i && forall k :: 0 <= k < i ==> out[k] == Smooth(values[..k + 1], period)
    {
      assert values[..i + 1] == values[..i] + [values[i]];
      var s := state.Push(values[i]);
      out := out + [s];
    }
  }

  // ---------------------------------------------------------------- the index

  function Abs(x: real): real {
    if x < 0.0 then -x else x
  }

  /** The directional index of three smoothed values; a stretch without movement counts as zero. */
  function Dx(tr: real, plus: real, minus: real): real {
    if tr <= 0.0 then 0.0
    else
      var plusDi, minusDi := 100.0 * plus / tr, 100.0 * minus / tr;
      var total := plusDi + minusDi;
      if total <= 0.0 then 0.0 else 100.0 * Abs(plusDi - minusDi) / total
  }

  /** The index is the difference of the two movements in percent of their sum; nothing moved counts as zero. */
  lemma DxIsShareOfMovement(tr: real, plus: real, minus: real)
    ensures tr > 0.0 && plus + minus > 0.0 ==>
              Dx(tr, plus, minus) * (plus + minus) == 100.0 * (if plus < minus then minus - plus else plus - minus)
    ensures tr <= 0.0 || plus + minus <= 0.0 ==> Dx(tr, plus, minus) == 0.0
  {
    if tr > 0.0 {
      var plusDi, minusDi := 100.0 * plus / tr, 100.0 * minus / tr;
      var total, scale := plusDi + minusDi, 100.0 / tr;
      assert plusDi == scale * plus && minusDi == scale * minus && total == scale * (plus + minus);
      if plus + minus > 0.0 {
        assert scale > 0.0;
        assert total > 0.0;
        var gap := if plus < minus then minus - plus else plus - minus;
        assert Abs(plusDi - minusDi) == scale * gap;
        assert Dx(tr, plus, minus) == 100.0 * (scale * gap) / (scale * (plus + minus));
        assert Dx(tr, plus, minus) * (plus + minus) == 100.0 * gap;
      } else {
        assert total <= 0.0;
      }
    }
  }

  /** `f` of the three smoothed series, from the `n`-th bar on. */
  function Combined(f: (real, real, real) -> real, tr: seq<real>, plus: seq<real>, minus: seq<real>, n: nat): (r: seq<real>)
    requires n > 0 && |tr| == |plus| == |minus|
    ensures |r| == if |tr| < n then 0 else |tr| - n + 1
  {
    if |tr| < n then []
    else
      Combined(f, tr[..|tr| - 1], plus[..|plus| - 1], minus[..|minus| - 1], n) +
        [f(Smooth(tr, n).value, Smooth(plus, n).value, Smooth(minus, n).value)]
  }

  /** The directional indices from the `n`-th bar on. */
  function DxSeries(tr: seq<real>, plus: seq<real>, minus: seq<real>, n: nat): (dx: seq<real>)
    requires n > 0 && |tr| == |plus| == |minus|
    ensures |dx| == if |tr| < n then 0 else |tr| - n + 1
  {
    Combined(Dx, tr, plus, minus, n)
  }

  /** The definition: the smoothed directional index. */
  function Adx(tr: seq<real>, plus: seq<real>, minus: seq<real>, n: nat): Option<real>
    requires n > 0 && |tr| == |plus| == |minus|
  {
    Smooth(DxSeries(tr, plus, minus, n), n)
  }

  class AdxState {
    const period: nat
    const tr: Wilder
    const plus: Wilder
    const minus: Wilder
    var dxSeed: seq<real>
    var adx: Option<real>

    ghost predicate Valid()
      reads this, tr, plus, minus
    {
      && tr != plus && tr != minus && plus != minus
      && tr.Valid() && plus.Valid() && minus.Valid()
      && tr.period == plus.period == minus.period == period
      && |tr.pushed| == |plus.pushed| == |minus.pushed|
      && adx == Adx(tr.pushed, plus.pushed, minus.pushed, period)
      && (adx.None? ==> dxSeed == DxSeries(tr.pushed, plus.pushed, minus.pushed, period))
    }

    constructor (period: nat)
      requires period > 0
      ensures Valid() && this.period == period && tr.pushed == plus.pushed == minus.pushed == []
      ensures fresh(tr) && fresh(plus) && fresh(minus)
    {
      this.period := period;
      tr := new Wilder(period);
      plus := new Wilder(period);
      minus := new Wilder(period);
      dxSeed, adx := [], None;
    }

    /** The state smooths the directional index in line; the result is the definition's. */
    method Push(trueRange: real, plusDm: real, minusDm: real) returns (result: Option<real>)
      requires Valid()
      modifies this, tr, plus, minus
      ensures Valid() && result == Adx(tr.pushed, plus.pushed, minus.pushed, period)
      ensures tr.pushed == old(tr.pushed) + [trueRange]
      ensures plus.pushed == old(plus.pushed) + [plusDm] && minus.pushed == old(minus.pushed) + [minusDm]
    {
      ghost var trs, pluses, minuses := tr.pushed, plus.pushed, minus.pushed;
      var trS := tr.Push(trueRange);
      var plusS := plus.Push(plusDm);
      var minusS := minus.Push(minusDm);
      result := Continue(trS, plusS, minusS, trs, pluses, minuses, trueRange, plusDm, minusDm);
    }

    /** The second half of a push: the index of the smoothed values is smoothed, once there are any. */
    method Continue(trS: Option<real>, plusS: Option<real>, minusS: Option<real>,
                    ghost trs: seq<real>, ghost pluses: seq<real>, ghost minuses: seq<real>, ghost t: real, ghost p: real, ghost m: real)
      returns (result: Option<real>)
      requires period > 0 && |trs| == |pluses| == |minuses| && adx == Adx(trs, pluses, minuses, period)
      requires adx.None? ==> dxSeed == DxSeries(trs, pluses, minuses, period)
      requires trS == Smooth(trs + [t], period) && plusS == Smooth(pluses + [p], period) && minusS == Smooth(minuses + [m], period)
      modifies this`dxSeed, this`adx
      ensures adx == result == Adx(trs + [t], pluses + [p], minuses + [m], period)
      ensures adx.None? ==> dxSeed == DxSeries(trs + [t], pluses + [p], minuses + [m], period)
    {
      CombinedStep(Dx, trs, pluses, minuses, t, p, m, period);
      if trS.None? || plusS.None? || minusS.None? {
        return None;
      }
      var dx := DirectionalIndex(trS.value, plusS.value, minusS.value);
      result := Absorb(dx, DxSeries(trs, pluses, minuses, period));
    }

    method DirectionalIndex(trS: real, plusS: real, minusS: real) returns (dx: real)
      ensures dx == Dx(trS, plusS, minusS)
    {
      if trS <= 0.0 {
        return 0.0;
      }
      var plusDi := 100.0 * plusS / trS;
      var minusDi := 100.0 * minusS / trS;
      var total := plusDi + minusDi;
      dx := if total <= 0.0 then 0.0 else 100.0 * Abs(plusDi - minusDi) / total;
    }

    /** Smooths one more directional index, `before` being those so far. */
    method Absorb(dx: real, ghost before: seq<real>) returns (result: Option<real>)
      requires period > 0 && adx == Smooth(before, period) && (adx.None? ==> dxSeed == before)
      modifies this`dxSeed, this`adx
      ensures adx == result == Smooth(before + [dx], period) && (adx.None? ==> dxSeed == before + [dx])
    {
      SmoothStep(before, dx, period);
      if adx.None? {
        dxSeed := dxSeed + [dx];
        if |dxSeed| < period {
          return None;
        }
        adx := Some(Sum(dxSeed) / period as real);
        return adx;
      }
      adx := Some(adx.value + (dx - adx.value) / period as real);
      result := adx;
    }
  }

  lemma CombinedStep(f: (real, real, real) -> real, tr: seq<real>, plus: seq<real>, minus: seq<real>,
                     t: real, p: real, m: real, n: nat)
    requires n > 0 && |tr| == |plus| == |minus|
    ensures Combined(f, tr + [t], plus + [p], minus + [m], n) ==
              Combined(f, tr, plus, minus, n) +
              if |tr| + 1 < n then []
              else [f(Smooth(tr + [t], n).value, Smooth(plus + [p], n).value, Smooth(minus + [m], n).value)]
  {
    assert (tr + [t])[..|tr|] == tr && (plus + [p])[..|plus|] == plus && (minus + [m])[..|minus|] == minus;
  }

  lemma SmoothStep(xs: seq<real>, x: real, n: nat)
    requires n > 0
    ensures |xs| + 1 > n ==> Smooth(xs + [x], n) == Some(Toward(Smooth(xs, n).value, x, n))
    ensures |xs| + 1 == n ==> Smooth(xs + [x], n) == Some(Mean(Sum(xs + [x]), n))
    ensures |xs| + 1 < n ==> Smooth(xs + [x], n) == None
  {
    assert (xs + [x])[..|xs|] == xs;
  }

  /** The first value appears at exactly push `2n - 1`. */
  lemma FirstValue(tr: seq<real>, plus: seq<real>, minus: seq<real>, n: nat)
    requires n > 0 && |tr| == |plus| == |minus|
    ensures Adx(tr, plus, minus, n).Some? <==> |tr| >= 2 * n - 1
  {
  }

  // ---------------------------------------------------------------- bounds

  ghost predicate AllWithin(xs: seq<real>, lo: real, hi: real) {
    forall i :: 0 <= i < |xs| ==> lo <= xs[i] <= hi
  }

  lemma MeanBetween(d: real, n: nat)
    requires n > 0
    ensures d >= 0.0 ==> 0.0 <= Mean(d, n) <= d
    ensures d <= 0.0 ==> d <= Mean(d, n) <= 0.0
  {
    var k := n as real;
    assert k >= 1.0;
    if d >= 0.0 {
      NonNegativeProduct(k - 1.0, d);
      assert k * d == (k - 1.0) * d + d;
      MeanWithin(d, n, 0.0, d);
    } else {
      NonNegativeProduct(k - 1.0, -d);
      assert k * d == d - (k - 1.0) * -d;
      MeanWithin(d, n, d, 0.0);
    }
  }

  /** An n-th of the way from `s` to `x` stays between the bounds of both. */
  lemma PartWay(s: real, x: real, n: nat, lo: real, hi: real)
    requires n > 0 && lo <= s <= hi && lo <= x <= hi
    ensures lo <= Toward(s, x, n) <= hi
  {
    MeanBetween(x - s, n);
  }

  lemma {:induction false} SumWithin(xs: seq<real>, lo: real, hi: real)
    requires AllWithin(xs, lo, hi)
    ensures |xs| as real * lo <= Sum(xs) <= |xs| as real * hi
  {
    if xs != [] {
      SumWithin(xs[..|xs| - 1], lo, hi);
      var m := (|xs| - 1) as real;
      assert |xs| as real == m + 1.0;
      assert (m + 1.0) * lo == m * lo + lo && (m + 1.0) * hi == m * hi + hi;
    }
  }

  lemma NonNegativeProduct(a: real, b: real)
    requires a >= 0.0 && b >= 0.0
    ensures a * b >= 0.0
  {
  }

  lemma ScaledOrder(a: real, b: real, k: real)
    requires k > 0.0 && a < b
    ensures a * k < b * k
  {
    assert (b - a) * k > 0.0;
  }

  lemma MeanWithin(sum: real, n: nat, lo: real, hi: real)
    requires n > 0 && n as real * lo <= sum <= n as real * hi
    ensures lo <= Mean(sum, n) <= hi
  {
    var k, q := n as real, Mean(sum, n);
    assert k >= 1.0 && q * k == sum;
    if q < lo {
      ScaledOrder(q, lo, k);
    }
    if q > hi {
      ScaledOrder(hi, q, k);
    }
  }

  /** A smoothed value lies between the least and the greatest value seen. */
  lemma {:induction false} SmoothWithin(xs: seq<real>, n: nat, lo: real, hi: real)
    requires n > 0 && AllWithin(xs, lo, hi) && |xs| >= n
    ensures lo <= Smooth(xs, n).value <= hi
  {
    if |xs| == n {
      FirstWithin(xs, n, lo, hi);
    } else {
      var init, x := xs[..|xs| - 1], xs[|xs| - 1];
      SmoothWithin(init, n, lo, hi);
      NextWithin(init, x, n, lo, hi);
      assert xs == init + [x];
    }
  }

  lemma FirstWithin(xs: seq<real>, n: nat, lo: real, hi: real)
    requires n > 0 && AllWithin(xs, lo, hi) && |xs| == n
    ensures lo <= Smooth(xs, n).value <= hi
  {
    SumWithin(xs, lo, hi);
    MeanWithin(Sum(xs), n, lo, hi);
  }

  lemma NextWithin(init: seq<real>, x: real, n: nat, lo: real, hi: real)
    requires n > 0 && |init| >= n && lo <= Smooth(init, n).value <= hi && lo <= x <= hi
    ensures lo <= Smooth(init + [x], n).value <= hi
  {
    PartWay(Smooth(init, n).value, x, n, lo, hi);
    SmoothStep(init, x, n);
  }

  /** The share of the difference in the sum is at most the whole. */
  lemma DxWithin(tr: real, plus: real, minus: real)
    requires plus >= 0.0 && minus >= 0.0
    ensures 0.0 <= Dx(tr, plus, minus) <= 100.0
  {
    if tr > 0.0 {
      var p, m := 100.0 * plus / tr, 100.0 * minus / tr;
      assert p * tr == 100.0 * plus && m * tr == 100.0 * minus;
      assert p >= 0.0 && m >= 0.0;
      if p + m > 0.0 {
        Share(Abs(p - m), p + m);
      }
    }
  }

  lemma Share(part: real, whole: real)
    requires 0.0 <= part <= whole && whole > 0.0
    ensures 0.0 <= 100.0 * part / whole <= 100.0
  {
    var q := 100.0 * part / whole;
    assert q * whole == 100.0 * part;
    assert q > 100.0 ==> q * whole > 100.0 * whole;
    assert q < 0.0 ==> q * whole < 0.0;
  }

  ghost predicate NonNegative(xs: seq<real>) {
    forall i :: 0 <= i < |xs| ==> xs[i] >= 0.0
  }

  function Greatest(xs: seq<real>): (g: real)
    ensures forall i :: 0 <= i < |xs| ==> xs[i] <= g
    ensures g >= 0.0
  {
    if xs == [] then 0.0
    else
      var g := Greatest(xs[..|xs| - 1]);
      if xs[|xs| - 1] > g then xs[|xs| - 1] else g
  }

  lemma SmoothNonNegative(xs: seq<real>, n: nat)
    requires n > 0 && NonNegative(xs) && |xs| >= n
    ensures Smooth(xs, n).value >= 0.0
  {
    SmoothWithin(xs, n, 0.0, Greatest(xs));
  }

  lemma {:induction false} CombinedWithin(f: (real, real, real) -> real, tr: seq<real>, plus: seq<real>, minus: seq<real>, n: nat,
                                          lo: real, hi: real)
    requires n > 0 && |tr| == |plus| == |minus| && NonNegative(plus) && NonNegative(minus)
    requires forall t, p, m :: p >= 0.0 && m >= 0.0 ==> lo <= f(t, p, m) <= hi
    ensures AllWithin(Combined(f, tr, plus, minus, n), lo, hi)
    decreases |tr|
  {
    if |tr| >= n {
      SmoothNonNegative(plus, n);
      SmoothNonNegative(minus, n);
      CombinedWithin(f, tr[..|tr| - 1], plus[..|plus| - 1], minus[..|minus| - 1], n, lo, hi);
    }
  }

  /** Every value of the index lies between 0 and 100. */
  lemma AdxWithin(tr: seq<real>, plus: seq<real>, minus: seq<real>, n: nat)
    requires n > 0 && |tr| == |plus| == |minus| && NonNegative(plus) && NonNegative(minus) && |tr| >= 2 * n - 1
    ensures 0.0 <= Adx(tr, plus, minus, n).value <= 100.0
  {
    forall t, p, m | p >= 0.0 && m >= 0.0 ensures 0.0 <= Dx(t, p, m) <= 100.0 {
      DxWithin(t, p, m);
    }
    CombinedWithin(Dx, tr, plus, minus, n, 0.0, 100.0);
    SmoothWithin(DxSeries(tr, plus, minus, n), n, 0.0, 100.0);
  }

  // ---------------------------------------------------------------- scaling

  function Times(k: real, x: real): real {
    k * x
  }

  function Scaled(xs: seq<real>, k: real): (r: seq<real>)
    ensures |r| == |xs| && forall i :: 0 <= i < |r| ==> r[i] == Times(k, xs[i])
  {
    seq(|xs|, i requires 0 <= i < |xs| => Times(k, xs[i]))
  }

  lemma ScaledPrefix(xs: seq<real>, k: real, m: nat)
    requires m <= |xs|
    ensures Scaled(xs, k)[..m] == Scaled(xs[..m], k)
  {
    forall i | 0 <= i < m ensures Scaled(xs, k)[..m][i] == Scaled(xs[..m], k)[i] {
      assert xs[..m][i] == xs[i];
    }
  }

  lemma TimesSum(k: real, a: real, b: real)
    ensures Times(k, a + b) == Times(k, a) + Times(k, b) && Times(k, a - b) == Times(k, a) - Times(k, b)
  {
  }

  lemma TimesMean(k: real, a: real, n: nat)
    requires n > 0
    ensures Mean(Times(k, a), n) == Times(k, Mean(a, n))
  {
    var m, q := n as real, Mean(a, n);
    assert q * m == a;
    assert (k * q) * m == k * (q * m);
    assert Mean(k * a, n) * m == k * a;
  }

  lemma TimesToward(k: real, s: real, x: real, n: nat)
    requires n > 0
    ensures Toward(Times(k, s), Times(k, x), n) == Times(k, Toward(s, x, n))
  {
    TimesSum(k, x, s);
    TimesMean(k, x - s, n);
    TimesSum(k, s, Mean(x - s, n));
  }

  lemma {:induction false} SumScales(xs: seq<real>, k: real)
    ensures Sum(Scaled(xs, k)) == Times(k, Sum(xs))
  {
    if xs != [] {
      var last := |xs| - 1;
      ScaledPrefix(xs, k, last);
      SumScales(xs[..last], k);
      TimesSum(k, Sum(xs[..last]), xs[last]);
    }
  }

  lemma {:induction false} SmoothScales(xs: seq<real>, k: real, n: nat)
    requires n > 0 && |xs| >= n
    ensures Smooth(Scaled(xs, k), n).value == Times(k, Smooth(xs, n).value)
  {
    if |xs| == n {
      SumScales(xs, k);
      TimesMean(k, Sum(xs), n);
    } else {
      var last := |xs| - 1;
      ScaledPrefix(xs, k, last);
      SmoothScales(xs[..last], k, n);
      TimesToward(k, Smooth(xs[..last], n).value, xs[last], n);
    }
  }

  lemma Ratio(k: real, a: real, b: real)
    requires k > 0.0 && b > 0.0
    ensures Times(k, b) > 0.0 && 100.0 * Times(k, a) / Times(k, b) == 100.0 * a / b
  {
    var q := 100.0 * a / b;
    assert q * b == 100.0 * a;
    assert q * (k * b) == k * (q * b) == k * (100.0 * a) == 100.0 * (k * a);
    assert k * b > 0.0;
    assert (100.0 * (k * a) / (k * b)) * (k * b) == 100.0 * (k * a);
  }

  lemma DxScales(tr: real, plus: real, minus: real, k: real)
    requires k > 0.0
    ensures Dx(Times(k, tr), Times(k, plus), Times(k, minus)) == Dx(tr, plus, minus)
  {
    if tr > 0.0 {
      Ratio(k, plus, tr);
      Ratio(k, minus, tr);
    } else {
      assert k * tr <= 0.0;
    }
  }

  lemma {:induction false} CombinedScales(f: (real, real, real) -> real, tr: seq<real>, plus: seq<real>, minus: seq<real>,
                                          n: nat, k: real)
    requires n > 0 && |tr| == |plus| == |minus|
    requires forall t, p, m {:trigger f(Times(k, t), Times(k, p), Times(k, m))} :: f(Times(k, t), Times(k, p), Times(k, m)) == f(t, p, m)
    ensures Combined(f, Scaled(tr, k), Scaled(plus, k), Scaled(minus, k), n) == Combined(f, tr, plus, minus, n)
    decreases |tr|
  {
    if |tr| >= n {
      var last := |tr| - 1;
      ScaledPrefix(tr, k, last);
      ScaledPrefix(plus, k, last);
      ScaledPrefix(minus, k, last);
      CombinedScales(f, tr[..last], plus[..last], minus[..last], n, k);
      SmoothScales(tr, k, n);
      SmoothScales(plus, k, n);
      SmoothScales(minus, k, n);
    }
  }

  /** Multiplying range and movements by one factor leaves the index as it is. */
  lemma SeriesFactorDoesNotMatter(tr: seq<real>, plus: seq<real>, minus: seq<real>, n: nat, k: real)
    requires n > 0 && |tr| == |plus| == |minus| && k > 0.0
    ensures Adx(Scaled(tr, k), Scaled(plus, k), Scaled(minus, k), n) == Adx(tr, plus, minus, n)
  {
    forall t, p, m ensures Dx(Times(k, t), Times(k, p), Times(k, m)) == Dx(t, p, m) {
      DxScales(t, p, m, k);
    }
    CombinedScales(Dx, tr, plus, minus, n, k);
  }

  // ---------------------------------------------------------------- from bars

  datatype Bar = Bar(high: real, low: real, close: real)

  function Max(a: real, b: real): real {
    if a > b then a else b
  }

  /** On the first bar the previous close is the bar's own. */
  function TrueRange(bar: Bar, prev: Option<Bar>): real {
    var prevClose := if prev.Some? then prev.value.close else bar.close;
    Max(bar.high - bar.low, Max(Abs(bar.high - prevClose), Abs(bar.low - prevClose)))
  }

  /** Comparisons with the missing previous bar are unknown, so the first movement is zero. */
  function PlusDm(bar: Bar, prev: Option<Bar>): real {
    if prev.Some? && bar.high - prev.value.high > prev.value.low - bar.low && bar.high - prev.value.high > 0.0
    then bar.high - prev.value.high else 0.0
  }

  function MinusDm(bar: Bar, prev: Option<Bar>): real {
    if prev.Some? && prev.value.low - bar.low > bar.high - prev.value.high && prev.value.low - bar.low > 0.0
    then prev.value.low - bar.low else 0.0
  }

  predicate WellFormed(bar: Bar) {
    bar.low <= bar.close <= bar.high
  }

  /** The inputs of the index are never negative, at most one direction moves, and neither moves further than the
      true range, so that each directional indicator is at most 100. */
  lemma MovementWithinRange(bar: Bar, prev: Option<Bar>)
    requires WellFormed(bar) && (prev.Some? ==> WellFormed(prev.value))
    ensures var tr, plus, minus := TrueRange(bar, prev), PlusDm(bar, prev), MinusDm(bar, prev);
            0.0 <= plus <= tr && 0.0 <= minus <= tr && (plus == 0.0 || minus == 0.0)
  {
  }

  function Prev(bars: seq<Bar>, i: nat): Option<Bar>
    requires i < |bars|
  {
    if i == 0 then None else Some(bars[i - 1])
  }

  function TrueRanges(bars: seq<Bar>): (r: seq<real>)
    ensures |r| == |bars| && forall i {:trigger r[i]} :: 0 <= i < |r| ==> r[i] == TrueRange(bars[i], Prev(bars, i))
  {
    seq(|bars|, i requires 0 <= i < |bars| => TrueRange(bars[i], Prev(bars, i)))
  }

  function PlusDms(bars: seq<Bar>): (r: seq<real>)
    ensures |r| == |bars| && forall i {:trigger r[i]} :: 0 <= i < |r| ==> r[i] == PlusDm(bars[i], Prev(bars, i))
  {
    seq(|bars|, i requires 0 <= i < |bars| => PlusDm(bars[i], Prev(bars, i)))
  }

  function MinusDms(bars: seq<Bar>): (r: seq<real>)
    ensures |r| == |bars| && forall i {:trigger r[i]} :: 0 <= i < |r| ==> r[i] == MinusDm(bars[i], Prev(bars, i))
  {
    seq(|bars|, i requires 0 <= i < |bars| => MinusDm(bars[i], Prev(bars, i)))
  }

  /** The true range of a bar is what the bar and the close before it span; on the first bar the bar alone. */
  lemma TrueRangeSpans(bars: seq<Bar>, i: nat)
    requires i < |bars| && WellFormed(bars[i])
    ensures i == 0 ==> TrueRanges(bars)[i] == bars[i].high - bars[i].low
    ensures i > 0 ==>
              var close := bars[i - 1].close;
              TrueRanges(bars)[i] == (if close > bars[i].high then close else bars[i].high) -
                                     (if close < bars[i].low then close else bars[i].low)
  {
    assert TrueRanges(bars)[i] == TrueRange(bars[i], Prev(bars, i));
  }

  /** Of the new ground above the last high and below the last low, a bar moves by the larger if there is any, on that
      side, and by nothing when both are equal or there was no bar before. */
  lemma MovesTheLargerWay(bars: seq<Bar>, i: nat)
    requires i < |bars|
    ensures i == 0 ==> PlusDms(bars)[i] == 0.0 && MinusDms(bars)[i] == 0.0
    ensures i > 0 ==>
              var plus, minus := PlusDms(bars)[i], MinusDms(bars)[i];
              var up, down := bars[i].high - bars[i - 1].high, bars[i - 1].low - bars[i].low;
              && (up == down ==> plus == 0.0 && minus == 0.0)
              && (up > down ==> minus == 0.0 && plus == if up > 0.0 then up else 0.0)
              && (down > up ==> plus == 0.0 && minus == if down > 0.0 then down else 0.0)
  {
    assert PlusDms(bars)[i] == PlusDm(bars[i], Prev(bars, i)) && MinusDms(bars)[i] == MinusDm(bars[i], Prev(bars, i));
  }

  /** The index of an entity's bars, oldest first. */
  function AdxOfBars(bars: seq<Bar>, n: nat): Option<real>
    requires n > 0
  {
    Adx(TrueRanges(bars), PlusDms(bars), MinusDms(bars), n)
  }

  /** The state has been pushed the three values of each of these bars. */
  ghost predicate Consumed(state: AdxState, bars: seq<Bar>)
    reads state, state.tr, state.plus, state.minus
  {
    && state.Valid()
    && state.tr.pushed == TrueRanges(bars) && state.plus.pushed == PlusDms(bars) && state.minus.pushed == MinusDms(bars)
  }

  /** The last bar is pushed. */
  method PushBar(state: AdxState, bars: seq<Bar>) returns (value: Option<real>)
    requires bars != [] && Consumed(state, bars[..|bars| - 1])
    modifies state, state.tr, state.plus, state.minus
    ensures Consumed(state, bars) && value == AdxOfBars(bars, state.period)
  {
    var bar, prev := bars[|bars| - 1], Prev(bars, |bars| - 1);
    RangesGrow(bars);
    PlusGrow(bars);
    MinusGrow(bars);
    value := state.Push(TrueRange(bar, prev), PlusDm(bar, prev), MinusDm(bar, prev));
  }

  /** The index after each bar. */
  function Indexes(bars: seq<Bar>, n: nat): (r: seq<Option<real>>)
    requires n > 0
    ensures |r| == |bars|
  {
    if bars == [] then [] else Indexes(bars[..|bars| - 1], n) + [AdxOfBars(bars, n)]
  }

  lemma IndexesUpTo(bars: seq<Bar>, i: nat, n: nat)
    requires n > 0 && i < |bars|
    ensures Indexes(bars[..i + 1], n) == Indexes(bars[..i], n) + [AdxOfBars(bars[..i + 1], n)]
    ensures bars[..i + 1][..i] == bars[..i]
  {
    assert bars[..i + 1][..i] == bars[..i];
  }

  /** One entity's rows, pushed one by one. */
  method IndexOverBars(bars: seq<Bar>, period: nat) returns (out: seq<Option<real>>)
    requires period > 0
    ensures out == Indexes(bars, period)
  {
    var state := new AdxState(period);
    out := [];
    for i := 0 to |bars|
      invariant fresh(state) && fresh(state.tr) && fresh(state.plus) && fresh(state.minus)
      invariant state.period == period && Consumed(state, bars[..i])
      invariant out == Indexes(bars[..i], period)
    {
      IndexesUpTo(bars, i, period);
      var value := PushBar(state, bars[..i + 1]);
      out := out + [value];
    }
    assert bars[..|bars|] == bars;
  }

  lemma PrevStays(bars: seq<Bar>, m: nat, i: nat)
    requires i < m <= |bars|
    ensures bars[..m][i] == bars[i] && Prev(bars[..m], i) == Prev(bars, i)
  {
  }

  lemma RangesGrow(bars: seq<Bar>)
    requires bars != []
    ensures var m := |bars| - 1; TrueRanges(bars) == TrueRanges(bars[..m]) + [TrueRange(bars[m], Prev(bars, m))]
  {
    var m := |bars| - 1;
    forall i | 0 <= i < m ensures TrueRanges(bars)[i] == TrueRanges(bars[..m])[i] {
      PrevStays(bars, m, i);
    }
  }

  lemma PlusGrow(bars: seq<Bar>)
    requires bars != []
    ensures var m := |bars| - 1; PlusDms(bars) == PlusDms(bars[..m]) + [PlusDm(bars[m], Prev(bars, m))]
  {
    var m := |bars| - 1;
    forall i | 0 <= i < m ensures PlusDms(bars)[i] == PlusDms(bars[..m])[i] {
      PrevStays(bars, m, i);
    }
  }

  lemma MinusGrow(bars: seq<Bar>)
    requires bars != []
    ensures var m := |bars| - 1; MinusDms(bars) == MinusDms(bars[..m]) + [MinusDm(bars[m], Prev(bars, m))]
  {
    var m := |bars| - 1;
    forall i | 0 <= i < m ensures MinusDms(bars)[i] == MinusDms(bars[..m])[i] {
      PrevStays(bars, m, i);
    }
  }

  /** Whatever the prices, there is a value from bar `2n - 1` on and it lies between 0 and 100. */
  lemma AdxOfBarsWithin(bars: seq<Bar>, n: nat)
    requires n > 0
    ensures AdxOfBars(bars, n).Some? <==> |bars| >= 2 * n - 1
    ensures AdxOfBars(bars, n).Some? ==> 0.0 <= AdxOfBars(bars, n).value <= 100.0
  {
    FirstValue(TrueRanges(bars), PlusDms(bars), MinusDms(bars), n);
    if |bars| >= 2 * n - 1 {
      AdxWithin(TrueRanges(bars), PlusDms(bars), MinusDms(bars), n);
    }
  }

  // ---------------------------------------------------------------- adjusted prices

  function ScaledBar(bar: Bar, k: real): Bar {
    Bar(Times(k, bar.high), Times(k, bar.low), Times(k, bar.close))
  }

  function ScaledBars(bars: seq<Bar>, k: real): (r: seq<Bar>)
    ensures |r| == |bars| && forall i {:trigger r[i]} :: 0 <= i < |r| ==> r[i] == ScaledBar(bars[i], k)
  {
    seq(|bars|, i requires 0 <= i < |bars| => ScaledBar(bars[i], k))
  }

  function ScaledPrev(prev: Option<Bar>, k: real): Option<Bar> {
    if prev.Some? then Some(ScaledBar(prev.value, k)) else None
  }

  lemma TimesOrder(k: real, a: real, b: real)
    requires k > 0.0
    ensures Times(k, a) > Times(k, b) <==> a > b
    ensures Times(k, 0.0) == 0.0
  {
    if a > b {
      assert k * (a - b) > 0.0;
    } else {
      assert k * (b - a) >= 0.0;
    }
    TimesSum(k, a, b);
  }

  lemma TimesAbs(k: real, x: real)
    requires k > 0.0
    ensures Abs(Times(k, x)) == Times(k, Abs(x))
  {
    TimesOrder(k, 0.0, x);
    TimesSum(k, 0.0, x);
  }

  lemma TimesMax(k: real, a: real, b: real)
    requires k > 0.0
    ensures Max(Times(k, a), Times(k, b)) == Times(k, Max(a, b))
  {
    TimesOrder(k, a, b);
  }

  lemma TrueRangeScales(bar: Bar, prev: Option<Bar>, k: real)
    requires k > 0.0
    ensures TrueRange(ScaledBar(bar, k), ScaledPrev(prev, k)) == Times(k, TrueRange(bar, prev))
  {
    var close := if prev.Some? then prev.value.close else bar.close;
    var up, down := Abs(bar.high - close), Abs(bar.low - close);
    TimesSum(k, bar.high, bar.low);
    TimesSum(k, bar.high, close);
    TimesSum(k, bar.low, close);
    TimesAbs(k, bar.high - close);
    TimesAbs(k, bar.low - close);
    TimesMax(k, up, down);
    TimesMax(k, bar.high - bar.low, Max(up, down));
  }

  lemma MovementScales(bar: Bar, prev: Option<Bar>, k: real)
    requires k > 0.0
    ensures PlusDm(ScaledBar(bar, k), ScaledPrev(prev, k)) == Times(k, PlusDm(bar, prev))
    ensures MinusDm(ScaledBar(bar, k), ScaledPrev(prev, k)) == Times(k, MinusDm(bar, prev))
  {
    TimesOrder(k, 0.0, 0.0);
    if prev.Some? {
      var up, down := bar.high - prev.value.high, prev.value.low - bar.low;
      TimesSum(k, bar.high, prev.value.high);
      TimesSum(k, prev.value.low, bar.low);
      TimesOrder(k, up, down);
      TimesOrder(k, down, up);
      TimesOrder(k, up, 0.0);
      TimesOrder(k, down, 0.0);
    }
  }

  lemma BarsScale(bars: seq<Bar>, k: real)
    requires k > 0.0
    ensures TrueRanges(ScaledBars(bars, k)) == Scaled(TrueRanges(bars), k)
    ensures PlusDms(ScaledBars(bars, k)) == Scaled(PlusDms(bars), k)
    ensures MinusDms(ScaledBars(bars, k)) == Scaled(MinusDms(bars), k)
  {
    var scaled := ScaledBars(bars, k);
    forall i | 0 <= i < |bars|
      ensures TrueRanges(scaled)[i] == Scaled(TrueRanges(bars), k)[i]
      ensures PlusDms(scaled)[i] == Scaled(PlusDms(bars), k)[i]
      ensures MinusDms(scaled)[i] == Scaled(MinusDms(bars), k)[i]
    {
      assert Prev(scaled, i) == ScaledPrev(Prev(bars, i), k);
      TrueRangeScales(bars[i], Prev(bars, i), k);
      MovementScales(bars[i], Prev(bars, i), k);
    }
  }

  /** Multiplying all prices by one factor leaves the index as it is: back-adjusted prices give the index of the
      prices they were adjusted from, as long as the factor is the same for all bars. */
  lemma FactorDoesNotMatter(bars: seq<Bar>, n: nat, k: real)
    requires n > 0 && k > 0.0
    ensures AdxOfBars(ScaledBars(bars, k), n) == AdxOfBars(bars, n)
  {
    BarsScale(bars, k);
    SeriesFactorDoesNotMatter(TrueRanges(bars), PlusDms(bars), MinusDms(bars), n, k);
  }

  // ---------------------------------------------------------------- indicators

  ghost predicate Below(xs: seq<real>, ys: seq<real>) {
    |xs| == |ys| && forall i :: 0 <= i < |xs| ==> xs[i] <= ys[i]
  }

  lemma {:induction false} SumMonotone(xs: seq<real>, ys: seq<real>)
    requires Below(xs, ys)
    ensures Sum(xs) <= Sum(ys)
  {
    if xs != [] {
      SumMonotone(xs[..|xs| - 1], ys[..|ys| - 1]);
    }
  }

  lemma DividesMonotone(a: real, b: real, n: real)
    requires a <= b && n > 0.0
    ensures a / n <= b / n
  {
    assert (a / n) * n == a && (b / n) * n == b;
  }

  lemma {:induction false} SmoothMonotone(xs: seq<real>, ys: seq<real>, n: nat)
    requires n > 0 && Below(xs, ys) && |xs| >= n
    ensures Smooth(xs, n).value <= Smooth(ys, n).value
  {
    if |xs| == n {
      SumMonotone(xs, ys);
      DividesMonotone(Sum(xs), Sum(ys), n as real);
    } else {
      var last := |xs| - 1;
      SmoothMonotone(xs[..last], ys[..last], n);
      NextMonotone(xs[..last], ys[..last], xs[last], ys[last], n);
      assert xs == xs[..last] + [xs[last]] && ys == ys[..last] + [ys[last]];
    }
  }

  lemma NextMonotone(xs: seq<real>, ys: seq<real>, x: real, y: real, n: nat)
    requires n > 0 && |xs| == |ys| >= n && x <= y && Smooth(xs, n).value <= Smooth(ys, n).value
    ensures Smooth(xs + [x], n).value <= Smooth(ys + [y], n).value
  {
    SmoothStep(xs, x, n);
    SmoothStep(ys, y, n);
    StepMonotone(Smooth(xs, n).value, Smooth(ys, n).value, x, y, n);
  }

  lemma StepMonotone(s: real, t: real, x: real, y: real, n: nat)
    requires s <= t && x <= y && n > 0
    ensures Toward(s, x, n) <= Toward(t, y, n)
  {
    var k := n as real;
    Weighted(s, x, k);
    Weighted(t, y, k);
    Product(k - 1.0, s, t);
    assert s * (k - 1.0) <= t * (k - 1.0);
    DividesMonotone(s * (k - 1.0) + x, t * (k - 1.0) + y, k);
  }

  /** A step is a weighted mean of the old value and the new one. */
  lemma Weighted(s: real, x: real, k: real)
    requires k > 0.0
    ensures s + (x - s) / k == (s * (k - 1.0) + x) / k
  {
    var q := (x - s) / k;
    assert q * k == x - s;
    assert (s + q) * k == s * k + q * k;
    assert s * (k - 1.0) == s * k - s;
    assert (s + q) * k == s * (k - 1.0) + x;
  }

  lemma Product(k: real, s: real, t: real)
    requires k >= 0.0 && s <= t
    ensures s * k <= t * k
  {
  }

  /** So a directional indicator never exceeds 100. */
  lemma IndicatorWithin(tr: seq<real>, dm: seq<real>, n: nat)
    requires n > 0 && |tr| == |dm| >= n && Below(dm, tr) && NonNegative(dm) && Smooth(tr, n).value > 0.0
    ensures 0.0 <= 100.0 * Smooth(dm, n).value / Smooth(tr, n).value <= 100.0
  {
    SmoothMonotone(dm, tr, n);
    SmoothNonNegative(dm, n);
    Share(Smooth(dm, n).value, Smooth(tr, n).value);
  }
}
