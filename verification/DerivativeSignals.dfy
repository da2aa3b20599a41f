/** The derivative of a sampled signal: least-squares regression over the newest samples, in exact arithmetic. */
module DerivativeSignals {
  import opened Common
  import opened CircularBuffers

  datatype Sample = Sample(time: real, sample: real)

  // NaN, or a number.
  datatype Slope = NotANumber | Number(value: real)

  // Named, so that a proof can treat a product as a whole.
  function Times(x: real, y: real): real { x * y }

  // ----- sums over a window, relative to its first sample

  function Time(w: seq<Sample>, i: nat): real
    requires i < |w|
  {
    w[i].time - w[0].time
  }

  function Sig(w: seq<Sample>, i: nat): real
    requires i < |w|
  {
    w[i].sample - w[0].sample
  }

  function SumXY(w: seq<Sample>, k: nat): real
    requires k <= |w|
  {
    if k == 0 then 0.0 else SumXY(w, k - 1) + Times(Time(w, k - 1), Sig(w, k - 1))
  }

  function SumX(w: seq<Sample>, k: nat): real
    requires k <= |w|
  {
    if k == 0 then 0.0 else SumX(w, k - 1) + Time(w, k - 1)
  }

  function SumY(w: seq<Sample>, k: nat): real
    requires k <= |w|
  {
    if k == 0 then 0.0 else SumY(w, k - 1) + Sig(w, k - 1)
  }

  function SumXX(w: seq<Sample>, k: nat): real
    requires k <= |w|
  {
    if k == 0 then 0.0 else SumXX(w, k - 1) + Times(Time(w, k - 1), Time(w, k - 1))
  }

  function SsXX(w: seq<Sample>): real
    requires |w| > 0
  {
    SumXX(w, |w|) - Times(Times(SumX(w, |w|), SumX(w, |w|)), 1.0 / |w| as real)
  }

  function SsXY(w: seq<Sample>): real
    requires |w| > 0
  {
    SumXY(w, |w|) - Times(Times(SumX(w, |w|), SumY(w, |w|)), 1.0 / |w| as real)
  }

  /** The slope of the regression line, when there are two samples and a denominator to divide by. */
  function SlopeOf(w: seq<Sample>): Slope {
    if |w| < 2 || SsXX(w) == 0.0 then NotANumber else Number(SsXY(w) / SsXX(w))
  }

  // ----- the denominator

  /** The times of a window are all equal. */
  predicate SameTimes(w: seq<Sample>) {
    forall i :: 0 <= i < |w| ==> w[i].time == w[0].time
  }

  predicate AllAt(w: seq<Sample>, k: nat, x: real)
    requires k <= |w|
  {
    forall i :: 0 <= i < k ==> Time(w, i) == x
  }

  /** The squared distances of the first `k` times from one time. */
  function Spread(w: seq<Sample>, k: nat, x: real): real
    requires k <= |w|
  {
    if k == 0 then 0.0 else Spread(w, k - 1, x) + Times(Time(w, k - 1) - x, Time(w, k - 1) - x)
  }

  lemma {:induction false} SpreadExpands(w: seq<Sample>, k: nat, x: real)
    requires k <= |w|
    ensures Spread(w, k, x) == SumXX(w, k) - 2.0 * Times(x, SumX(w, k)) + Times(k as real, Times(x, x))
  {
    hide Time, Times;
    if k == 0 {
      TimesZero(x, Times(x, x));
    } else {
      SpreadExpands(w, k - 1, x);
      ExpandOne(Time(w, k - 1), x, SumX(w, k - 1), (k - 1) as real);
    }
  }

  lemma TimesZero(x: real, y: real)
    ensures Times(x, 0.0) == 0.0 == Times(0.0, y)
  {
  }

  lemma ExpandOne(t: real, x: real, b: real, n: real)
    ensures Times(t - x, t - x)
         == Times(t, t) - 2.0 * (Times(x, b + t) - Times(x, b)) + Times(n + 1.0, Times(x, x)) - Times(n, Times(x, x))
  {
  }

  lemma SquareSign(d: real)
    ensures d != 0.0 ==> Times(d, d) > 0.0
    ensures d == 0.0 ==> Times(d, d) == 0.0
  {
    if d > 0.0 {
      SameSigns(d, d);
    } else if d < 0.0 {
      SameSigns(d, d);
    }
  }

  lemma SameSigns(x: real, y: real)
    requires (x > 0.0 && y > 0.0) || (x < 0.0 && y < 0.0)
    ensures Times(x, y) > 0.0
  {
  }

  lemma {:induction false} SpreadSign(w: seq<Sample>, k: nat, x: real)
    requires k <= |w|
    ensures if AllAt(w, k, x) then Spread(w, k, x) == 0.0 else Spread(w, k, x) > 0.0
  {
    hide Time, Times;
    if k > 0 {
      SpreadSign(w, k - 1, x);
      SquareSign(Time(w, k - 1) - x);
    }
  }

  /** The denominator times the number of samples, for the first `k` samples. */
  function Scaled(w: seq<Sample>, k: nat): real
    requires k <= |w|
  {
    Times(k as real, SumXX(w, k)) - Times(SumX(w, k), SumX(w, k))
  }

  /** Each further sample adds its squared distances from all earlier ones. */
  lemma ScaledNext(w: seq<Sample>, k: nat)
    requires k < |w|
    ensures Scaled(w, k + 1) == Scaled(w, k) + Spread(w, k, Time(w, k))
  {
    hide Time, Spread, Times;
    SpreadExpands(w, k, Time(w, k));
    ScaleOne(Time(w, k), SumXX(w, k), SumX(w, k), k as real);
  }

  lemma ScaleOne(t: real, d: real, b: real, n: real)
    ensures Times(n + 1.0, d + Times(t, t)) - Times(b + t, b + t)
              == Times(n, d) - Times(b, b) + (d - 2.0 * Times(t, b) + Times(n, Times(t, t)))
  {
  }

  lemma {:induction false} ScaledSign(w: seq<Sample>, k: nat)
    requires 0 < k <= |w|
    ensures if AllAt(w, k, 0.0) then Scaled(w, k) == 0.0 else Scaled(w, k) > 0.0
  {
    hide Scaled, Spread, Time;
    ScaledOne(w);
    if k > 1 {
      ScaledSign(w, k - 1);
      ScaledNext(w, k - 1);
      SpreadSign(w, k - 1, Time(w, k - 1));
      assert Time(w, 0) == 0.0;
    }
  }

  lemma ScaledOne(w: seq<Sample>)
    requires |w| > 0
    ensures Scaled(w, 1) == 0.0 && Time(w, 0) == 0.0
  {
    assert SumX(w, 1) == SumX(w, 0) + Time(w, 0) && SumXX(w, 1) == SumXX(w, 0) + Times(Time(w, 0), Time(w, 0));
  }

  /** The denominator is never negative, and it is zero exactly when all times are equal. */
  lemma DenominatorSign(w: seq<Sample>)
    requires |w| > 0
    ensures if SameTimes(w) then SsXX(w) == 0.0 else SsXX(w) > 0.0
  {
    hide SumX, SumXX, Scaled, SsXX, Times;
    ScaledSign(w, |w|);
    ScaledIsMultiple(w);
    assert forall i :: 0 <= i < |w| ==> (Time(w, i) == 0.0 <==> w[i].time == w[0].time);
    SignOfFactor(|w| as real, SsXX(w), Scaled(w, |w|));
  }

  lemma ScaledIsMultiple(w: seq<Sample>)
    requires |w| > 0
    ensures Times(|w| as real, SsXX(w)) == Scaled(w, |w|)
  {
    hide SumX, SumXX, Times;
    MultiplyOut(|w| as real, SumXX(w, |w|), Times(SumX(w, |w|), SumX(w, |w|)));
  }

  lemma MultiplyOut(n: real, d: real, b: real)
    requires n > 0.0
    ensures Times(n, d - Times(b, 1.0 / n)) == Times(n, d) - b
  {
    assert n * (b * (1.0 / n)) == b;
  }

  lemma SignOfFactor(n: real, x: real, product: real)
    requires n > 0.0 && Times(n, x) == product
    ensures (product == 0.0 ==> x == 0.0) && (product > 0.0 ==> x > 0.0)
  {
  }

  // ----- what the slope means

  predicate OnLine(w: seq<Sample>, a: real, b: real) {
    forall i :: 0 <= i < |w| ==> w[i].sample == a * w[i].time + b
  }

  lemma {:induction false} SumsOnLine(w: seq<Sample>, a: real, b: real, k: nat)
    requires k <= |w| && OnLine(w, a, b)
    ensures SumXY(w, k) == Times(a, SumXX(w, k)) && SumY(w, k) == Times(a, SumX(w, k))
  {
    hide Time, Sig, OnLine, Times;
    if k == 0 {
      TimesZero(a, a);
    } else {
      SumsOnLine(w, a, b, k - 1);
      SigOnLine(w, a, b, k - 1);
      LineStep(a, Time(w, k - 1), SumXX(w, k - 1), SumX(w, k - 1));
    }
  }

  lemma LineStep(a: real, t: real, d: real, b: real)
    ensures Times(t, Times(a, t)) == Times(a, d + Times(t, t)) - Times(a, d)
    ensures Times(a, b + t) == Times(a, b) + Times(a, t)
  {
  }

  lemma SigOnLine(w: seq<Sample>, a: real, b: real, i: nat)
    requires i < |w| && OnLine(w, a, b)
    ensures Sig(w, i) == Times(a, Time(w, i))
  {
    DistributeMinus(a, w[i].time, w[0].time);
  }

  lemma DistributeMinus(a: real, x: real, y: real)
    ensures a * (x - y) == a * x - a * y
  {
  }

  /** On samples of a straight line the slope is exact, as soon as the times are not all equal. */
  lemma SlopeOfLine(w: seq<Sample>, a: real, b: real)
    requires |w| > 0 && !SameTimes(w) && OnLine(w, a, b)
    ensures SlopeOf(w) == Number(a)
  {
    hide SumX, SumXX, SumXY, SumY, OnLine, SsXX, SsXY, Times;
    DenominatorSign(w);
    SumsOnLine(w, a, b, |w|);
    RatioOnLine(w, a);
    Quotient(a, SsXX(w), SsXY(w));
  }

  lemma RatioOnLine(w: seq<Sample>, a: real)
    requires |w| > 0 && SumXY(w, |w|) == Times(a, SumXX(w, |w|)) && SumY(w, |w|) == Times(a, SumX(w, |w|))
    ensures SsXY(w) == Times(a, SsXX(w))
  {
    hide SumX, SumXX, SumXY, SumY, Times;
    LineRatio(a, SumX(w, |w|), SumXX(w, |w|), 1.0 / |w| as real);
  }

  lemma LineRatio(a: real, x: real, d: real, e: real)
    ensures Times(a, d) - Times(Times(x, Times(a, x)), e) == Times(a, d - Times(Times(x, x), e))
  {
  }

  lemma Quotient(a: real, x: real, y: real)
    requires x != 0.0 && y == Times(a, x)
    ensures y / x == a
  {
  }

  // ----- the slope is that of the best line

  /** The squared error of the line with slope `m` and intercept `c` over the first `k` samples. */
  function SquaredError(w: seq<Sample>, m: real, c: real, k: nat): real
    requires k <= |w|
  {
    if k == 0 then 0.0 else SquaredError(w, m, c, k - 1) + Times(Residual(w, m, c, k - 1), Residual(w, m, c, k - 1))
  }

  /** How far a sample lies above a line, both measured from the first sample. */
  function Residual(w: seq<Sample>, m: real, c: real, i: nat): real
    requires i < |w|
  {
    Sig(w, i) - Times(m, Time(w, i)) - c
  }

  /** The sums of the residuals, and of the residuals times the times. */
  function Balance(w: seq<Sample>, m: real, c: real, k: nat): real
    requires k <= |w|
  {
    SumY(w, k) - Times(m, SumX(w, k)) - Times(k as real, c)
  }

  function Moment(w: seq<Sample>, m: real, c: real, k: nat): real
    requires k <= |w|
  {
    SumXY(w, k) - Times(m, SumXX(w, k)) - Times(c, SumX(w, k))
  }

  /** The squared differences of two lines at the sample times. */
  function SquaredGap(w: seq<Sample>, dm: real, dc: real, k: nat): real
    requires k <= |w|
  {
    if k == 0 then 0.0
    else SquaredGap(w, dm, dc, k - 1) + Times(Times(dm, Time(w, k - 1)) + dc, Times(dm, Time(w, k - 1)) + dc)
  }

  /** Changing a line changes its error by the squared gap, less what the balances contribute. */
  lemma {:induction false} ErrorSplits(w: seq<Sample>, m: real, c: real, dm: real, dc: real, k: nat)
    requires k <= |w|
    ensures SquaredError(w, m + dm, c + dc, k)
         == SquaredError(w, m, c, k) - 2.0 * (Times(dm, Moment(w, m, c, k)) + Times(dc, Balance(w, m, c, k)))
           + SquaredGap(w, dm, dc, k)
  {
    hide Time, Sig, Times, Moment, Balance, Residual;
    if k == 0 {
      NoError(w, m, c, dm, dc);
    } else {
      ErrorSplits(w, m, c, dm, dc, k - 1);
      NextBalance(w, m, c, k - 1);
      ShiftedResidual(w, m, c, dm, dc, k - 1);
      SplitOne(Residual(w, m, c, k - 1), Time(w, k - 1), dm, dc, Moment(w, m, c, k - 1), Balance(w, m, c, k - 1));
    }
  }

  lemma NoError(w: seq<Sample>, m: real, c: real, dm: real, dc: real)
    ensures Times(dm, Moment(w, m, c, 0)) == 0.0 && Times(dc, Balance(w, m, c, 0)) == 0.0
  {
  }

  lemma NextBalance(w: seq<Sample>, m: real, c: real, k: nat)
    requires k < |w|
    ensures Balance(w, m, c, k + 1) == Balance(w, m, c, k) + Residual(w, m, c, k)
    ensures Moment(w, m, c, k + 1) == Moment(w, m, c, k) + Times(Time(w, k), Residual(w, m, c, k))
  {
    hide Time, Sig, Times;
    MomentOne(m, c, Time(w, k), Sig(w, k), SumX(w, k), SumXX(w, k), k as real);
  }

  lemma MomentOne(m: real, c: real, t: real, s: real, b: real, d: real, n: real)
    ensures Times(m, b + t) == Times(m, b) + Times(m, t) && Times(n + 1.0, c) == Times(n, c) + c
    ensures Times(t, s - Times(m, t) - c)
         == Times(t, s) - (Times(m, d + Times(t, t)) - Times(m, d)) - (Times(c, b + t) - Times(c, b))
  {
  }

  lemma ShiftedResidual(w: seq<Sample>, m: real, c: real, dm: real, dc: real, i: nat)
    requires i < |w|
    ensures Residual(w, m + dm, c + dc, i) == Residual(w, m, c, i) - (Times(dm, Time(w, i)) + dc)
  {
    hide Time, Sig;
  }

  lemma SplitOne(r: real, t: real, dm: real, dc: real, mo: real, ba: real)
    ensures var g := Times(dm, t) + dc;
            Times(r - g, r - g)
              == Times(r, r) - 2.0 * (Times(dm, mo + Times(t, r)) - Times(dm, mo) + Times(dc, ba + r) - Times(dc, ba))
                + Times(g, g)
  {
    var g := Times(dm, t) + dc;
    assert (r - g) * (r - g) == r * r - 2.0 * (r * g) + g * g;
    assert dm * (mo + t * r) == dm * mo + dm * (t * r) && dc * (ba + r) == dc * ba + dc * r;
    assert r * g == r * (dm * t) + r * dc && r * (dm * t) == dm * (t * r);
  }

  lemma {:induction false} GapSign(w: seq<Sample>, dm: real, dc: real, k: nat)
    requires k <= |w|
    ensures SquaredGap(w, dm, dc, k) >= 0.0
  {
    hide Time, Times;
    if k > 0 {
      GapSign(w, dm, dc, k - 1);
      SquareSign(Times(dm, Time(w, k - 1)) + dc);
    }
  }

  /** The line with the computed slope, through the centre of the samples, has the least squared error of all
      lines. */
  lemma SlopeIsLeastSquares(w: seq<Sample>, m: real, c: real)
    requires |w| > 1 && !SameTimes(w)
    ensures SlopeOf(w).Number?
    ensures SquaredError(w, SlopeOf(w).value, Centre(w), |w|) <= SquaredError(w, m, c, |w|)
  {
    hide SumX, SumXX, SumXY, SumY, SsXX, SsXY, Times, Moment, Balance, Centre, SquaredError, SameTimes;
    DenominatorSign(w);
    var s, h := SlopeOf(w).value, Centre(w);
    SlopeBalances(w);
    ErrorSplits(w, s, h, m - s, c - h, |w|);
    GapSign(w, m - s, c - h, |w|);
    TimesZero(m - s, 0.0);
    TimesZero(c - h, 0.0);
  }

  /** The intercept that goes with the computed slope. */
  function Centre(w: seq<Sample>): real
    requires |w| > 1 && SlopeOf(w).Number?
  {
    Times(SumY(w, |w|) - Times(SlopeOf(w).value, SumX(w, |w|)), 1.0 / |w| as real)
  }

  lemma SlopeBalances(w: seq<Sample>)
    requires |w| > 1 && SlopeOf(w).Number?
    ensures Balance(w, SlopeOf(w).value, Centre(w), |w|) == 0.0
    ensures Moment(w, SlopeOf(w).value, Centre(w), |w|) == 0.0
  {
    hide SumX, SumXX, SumXY, SumY, Times;
    var s, n := SlopeOf(w).value, |w| as real;
    TimesQuotient(SsXX(w), SsXY(w), s);
    CentreOne(n, SumY(w, |w|) - Times(s, SumX(w, |w|)));
    MomentZero(SumX(w, |w|), SumY(w, |w|), SumXX(w, |w|), SumXY(w, |w|), s, 1.0 / n);
  }

  lemma TimesQuotient(x: real, y: real, s: real)
    requires x != 0.0 && s == y / x
    ensures Times(s, x) == y
  {
  }

  lemma CentreOne(n: real, v: real)
    requires n > 0.0
    ensures Times(n, Times(v, 1.0 / n)) == v
  {
  }

  lemma MomentZero(x: real, y: real, xx: real, xy: real, s: real, e: real)
    requires Times(s, xx - Times(Times(x, x), e)) == xy - Times(Times(x, y), e)
    ensures xy - Times(s, xx) - Times(Times(y - Times(s, x), e), x) == 0.0
  {
  }

  /** When all times are equal the numerator is zero too, so the quotient is not a number. */
  lemma ZeroOverZero(w: seq<Sample>)
    requires |w| > 0 && SameTimes(w)
    ensures SsXX(w) == 0.0 && SsXY(w) == 0.0
  {
    hide SumX, SumXX, SumXY, SumY, Times;
    DenominatorSign(w);
    NoSumsWithoutTime(w, |w|);
    TimesZero(0.0, SumY(w, |w|));
    TimesZero(0.0, 1.0 / |w| as real);
  }

  lemma {:induction false} NoSumsWithoutTime(w: seq<Sample>, k: nat)
    requires k <= |w| && SameTimes(w)
    ensures SumX(w, k) == 0.0 && SumXY(w, k) == 0.0
  {
    hide Times;
    if k > 0 {
      NoSumsWithoutTime(w, k - 1);
      TimesZero(0.0, Sig(w, k - 1));
    }
  }

  // ----- the signal

  function Newest(w: seq<Sample>, k: nat): seq<Sample>
    requires k <= |w|
  {
    w[|w| - k..]
  }

  lemma NewestOfAll(w: seq<Sample>)
    ensures Newest(w, |w|) == w
  {
  }

  /** Inserts a sample and fits a line to the newest samples, as many as `numFit` says. */
  method ComputeNext(history: CircularBuffer<Sample>, numFit: nat, time: real, signal: real)
    returns (fit: nat, r: Result<Slope>)
    requires history.Valid() && numFit <= |history.Contents()|
    modifies history, history.buffer
    ensures history.Valid() && history.buffer == old(history.buffer)
    ensures history.maxSize == 0 ==>
              r == Failure(RuntimeError) && fit == numFit && history.Contents() == old(history.Contents())
    ensures history.maxSize > 0 ==>
              && history.Contents() == Last(old(history.Contents()) + [Sample(time, signal)], history.maxSize)
              && fit == (if numFit < history.maxSize then numFit + 1 else numFit) <= |history.Contents()|
              && r == Success(SlopeOf(Newest(history.Contents(), fit)))
  {
    hide SlopeOf, SumX, SumXX, SumXY, SumY, Last, View, SsXX, SsXY;
    fit := numFit;
    var o := InsertSample(history, Sample(time, signal));
    if o.Fail? {
      return fit, Failure(o.error);
    }
    if fit < history.maxSize {
      fit := fit + 1;
    }
    ghost var w := Newest(history.Contents(), fit);
    var result := NotANumber;
    if fit >= 2 {
      var bufSize := history.Size();
      result := FitLine(history, bufSize - fit, bufSize, w);
    } else {
      TooFew(w);
    }
    return fit, Success(result);
  }

  method InsertSample(history: CircularBuffer<Sample>, s: Sample) returns (o: Outcome)
    requires history.Valid()
    modifies history, history.buffer
    ensures history.Valid() && history.buffer == old(history.buffer)
    ensures o == if history.maxSize < 1 then Fail(RuntimeError) else Pass
    ensures history.Contents()
         == if o.Pass? then Last(old(history.Contents()) + [s], history.maxSize) else old(history.Contents())
  {
    hide Last, View;
    LastAppend(history.sinceClear, s, history.maxSize);
    o := history.Insert(s);
  }

  lemma TooFew(w: seq<Sample>)
    requires |w| < 2
    ensures SlopeOf(w) == NotANumber
  {
  }

  method FitLine(history: CircularBuffer<Sample>, first: nat, bufSize: nat, ghost w: seq<Sample>)
    returns (result: Slope)
    requires history.Valid() && first + 2 <= bufSize == |history.Contents()|
    requires w == Newest(history.Contents(), bufSize - first)
    ensures result == SlopeOf(w)
  {
    hide Times, SumX, SumXX, SumXY, SumY;
    var a, b, c, d := 0.0, 0.0, 0.0, 0.0;
    var e := 1.0 / (bufSize - first) as real;
    var oldest := history.Value(first);
    var time0, sig0 := oldest.value.time, oldest.value.sample;
    NoSums(w);
    for bufOff := first to bufSize
      invariant a == SumXY(w, bufOff - first) && b == SumX(w, bufOff - first)
      invariant c == SumY(w, bufOff - first) && d == SumXX(w, bufOff - first)
    {
      var s := history.Value(bufOff);
      NextSums(w, bufOff - first);
      var time, sig := s.value.time - time0, s.value.sample - sig0;
      a := a + Times(time, sig);
      b := b + time;
      c := c + sig;
      d := d + Times(time, time);
    }
    var ssxx, ssxy := d - Times(Times(b, b), e), a - Times(Times(b, c), e);
    result := if ssxx == 0.0 then NotANumber else Number(ssxy / ssxx);
  }

  lemma NoSums(w: seq<Sample>)
    ensures SumXY(w, 0) == SumX(w, 0) == SumY(w, 0) == SumXX(w, 0) == 0.0
  {
  }

  lemma NextSums(w: seq<Sample>, k: nat)
    requires k < |w|
    ensures SumXY(w, k + 1) == SumXY(w, k) + Times(Time(w, k), Sig(w, k))
    ensures SumX(w, k + 1) == SumX(w, k) + Time(w, k) && SumY(w, k + 1) == SumY(w, k) + Sig(w, k)
    ensures SumXX(w, k + 1) == SumXX(w, k) + Times(Time(w, k), Time(w, k))
  {
  }

  /** Consecutive samples have different times. */
  predicate TimesMove(w: seq<Sample>) {
    forall i :: 0 < i < |w| ==> w[i].time != w[i - 1].time
  }

  lemma MovingTimesDiffer(w: seq<Sample>)
    requires |w| > 1 && TimesMove(w)
    ensures SlopeOf(w).Number?
  {
    assert w[1].time != w[0].time;
    DenominatorSign(w);
    hide SumX, SumXX, SsXX;
  }

  lemma AppendMoves(w: seq<Sample>, s: Sample, k: nat)
    requires TimesMove(w) && (w == [] || w[|w| - 1].time != s.time)
    ensures TimesMove(Last(w + [s], k))
  {
    var v := w + [s];
    assert forall i :: 0 < i < |v| ==> v[i].time != v[i - 1].time;
  }

  class DerivativeSignal {
    const history: CircularBuffer<Sample>
    var numFit: nat
    var isBatchReady: bool
    var lastResult: Slope

    /** The whole history is fitted, and its times move on from sample to sample. */
    ghost predicate Valid()
      reads this, history, history.buffer
    {
      && history.Valid() && numFit == |history.Contents()| && TimesMove(history.Contents())
      && lastResult == SlopeOf(history.Contents())
    }

    constructor (numSampleHistory: nat)
      ensures Valid() && fresh(history) && fresh(history.buffer)
      ensures !isBatchReady && history.maxSize == numSampleHistory && history.Contents() == []
    {
      history := new CircularBuffer<Sample>(numSampleHistory);
      numFit, isBatchReady, lastResult := 0, false, NotANumber;
    }

    method SetupBatch()
      requires Valid()
      modifies this`isBatchReady
      ensures Valid() && isBatchReady
    {
      isBatchReady := true;
    }

    /** Fits again only when the time has moved; so from the second sample on the result is a number. */
    method SampleSignal(time: real, signal: real) returns (r: Result<Slope>)
      requires Valid()
      modifies this, history, history.buffer
      ensures Valid() && history.buffer == old(history.buffer) && isBatchReady == old(isBatchReady)
      ensures !isBatchReady || history.maxSize == 0 ==>
                r == Failure(RuntimeError) && history.Contents() == old(history.Contents())
      ensures isBatchReady && history.maxSize > 0 ==>
                && r == Success(SlopeOf(history.Contents()))
                && history.Contents() == Remembered(old(history.Contents()), Sample(time, signal), history.maxSize)
                && (|history.Contents()| > 1 ==> r.value.Number?)
    {
      if !isBatchReady {
        return Failure(RuntimeError);
      }
      hide SlopeOf, Last, View, TimesMove;
      var historySize := history.Size();
      var moved := true;
      if historySize != 0 {
        var newest := history.Value(historySize - 1);
        moved := time != newest.value.time;
      }
      if moved {
        r := Refit(time, signal);
      } else {
        r := Success(lastResult);
      }
      if |history.Contents()| > 1 {
        MovingTimesDiffer(history.Contents());
      }
    }

    method Refit(time: real, signal: real) returns (r: Result<Slope>)
      requires Valid() && (history.Contents() == [] || history.Contents()[|history.Contents()| - 1].time != time)
      modifies this`numFit, this`lastResult, history, history.buffer
      ensures Valid() && history.buffer == old(history.buffer)
      ensures history.maxSize == 0 ==> r == Failure(RuntimeError) && history.Contents() == old(history.Contents())
      ensures history.maxSize > 0 ==> r == Success(SlopeOf(history.Contents()))
      ensures history.maxSize > 0 ==>
                history.Contents() == Last(old(history.Contents()) + [Sample(time, signal)], history.maxSize)
    {
      hide SlopeOf, Last, View, TimesMove, Newest;
      AppendMoves(history.Contents(), Sample(time, signal), history.maxSize);
      var fit, result := ComputeNext(history, numFit, time, signal);
      if result.Failure? {
        return Failure(result.error);
      }
      NewestOfAll(history.Contents());
      numFit, lastResult := fit, result.value;
      return Success(lastResult);
    }
  }

  /** The history after one call: a sample at the newest time is not taken. */
  function Remembered(w: seq<Sample>, s: Sample, k: nat): seq<Sample> {
    if w != [] && w[|w| - 1].time == s.time then w else Last(w + [s], k)
  }

  // ----- whole runs

  /** The samples whose time is not that of the call before. */
  function Moved(calls: seq<Sample>): seq<Sample> {
    if calls == [] then []
    else
      var init, s := calls[..|calls| - 1], calls[|calls| - 1];
      if init != [] && init[|init| - 1].time == s.time then Moved(init) else Moved(init) + [s]
  }

  /** The history after a run of calls. */
  function HistoryAfter(calls: seq<Sample>, k: nat): seq<Sample> {
    if calls == [] then [] else Remembered(HistoryAfter(calls[..|calls| - 1], k), calls[|calls| - 1], k)
  }

  lemma {:induction false} MovedEndsNow(calls: seq<Sample>)
    requires calls != []
    ensures Moved(calls) != [] && Moved(calls)[|Moved(calls)| - 1].time == calls[|calls| - 1].time
  {
    if |calls| > 1 {
      MovedEndsNow(calls[..|calls| - 1]);
    }
  }

  /** After any run of calls the history holds the newest of the samples with which the time moved on, so the
      first sample at a time counts and later ones at the same time do not. */
  lemma {:induction false} RunKeepsMoved(calls: seq<Sample>, k: nat)
    requires k > 0
    ensures HistoryAfter(calls, k) == Last(Moved(calls), k)
  {
    if calls != [] {
      var init, s := calls[..|calls| - 1], calls[|calls| - 1];
      hide Last;
      RunKeepsMoved(init, k);
      if init != [] {
        MovedEndsNow(init);
        SameEnd(Moved(init), k);
      }
      LastAppend(Moved(init), s, k);
    }
  }

  lemma SameEnd(w: seq<Sample>, k: nat)
    requires w != [] && k > 0
    ensures Last(w, k) != [] && Last(w, k)[|Last(w, k)| - 1] == w[|w| - 1]
  {
  }
}
