// The one-pass mean and second moment in BenchSuite::Log of utils/bench-scheduler.cc, over the reals.
module Welford {

  datatype PhaseResult = PhaseResult(time: real, rate: real, period: real)

  datatype Result = Result(init: PhaseResult, run: PhaseResult)

  /** The six numbers of a result, each of which is averaged on its own. */
  datatype Field = InitTime | InitRate | InitPeriod | RunTime | RunRate | RunPeriod {
    function Of(r: Result): real {
      match this
      case InitTime => r.init.time
      case InitRate => r.init.rate
      case InitPeriod => r.init.period
      case RunTime => r.run.time
      case RunRate => r.run.rate
      case RunPeriod => r.run.period
    }

    function All(rs: seq<Result>): (xs: seq<real>)
      ensures |xs| == |rs| && forall i | 0 <= i < |rs| :: xs[i] == Of(rs[i])
    {
      seq(|rs|, i requires 0 <= i < |rs| => Of(rs[i]))
    }
  }

  // ---------------------------------------------------------------- the textbook definitions

  function Sum(xs: seq<real>): real {
    if xs == [] then 0.0 else Sum(xs[..|xs| - 1]) + xs[|xs| - 1]
  }

  function Mean(xs: seq<real>): real
    requires xs != []
  {
    Sum(xs) / |xs| as real
  }

  /** The sum of the squared deviations from c. */
  function Deviations(xs: seq<real>, c: real): real {
    if xs == [] then 0.0
    else Deviations(xs[..|xs| - 1], c) + (xs[|xs| - 1] - c) * (xs[|xs| - 1] - c)
  }

  function SumOfSquares(xs: seq<real>): real {
    if xs == [] then 0.0 else SumOfSquares(xs[..|xs| - 1]) + xs[|xs| - 1] * xs[|xs| - 1]
  }

  lemma ExpandStep(d: real, d': real, q: real, q': real, s: real, s': real, n: real, n': real, c: real, x: real)
    requires n' == n + 1.0 && s' == s + x && q' == q + x * x && d' == d + (x - c) * (x - c)
    requires d == q - 2.0 * c * s + n * c * c
    ensures d' == q' - 2.0 * c * s' + n' * c * c
  {
    assert c * s' == c * s + c * x;
    assert n' * c * c == n * c * c + c * c;
    assert (x - c) * (x - c) == x * x - 2.0 * c * x + c * c;
  }

  lemma {:induction false} DeviationsExpanded(xs: seq<real>, c: real)
    ensures Deviations(xs, c) == SumOfSquares(xs) - 2.0 * c * Sum(xs) + |xs| as real * c * c
  {
    if xs != [] {
      var init, x := xs[..|xs| - 1], xs[|xs| - 1];
      DeviationsExpanded(init, c);
      var d, d' := Deviations(init, c), Deviations(xs, c);
      var q, q' := SumOfSquares(init), SumOfSquares(xs);
      var s, s' := Sum(init), Sum(xs);
      var n, n' := |init| as real, |xs| as real;
      ExpandStep(d, d', q, q', s, s', n, n', c, x);
    }
  }

  lemma MeanCancels(q: real, s: real, n: real, c: real)
    requires n * c == s
    ensures q - 2.0 * c * s + n * c * c == q - c * s
  {
    assert n * c * c == s * c;
  }

  /** Around the mean the deviations are the sum of squares less mean times sum. */
  lemma DeviationsAroundMean(xs: seq<real>, mean: real)
    requires |xs| as real * mean == Sum(xs)
    ensures Deviations(xs, mean) == SumOfSquares(xs) - mean * Sum(xs)
  {
    DeviationsExpanded(xs, mean);
    MeanCancels(SumOfSquares(xs), Sum(xs), |xs| as real, mean);
  }

  lemma {:induction false} DeviationsNotNegative(xs: seq<real>, c: real)
    ensures Deviations(xs, c) >= 0.0
  {
    if xs != [] {
      DeviationsNotNegative(xs[..|xs| - 1], c);
      var d := xs[|xs| - 1] - c;
      assert d * d >= 0.0;
    }
  }

  // ---------------------------------------------------------------- one accumulation

  /** average and moment2 are right for xs, the latter in the form of DeviationsAroundMean; for no samples
      the average is whatever it was seeded with. */
  predicate Right(xs: seq<real>, average: real, moment2: real) {
    && |xs| as real * average == Sum(xs)
    && moment2 == SumOfSquares(xs) - average * Sum(xs)
  }

  lemma MomentStep(q: real, q': real, s: real, s': real, n: real, n': real, a: real, a': real, x: real)
    requires n' == n + 1.0 && s' == s + x && q' == q + x * x
    requires n * a == s && n' * a' == s'
    ensures q' - a' * s' == (q - a * s) + (x - a) * (x - a')
  {
    assert (x - a) * (x - a') == x * x - x * a' - a * x + a * a';
    assert a' * s' == a' * s + a' * x;
    assert a' * s == a * (n * a') by { assert a' * (n * a) == a * (n * a'); }
    assert n * a' == s' - a';
    assert a * (s' - a') == a * s + a * x - a * a';
  }

  lemma MeanStep(s: real, a: real, x: real, n: real, n': real)
    requires n >= 0.0 && n' == n + 1.0 && n * a == s
    ensures n' * (a + (x - a) / n') == s + x
  {
    var d := (x - a) / n';
    assert n' * d == x - a;
    assert n' * (a + d) == n' * a + n' * d;
    assert n' * a == n * a + a;
  }

  lemma AccumulateRight(xs: seq<real>, average: real, moment2: real, x: real, average': real, n: real, n': real)
    requires Right(xs, average, moment2)
    requires n == |xs| as real && n' == (|xs| + 1) as real && n' * average' == Sum(xs) + x
    ensures Right(xs + [x], average', moment2 + (x - average) * (x - average'))
  {
    SumsNext(xs, x);
    MomentStep(SumOfSquares(xs), SumOfSquares(xs + [x]), Sum(xs), Sum(xs + [x]), n, n', average, average', x);
  }

  lemma SumsNext(xs: seq<real>, x: real)
    ensures Sum(xs + [x]) == Sum(xs) + x
    ensures SumOfSquares(xs + [x]) == SumOfSquares(xs) + x * x
  {
    assert (xs + [x])[..|xs|] == xs;
  }

  /** The macro ACCUMULATE, for one field of one run. */
  method Accumulate(x: real, average: real, moment2: real, count: nat, ghost xs: seq<real>)
    returns (average': real, moment2': real)
    requires count == |xs| + 1 && Right(xs, average, moment2)
    ensures Right(xs + [x], average', moment2')
  {
    var deltaPre := x - average;
    average' := average + deltaPre / count as real;
    var deltaPost := x - average';
    moment2' := moment2 + deltaPre * deltaPost;
    assert deltaPre * deltaPost == (x - average) * (x - average');
    MeanStep(Sum(xs), average, x, |xs| as real, count as real);
    AccumulateRight(xs, average, moment2, x, average', |xs| as real, count as real);
  }

  // ---------------------------------------------------------------- the loop

  datatype Statistics = TooFew | Statistics(average: Result, moment2: Result)

  ghost predicate AllRight(rs: seq<Result>, average: Result, moment2: Result) {
    forall f: Field :: Right(f.All(rs), f.Of(average), f.Of(moment2))
  }

  lemma AllNext(rs: seq<Result>, r: Result, f: Field)
    ensures f.All(rs + [r]) == f.All(rs) + [f.Of(r)]
  {
  }

  /** What the six pairs of numbers are when they are right. */
  ghost predicate Textbook(rs: seq<Result>, average: Result, moment2: Result, f: Field) {
    && rs != []
    && f.Of(average) == Mean(f.All(rs))
    && f.Of(moment2) == Deviations(f.All(rs), Mean(f.All(rs)))
    && f.Of(moment2) >= 0.0
  }

  lemma RightIsMean(xs: seq<real>, average: real, moment2: real)
    requires xs != [] && Right(xs, average, moment2)
    ensures average == Mean(xs) && moment2 == Deviations(xs, Mean(xs)) && moment2 >= 0.0
  {
    MeanIs(xs, average);
    DeviationsAroundMean(xs, average);
    DeviationsNotNegative(xs, average);
  }

  lemma RightIsTextbook(rs: seq<Result>, average: Result, moment2: Result)
    requires rs != [] && AllRight(rs, average, moment2)
    ensures forall f: Field :: Textbook(rs, average, moment2, f)
  {
    forall f: Field ensures Textbook(rs, average, moment2, f) {
      assert Right(f.All(rs), f.Of(average), f.Of(moment2));
      RightIsMean(f.All(rs), f.Of(average), f.Of(moment2));
    }
  }

  /** One pass over the results; with fewer than two there is nothing to report. */
  method Log(results: seq<Result>) returns (s: Statistics)
    ensures s.TooFew? <==> |results| < 2
    ensures s.Statistics? ==> forall f: Field :: Textbook(results, s.average, s.moment2, f)
  {
    if |results| < 2 {
      return TooFew;
    }
    var average := results[0];
    var moment2 := Result(PhaseResult(0.0, 0.0, 0.0), PhaseResult(0.0, 0.0, 0.0));
    var n := 0;
    while n < |results|
      invariant 0 <= n <= |results|
      invariant AllRight(results[..n], average, moment2)
    {
      var run, count := results[n], n + 1;
      ghost var done := results[..n];
      average, moment2 := AccumulateAll(run, average, moment2, count, done);
      assert results[..n + 1] == done + [run];
      n := n + 1;
    }
    assert results[..n] == results;
    RightIsTextbook(results, average, moment2);
    return Statistics(average, moment2);
  }

  lemma MeanIs(xs: seq<real>, a: real)
    requires xs != [] && |xs| as real * a == Sum(xs)
    ensures a == Mean(xs)
  {
  }

  /** The six uses of ACCUMULATE in the body of the loop. */
  method AccumulateAll(run: Result, average: Result, moment2: Result, count: nat, ghost done: seq<Result>)
    returns (average': Result, moment2': Result)
    requires count == |done| + 1 && AllRight(done, average, moment2)
    ensures AllRight(done + [run], average', moment2')
  {
    assert Right(InitTime.All(done), InitTime.Of(average), InitTime.Of(moment2));
    var a1, m1 := Accumulate(run.init.time, average.init.time, moment2.init.time, count, InitTime.All(done));
    assert Right(InitRate.All(done), InitRate.Of(average), InitRate.Of(moment2));
    var a2, m2 := Accumulate(run.init.rate, average.init.rate, moment2.init.rate, count, InitRate.All(done));
    assert Right(InitPeriod.All(done), InitPeriod.Of(average), InitPeriod.Of(moment2));
    var a3, m3 := Accumulate(run.init.period, average.init.period, moment2.init.period, count, InitPeriod.All(done));
    assert Right(RunTime.All(done), RunTime.Of(average), RunTime.Of(moment2));
    var a4, m4 := Accumulate(run.run.time, average.run.time, moment2.run.time, count, RunTime.All(done));
    assert Right(RunRate.All(done), RunRate.Of(average), RunRate.Of(moment2));
    var a5, m5 := Accumulate(run.run.rate, average.run.rate, moment2.run.rate, count, RunRate.All(done));
    assert Right(RunPeriod.All(done), RunPeriod.Of(average), RunPeriod.Of(moment2));
    var a6, m6 := Accumulate(run.run.period, average.run.period, moment2.run.period, count, RunPeriod.All(done));
    average' := Result(PhaseResult(a1, a2, a3), PhaseResult(a4, a5, a6));
    moment2' := Result(PhaseResult(m1, m2, m3), PhaseResult(m4, m5, m6));
    forall f: Field ensures Right(f.All(done + [run]), f.Of(average'), f.Of(moment2')) {
      AllNext(done, run, f);
      match f {
        case InitTime =>
        case InitRate =>
        case InitPeriod =>
        case RunTime =>
        case RunRate =>
        case RunPeriod =>
      }
    }
  }
}
