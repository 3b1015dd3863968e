// Jain's fairness index as PrintFairness of examples/tcp/dctcp-example.cc computes it, in uint64
// arithmetic that wraps around.
module Fairness {
  import opened Counters

  // ---------------------------------------------------------------- the exact sums

  function SumSquares(xs: seq<nat>): nat {
    if xs == [] then 0 else SumSquares(xs[..|xs| - 1]) + xs[|xs| - 1] * xs[|xs| - 1]
  }

  /** The sum of the squared distances from x. */
  function Distances(xs: seq<nat>, x: int): nat {
    if xs == [] then 0
    else
      var d := xs[|xs| - 1] - x;
      Square(d);
      Distances(xs[..|xs| - 1], x) + d * d
  }

  lemma Square(d: int)
    ensures d * d >= 0 && (d * d == 0 <==> d == 0)
  {
  }

  predicate AllEqual(xs: seq<nat>) {
    forall i, j | 0 <= i < j < |xs| :: xs[i] == xs[j]
  }

  lemma DistanceStep(q: int, q': int, s: int, s': int, n: int, n': int, y: int, x: int)
    requires n' == n + 1 && s' == s + y && q' == q + y * y
    ensures q' - 2 * x * s' + n' * x * x == (q - 2 * x * s + n * x * x) + (y - x) * (y - x)
  {
    assert x * s' == x * s + x * y;
    assert n' * x * x == n * x * x + x * x;
    assert (y - x) * (y - x) == y * y - 2 * x * y + x * x;
  }

  lemma {:induction false} DistancesExpanded(xs: seq<nat>, x: int)
    ensures Distances(xs, x) == SumSquares(xs) - 2 * x * Sum(xs) + |xs| * x * x
    ensures Distances(xs, x) == 0 <==> forall i | 0 <= i < |xs| :: xs[i] == x
  {
    if xs != [] {
      var init, y := xs[..|xs| - 1], xs[|xs| - 1];
      DistancesExpanded(init, x);
      DistanceStep(SumSquares(init), SumSquares(xs), Sum(init), Sum(xs), |init|, |xs|, y, x);
      Square(y - x);
      assert forall i | 0 <= i < |init| :: init[i] == xs[i];
    }
  }

  lemma SpreadStep(q: int, q': int, s: int, s': int, n: int, n': int, x: int)
    requires n' == n + 1 && s' == s + x && q' == q + x * x
    ensures n' * q' - s' * s' == (n * q - s * s) + (q - 2 * x * s + n * x * x)
  {
    assert n' * q' == n * q + n * (x * x) + q + x * x;
    assert s' * s' == s * s + 2 * x * s + x * x;
    assert n * (x * x) == n * x * x;
  }

  /** Cauchy-Schwarz: the square of the sum is at most n times the sum of squares, and equal to it
      exactly when all numbers are equal. */
  lemma {:induction false} CauchySchwarz(xs: seq<nat>)
    ensures Sum(xs) * Sum(xs) <= |xs| * SumSquares(xs)
    ensures Sum(xs) * Sum(xs) == |xs| * SumSquares(xs) <==> AllEqual(xs)
  {
    if xs != [] {
      var init, x := xs[..|xs| - 1], xs[|xs| - 1];
      CauchySchwarz(init);
      DistancesExpanded(init, x);
      SpreadStep(SumSquares(init), SumSquares(xs), Sum(init), Sum(xs), |init|, |xs|, x);
      assert forall i | 0 <= i < |init| :: init[i] == xs[i];
      assert AllEqual(xs) ==> AllEqual(init) && forall i | 0 <= i < |init| :: init[i] == x;
    }
  }

  lemma SquareOfSum(s: nat, x: nat)
    ensures s * s + x * x <= (s + x) * (s + x)
  {
    assert (s + x) * (s + x) == s * s + 2 * (s * x) + x * x;
  }

  lemma {:induction false} SquaresBelowSquare(xs: seq<nat>)
    ensures Sum(xs) <= SumSquares(xs) <= Sum(xs) * Sum(xs)
  {
    if xs != [] {
      var init, x := xs[..|xs| - 1], xs[|xs| - 1];
      SquaresBelowSquare(init);
      SquareOfSum(Sum(init), x);
      assert x <= x * x;
    }
  }

  // ---------------------------------------------------------------- the index

  /** sum * sum / (n * sumSquares), in exact arithmetic. */
  function Jain(xs: seq<nat>): real
    requires |xs| * SumSquares(xs) > 0
  {
    (Sum(xs) * Sum(xs)) as real / (|xs| * SumSquares(xs)) as real
  }

  lemma PositiveProduct(x: real, d: real)
    ensures x > 0.0 && d > 0.0 ==> x * d > 0.0
  {
  }

  lemma Cancel(x: real, y: real, d: real)
    requires d > 0.0
    ensures x * d <= y * d <==> x <= y
  {
    PositiveProduct(x - y, d);
    assert (x - y) * d == x * d - y * d;
  }

  lemma Quotient(a: real, d: real) returns (f: real)
    requires d > 0.0
    ensures f == a / d && f * d == a
  {
    f := a / d;
  }

  lemma {:induction false} RealProduct(n: nat, q: nat)
    ensures (n * q) as real == n as real * q as real
  {
    if n > 0 {
      RealProduct(n - 1, q);
      assert n * q == (n - 1) * q + q;
      assert n as real == (n - 1) as real + 1.0;
    }
  }

  lemma AtLeastOneNth(low: real, f: real, n: real, q: real, d: real)
    requires d > 0.0 && d == n * q && low * n == 1.0 && q <= f * d
    ensures low <= f
  {
    assert low * d == (low * n) * q;
    Cancel(low, f, d);
  }

  lemma AtMostOne(f: real, d: real)
    requires d > 0.0 && f * d <= d
    ensures f <= 1.0 && (f == 1.0 <==> f * d == d)
  {
    Cancel(f, 1.0, d);
    Cancel(1.0, f, d);
  }

  lemma BoundsFrom(a: nat, q: nat, p: nat, n: real, d: real)
    requires n > 0.0 && p > 0 && q <= a <= p && d == p as real && d == n * q as real
    ensures 1.0 / n <= a as real / d <= 1.0
    ensures a as real / d == 1.0 <==> a == p
  {
    var f := Quotient(a as real, d);
    var low := Quotient(1.0, n);
    AtLeastOneNth(low, f, n, q as real, d);
    AtMostOne(f, d);
  }

  lemma FractionBounds(a: nat, q: nat, n: nat)
    requires n > 0 && q > 0 && q <= a <= n * q
    ensures n * q > 0
    ensures 1.0 / n as real <= a as real / (n * q) as real <= 1.0
    ensures a as real / (n * q) as real == 1.0 <==> a == n * q
  {
    RealProduct(n, q);
    BoundsFrom(a, q, n * q, n as real, (n * q) as real);
  }

  /** For counters that are not all zero the index lies between 1/n and 1, and is 1 exactly for equal counters. */
  lemma JainBounds(xs: seq<nat>)
    requires SumSquares(xs) > 0
    ensures |xs| * SumSquares(xs) > 0
    ensures 1.0 / |xs| as real <= Jain(xs) <= 1.0
    ensures Jain(xs) == 1.0 <==> AllEqual(xs)
  {
    CauchySchwarz(xs);
    SquaresBelowSquare(xs);
    FractionBounds(Sum(xs) * Sum(xs), SumSquares(xs), |xs|);
  }

  // ---------------------------------------------------------------- uint64

  /** None of the uint64 operations on one group in PrintFairness leaves the range of uint64. */
  ghost predicate NothingWraps(xs: seq<nat>)
    requires xs != []
  {
    && (forall i | 0 <= i < |xs| :: xs[i] * xs[i] < UINT64)
    && (forall i | 0 <= i <= |xs| :: Sum(xs[..i]) < UINT64 && SumSquares(xs[..i]) < UINT64)
    && Sum(xs) / |xs| * 8 < UINT64
    && Sum(xs) * Sum(xs) < UINT64
    && |xs| * SumSquares(xs) < UINT64
  }

  lemma {:induction false} PrefixSums(xs: seq<nat>, i: nat)
    requires i <= |xs|
    ensures Sum(xs[..i]) <= Sum(xs) && SumSquares(xs[..i]) <= SumSquares(xs)
    ensures i < |xs| ==> xs[i] * xs[i] <= SumSquares(xs)
    decreases |xs| - i
  {
    if i == |xs| {
      assert xs[..i] == xs;
    } else {
      PrefixSums(xs, i + 1);
      assert xs[..i + 1][..i] == xs[..i] && xs[..i + 1][i] == xs[i];
      assert xs[i] * xs[i] >= 0;
    }
  }

  /** The last multiplication decides: nothing wraps exactly when n * sumSquares fits. */
  lemma NothingWrapsIff(xs: seq<nat>)
    requires xs != []
    ensures NothingWraps(xs) <==> |xs| * SumSquares(xs) < UINT64
  {
    CauchySchwarz(xs);
    SquaresBelowSquare(xs);
    AtLeast(|xs|, SumSquares(xs));
    if |xs| * SumSquares(xs) < UINT64 { AverageFits(Sum(xs), |xs|); }
    forall i | 0 <= i <= |xs|
      ensures Sum(xs[..i]) <= Sum(xs) && SumSquares(xs[..i]) <= SumSquares(xs)
      ensures i < |xs| ==> xs[i] * xs[i] <= SumSquares(xs)
    {
      PrefixSums(xs, i);
    }
  }

  lemma AverageFits(s: nat, n: nat)
    requires n > 0 && s * s < UINT64
    ensures s / n * 8 < UINT64
  {
    var m := 0x1_0000_0000;
    if s >= m { SquareGrows(m, s); }
    DivLess(s, n);
  }

  lemma SquareGrows(m: nat, s: nat)
    requires m <= s
    ensures m * m <= s * s
  {
    assert m * m <= m * s <= s * s;
  }

  lemma DivLess(s: nat, n: nat)
    requires n > 0
    ensures s / n <= s
  {
    var q, r := s / n, s % n;
    assert s == n * q + r;
    AtLeast(n, q);
  }

  lemma AtLeast(n: nat, q: nat)
    requires n > 0
    ensures q <= n * q
  {
  }

  lemma BoundStep(q: nat, n: nat, n': nat, x: nat, b: nat)
    requires q <= n * (b * b) && x <= b && n' == n + 1
    ensures q + x * x <= n' * (b * b)
  {
    assert x * x <= x * b <= b * b;
    assert n' * (b * b) == n * (b * b) + b * b;
  }

  lemma {:induction false} SquaresBound(xs: seq<nat>, b: nat)
    requires forall i | 0 <= i < |xs| :: xs[i] <= b
    ensures SumSquares(xs) <= |xs| * (b * b)
  {
    if xs != [] {
      var init, x := xs[..|xs| - 1], xs[|xs| - 1];
      SquaresBound(init, b);
      BoundStep(SumSquares(init), |init|, |xs|, x, b);
    }
  }

  /** Counters up to b are safe when the square of n * b fits. */
  lemma SmallCountersAreSafe(xs: seq<nat>, b: nat)
    requires xs != [] && (forall i | 0 <= i < |xs| :: xs[i] <= b)
    requires (|xs| * b) * (|xs| * b) < UINT64
    ensures NothingWraps(xs)
  {
    SquaresBound(xs, b);
    ProductBound(|xs|, SumSquares(xs), b);
    NothingWrapsIff(xs);
  }

  lemma ProductBound(n: nat, q: nat, b: nat)
    requires q <= n * (b * b)
    ensures n * q <= (n * b) * (n * b)
  {
    assert n * q <= n * (n * (b * b));
    assert n * (n * (b * b)) == (n * b) * (n * b);
  }

  lemma AddWraps(a: nat, b: nat)
    ensures (a % UINT64 + b) % UINT64 == (a + b) % UINT64
    ensures (a % UINT64 + b % UINT64) % UINT64 == (a + b) % UINT64
  {
    var q := DivMod(a);
    var p := DivMod(b);
    ModMultiple(q, a % UINT64 + b);
    ModMultiple(p, a % UINT64 + b % UINT64);
    assert a + b == q * UINT64 + (a % UINT64 + b);
    assert a % UINT64 + b == p * UINT64 + (a % UINT64 + b % UINT64);
  }

  lemma Fits(a: nat)
    ensures a < UINT64 ==> a % UINT64 == a
  {
  }

  lemma ExactProducts(s: nat, q: nat, n: nat)
    requires s < UINT64 && q < UINT64 && s * s < UINT64 && n * q < UINT64
    ensures s % UINT64 == s && q % UINT64 == q && s * s % UINT64 == s * s && n * q % UINT64 == n * q
  {
    Fits(s);
    Fits(q);
    Fits(s * s);
    Fits(n * q);
  }

  /** One counter of 2^32 bytes: its square is 2^64, and the denominator of the index wraps to zero. */
  lemma OneCounterCanWrap()
    ensures !NothingWraps([0x1_0000_0000]) && 1 * SumSquares([0x1_0000_0000]) == UINT64
  {
    var xs := [0x1_0000_0000];
    assert xs[..0] == [] && SumSquares(xs) == xs[0] * xs[0];
    NothingWrapsIff(xs);
  }

  /** The loop over one group. */
  method GroupSums(rxBytes: array<nat>) returns (sum: nat, sumSquares: nat)
    ensures sum == Sum(rxBytes[..]) % UINT64 && sumSquares == SumSquares(rxBytes[..]) % UINT64
  {
    sum, sumSquares := 0, 0;
    for i := 0 to rxBytes.Length
      invariant sum == Sum(rxBytes[..i]) % UINT64 && sumSquares == SumSquares(rxBytes[..i]) % UINT64
    {
      assert rxBytes[..i + 1][..i] == rxBytes[..i];
      AddWraps(Sum(rxBytes[..i]), rxBytes[i]);
      AddWraps(SumSquares(rxBytes[..i]), rxBytes[i] * rxBytes[i]);
      sum := (sum + rxBytes[i]) % UINT64;
      sumSquares := (sumSquares + rxBytes[i] * rxBytes[i] % UINT64) % UINT64;
    }
    assert rxBytes[..rxBytes.Length] == rxBytes[..];
  }

  /** One group of PrintFairness: the numerator and the denominator of the index, and the bits of the
      average counter, all uint64.  All three are exact together with the denominator. */
  method GroupFairness(rxBytes: array<nat>) returns (numerator: nat, denominator: nat, averageBits: nat)
    requires rxBytes.Length > 0
    ensures numerator < UINT64 && denominator < UINT64 && averageBits < UINT64
    ensures var xs := rxBytes[..];
            && (denominator == |xs| * SumSquares(xs) <==> |xs| * SumSquares(xs) < UINT64)
            && (denominator == |xs| * SumSquares(xs) ==>
                  numerator == Sum(xs) * Sum(xs) && averageBits == Sum(xs) / |xs| * 8)
            && (denominator == |xs| * SumSquares(xs) > 0 ==> numerator as real / denominator as real == Jain(xs))
  {
    var sum, sumSquares := GroupSums(rxBytes);
    averageBits := sum / rxBytes.Length * 8 % UINT64;
    numerator := sum * sum % UINT64;
    denominator := rxBytes.Length * sumSquares % UINT64;
    ghost var xs := rxBytes[..];
    NothingWrapsIff(xs);
    if |xs| * SumSquares(xs) < UINT64 {
      assert xs[..|xs|] == xs;
      ExactProducts(Sum(xs), SumSquares(xs), |xs|);
      Fits(Sum(xs) / |xs| * 8);
    }
  }
}
