// What the two programs that count received bytes share: uint64 counters and their exact sums.
module Counters {

  const UINT64: nat := 0x1_0000_0000_0000_0000

  function Sum(xs: seq<nat>): nat {
    if xs == [] then 0 else Sum(xs[..|xs| - 1]) + xs[|xs| - 1]
  }

  lemma SumNext(xs: seq<nat>, x: nat)
    ensures Sum(xs + [x]) == Sum(xs) + x
  {
    assert (xs + [x])[..|xs|] == xs;
  }

  lemma DivMod(a: nat) returns (q: nat)
    ensures a == q * UINT64 + a % UINT64 && (q == 0 <==> a < UINT64)
  {
    q := a / UINT64;
  }

  lemma ModMultiple(k: nat, r: nat)
    ensures (k * UINT64 + r) % UINT64 == r % UINT64
  {
    var q := DivMod(r);
    var q' := DivMod(k * UINT64 + r);
    assert (q' - k - q) * UINT64 == r % UINT64 - (k * UINT64 + r) % UINT64;
  }
}
