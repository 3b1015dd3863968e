// The elements that a filtering loop takes from a list, by their positions.
module Selections {

  /** The chosen positions below n, in ascending order. */
  ghost function Chosen(n: nat, f: nat -> bool): seq<nat> {
    if n == 0 then [] else Chosen(n - 1, f) + if f(n - 1) then [n - 1] else []
  }

  /** at lists them: ascending, all of them and no others. */
  ghost predicate Selects(at: seq<nat>, n: nat, f: nat -> bool) {
    && (forall a, b | 0 <= a < b < |at| :: at[a] < at[b])
    && (forall i: nat :: i in at <==> i < n && f(i))
  }

  lemma {:induction false} ChosenSelects(n: nat, f: nat -> bool)
    ensures Selects(Chosen(n, f), n, f)
  {
    if n > 0 {
      var at := Chosen(n - 1, f);
      ChosenSelects(n - 1, f);
      assert forall a | 0 <= a < |at| :: at[a] in at;
    }
  }

  /** out holds what belongs to the chosen positions, in their order. */
  ghost predicate Picks<T>(out: seq<T>, n: nat, f: nat -> bool, fits: (T, nat) -> bool) {
    && |out| == |Chosen(n, f)|
    && forall k | 0 <= k < |out| :: fits(out[k], Chosen(n, f)[k])
  }

  lemma PicksNext<T>(out: seq<T>, n: nat, f: nat -> bool, fits: (T, nat) -> bool, more: seq<T>)
    requires Picks(out, n, f, fits)
    requires if f(n) then |more| == 1 && fits(more[0], n) else more == []
    ensures Picks(out + more, n + 1, f, fits)
  {
  }
}
