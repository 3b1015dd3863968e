// The layered topological sort of bindings/python/ns__init__.py: which libraries can be
// loaded is decided round by round from the libraries loaded so far.
module DependencyOrder {

  /** module_dependencies: for each library, the ns-3 libraries it is linked to. */
  type Dependencies = map<string, seq<string>>

  /** list(module_dependencies.keys()): every key once, in insertion order. */
  ghost predicate IsKeyList(deps: Dependencies, keys: seq<string>) {
    && Distinct(keys)
    && forall m :: m in keys <==> m in deps
  }

  predicate Distinct(s: seq<string>) {
    forall i, j | 0 <= i < j < |s| :: s[i] != s[j]
  }

  predicate CanBeLoaded(deps: Dependencies, m: string, loaded: seq<string>)
    requires m in deps
  {
    forall d | d in deps[m] :: d in loaded
  }

  // ---------------------------------------------------------------- one round

  /** The pending libraries whose dependencies are all loaded, in the order of the pending list. */
  function Ready(deps: Dependencies, pending: seq<string>, loaded: seq<string>): seq<string>
    requires forall m | m in pending :: m in deps
  {
    if pending == [] then []
    else if CanBeLoaded(deps, pending[0], loaded) then [pending[0]] + Ready(deps, pending[1..], loaded)
    else Ready(deps, pending[1..], loaded)
  }

  function Without(s: seq<string>, xs: seq<string>): seq<string> {
    if s == [] then []
    else if s[0] in xs then Without(s[1..], xs)
    else [s[0]] + Without(s[1..], xs)
  }

  lemma {:induction false} ReadyMembers(deps: Dependencies, pending: seq<string>, loaded: seq<string>)
    requires forall m | m in pending :: m in deps
    requires Distinct(pending)
    ensures var r := Ready(deps, pending, loaded);
            Distinct(r) && forall m :: m in r <==> m in pending && CanBeLoaded(deps, m, loaded)
  {
    if pending != [] {
      ReadyMembers(deps, pending[1..], loaded);
      assert pending == [pending[0]] + pending[1..];
      assert pending[0] !in pending[1..];
    }
  }

  lemma {:induction false} WithoutMembers(s: seq<string>, xs: seq<string>)
    requires Distinct(s)
    ensures var w := Without(s, xs);
            Distinct(w) && forall m :: m in w <==> m in s && m !in xs
  {
    if s != [] {
      WithoutMembers(s[1..], xs);
      assert s == [s[0]] + s[1..];
      assert s[0] !in s[1..];
    }
  }

  /** list.remove: drop the first occurrence. */
  function Remove<T(==)>(s: seq<T>, x: T): seq<T> {
    if s == [] then [] else if s[0] == x then s[1..] else [s[0]] + Remove(s[1..], x)
  }

  lemma {:induction false} WithoutNothing(s: seq<string>, xs: seq<string>)
    requires forall x | x in xs :: x !in s
    ensures Without(s, xs) == s
  {
    if s != [] { WithoutNothing(s[1..], xs); }
  }

  lemma {:induction false} RemoveNext(s: seq<string>, xs: seq<string>, x: string)
    requires Distinct(s) && x in s && x !in xs
    ensures Remove(Without(s, xs), x) == Without(s, xs + [x])
  {
    if s[0] == x {
      assert x !in s[1..];
      WithoutSame(s[1..], xs, xs + [x]);
    } else {
      assert x in s[1..];
      RemoveNext(s[1..], xs, x);
      assert s[0] in xs + [x] <==> s[0] in xs;
      assert ([s[0]] + Without(s[1..], xs))[1..] == Without(s[1..], xs);
    }
  }

  lemma {:induction false} RemoveBetween<T>(a: seq<T>, x: T, b: seq<T>)
    requires x !in a
    ensures Remove(a + [x] + b, x) == a + b
  {
    var s := a + [x] + b;
    if a == [] {
      assert s[1..] == b == a + b;
    } else {
      RemoveBetween(a[1..], x, b);
      assert s[0] == a[0] && a[0] in a;
      assert s[1..] == a[1..] + [x] + b;
      assert a + b == [a[0]] + (a[1..] + b);
    }
  }

  lemma {:induction false} WithoutSame(s: seq<string>, xs: seq<string>, ys: seq<string>)
    requires forall y | y in s :: y in xs <==> y in ys
    ensures Without(s, xs) == Without(s, ys)
  {
    if s != [] { WithoutSame(s[1..], xs, ys); }
  }

  // ---------------------------------------------------------------- all rounds

  /** current_modules and pending_modules when step k begins. */
  function Loaded(deps: Dependencies, keys: seq<string>, k: nat): seq<string>
    requires forall m | m in keys :: m in deps
    decreases k, 1
  {
    if k == 0 then [] else Loaded(deps, keys, k - 1) + Layer(deps, keys, k - 1)
  }

  function Pending(deps: Dependencies, keys: seq<string>, k: nat): (p: seq<string>)
    requires forall m | m in keys :: m in deps
    ensures forall m | m in p :: m in deps
    decreases k, 1
  {
    if k == 0 then keys
    else
      WithoutSubset(Pending(deps, keys, k - 1), Layer(deps, keys, k - 1));
      Without(Pending(deps, keys, k - 1), Layer(deps, keys, k - 1))
  }

  ghost predicate NothingPending(deps: Dependencies, keys: seq<string>, k: nat)
    requires forall m | m in keys :: m in deps
  {
    Pending(deps, keys, k) == []
  }

  ghost predicate NothingReady(deps: Dependencies, keys: seq<string>, k: nat)
    requires forall m | m in keys :: m in deps
  {
    Layer(deps, keys, k) == []
  }

  /** steps[k]. */
  function Layer(deps: Dependencies, keys: seq<string>, k: nat): seq<string>
    requires forall m | m in keys :: m in deps
    decreases k, 2
  {
    Ready(deps, Pending(deps, keys, k), Loaded(deps, keys, k))
  }

  lemma {:induction false} WithoutSubset(s: seq<string>, xs: seq<string>)
    ensures forall m | m in Without(s, xs) :: m in s
  {
    if s != [] { WithoutSubset(s[1..], xs); }
  }

  /** m cannot be loaded in fewer than k + 1 rounds: a dependency is missing, or is itself blocked for k - 1. */
  ghost predicate Blocked(deps: Dependencies, m: string, k: nat)
    requires m in deps
    decreases k
  {
    k > 0 ==> exists d | d in deps[m] :: d !in deps || Blocked(deps, d, k - 1)
  }

  lemma {:induction false} BlockedDown(deps: Dependencies, m: string, k: nat)
    requires m in deps && Blocked(deps, m, k + 1)
    ensures Blocked(deps, m, k)
    decreases k
  {
    if k > 0 {
      var d :| d in deps[m] && (d !in deps || Blocked(deps, d, k));
      if d in deps { BlockedDown(deps, d, k - 1); }
    }
  }

  lemma ReadyWhenUnblocked(deps: Dependencies, m: string, c: seq<string>, k: nat)
    requires m in deps && forall d :: d in c <==> d in deps && !Blocked(deps, d, k)
    ensures CanBeLoaded(deps, m, c) <==> !Blocked(deps, m, k + 1)
    ensures m in c ==> !Blocked(deps, m, k + 1)
  {
    if Blocked(deps, m, k + 1) {
      BlockedDown(deps, m, k);
      var d :| d in deps[m] && (d !in deps || Blocked(deps, d, k));
      assert d !in c;
    }
  }

  /** The state of the lists at the start of step k, as sets: exactly the blocked libraries are pending. */
  ghost predicate SplitByBlocked(deps: Dependencies, p: seq<string>, c: seq<string>, k: nat) {
    && Distinct(p) && Distinct(c)
    && (forall m :: m in c <==> m in deps && !Blocked(deps, m, k))
    && (forall m :: m in p <==> m in deps && Blocked(deps, m, k))
  }

  lemma SplitMember(deps: Dependencies, p: seq<string>, c: seq<string>, k: nat, m: string)
    requires SplitByBlocked(deps, p, c, k)
    ensures var r := Ready(deps, p, c);
            && (m in c + r <==> m in deps && !Blocked(deps, m, k + 1))
            && (m in Without(p, r) <==> m in deps && Blocked(deps, m, k + 1))
            && (m in r ==> m !in c)
  {
    ReadyMembers(deps, p, c);
    WithoutMembers(p, Ready(deps, p, c));
    if m in deps { ReadyWhenUnblocked(deps, m, c, k); }
  }

  lemma DistinctConcat(a: seq<string>, b: seq<string>)
    requires Distinct(a) && Distinct(b) && forall m | m in b :: m !in a
    ensures Distinct(a + b)
  {
    forall i, j | 0 <= i < j < |a + b| ensures (a + b)[i] != (a + b)[j] {
      if i < |a| <= j { assert (a + b)[j] in b && (a + b)[i] in a; }
    }
  }

  lemma SplitNext(deps: Dependencies, p: seq<string>, c: seq<string>, k: nat)
    requires SplitByBlocked(deps, p, c, k)
    ensures var r := Ready(deps, p, c); SplitByBlocked(deps, Without(p, r), c + r, k + 1)
  {
    var r := Ready(deps, p, c);
    ReadyMembers(deps, p, c);
    WithoutMembers(p, r);
    DistinctConcat(c, r);
    forall m
      ensures m in c + r <==> m in deps && !Blocked(deps, m, k + 1)
      ensures m in Without(p, r) <==> m in deps && Blocked(deps, m, k + 1)
    {
      SplitMember(deps, p, c, k, m);
    }
  }

  lemma {:induction false} RoundState(deps: Dependencies, keys: seq<string>, k: nat)
    requires IsKeyList(deps, keys)
    ensures SplitByBlocked(deps, Pending(deps, keys, k), Loaded(deps, keys, k), k)
  {
    if k > 0 {
      RoundState(deps, keys, k - 1);
      SplitNext(deps, Pending(deps, keys, k - 1), Loaded(deps, keys, k - 1), k - 1);
    }
  }

  lemma PendingIsDistinct(deps: Dependencies, keys: seq<string>, k: nat)
    requires IsKeyList(deps, keys)
    ensures Distinct(Pending(deps, keys, k))
  {
    RoundState(deps, keys, k);
  }

  lemma LayerIsReady(deps: Dependencies, keys: seq<string>, k: nat)
    requires IsKeyList(deps, keys)
    ensures Distinct(Layer(deps, keys, k))
    ensures forall m | m in Layer(deps, keys, k) ::
              m in Pending(deps, keys, k) && CanBeLoaded(deps, m, Loaded(deps, keys, k))
  {
    PendingIsDistinct(deps, keys, k);
    ReadyMembers(deps, Pending(deps, keys, k), Loaded(deps, keys, k));
  }

  // ---------------------------------------------------------------- chains of dependencies

  /** c[0] needs c[1], which needs c[2], and so on. */
  predicate IsChain(deps: Dependencies, c: seq<string>) {
    && c != []
    && (forall i | 0 <= i < |c| :: c[i] in deps)
    && (forall i | 0 <= i < |c| - 1 :: c[i + 1] in deps[c[i]])
  }

  ghost predicate HasChain(deps: Dependencies, m: string, edges: nat) {
    exists c :: IsChain(deps, c) && c[0] == m && |c| == edges + 1
  }

  ghost predicate Closed(deps: Dependencies) {
    forall m | m in deps :: forall d | d in deps[m] :: d in deps
  }

  ghost predicate Acyclic(deps: Dependencies) {
    forall c | IsChain(deps, c) && |c| > 1 :: c[0] != c[|c| - 1]
  }

  lemma {:induction false} BlockedIsChain(deps: Dependencies, m: string, k: nat)
    requires Closed(deps) && m in deps
    ensures Blocked(deps, m, k) <==> HasChain(deps, m, k)
    decreases k
  {
    if k == 0 {
      assert IsChain(deps, [m]);
    } else {
      if Blocked(deps, m, k) {
        var d :| d in deps[m] && (d !in deps || Blocked(deps, d, k - 1));
        BlockedIsChain(deps, d, k - 1);
        var c :| IsChain(deps, c) && c[0] == d && |c| == k;
        assert IsChain(deps, [m] + c);
      }
      if HasChain(deps, m, k) {
        var c :| IsChain(deps, c) && c[0] == m && |c| == k + 1;
        assert IsChain(deps, c[1..]) && c[1] in deps[m];
        BlockedIsChain(deps, c[1], k - 1);
      }
    }
  }

  /** Step k holds exactly the libraries whose longest chain of dependencies has k links. */
  lemma LayerIsDepth(deps: Dependencies, keys: seq<string>, k: nat, m: string)
    requires IsKeyList(deps, keys) && Closed(deps)
    ensures m in Layer(deps, keys, k) <==> m in deps && HasChain(deps, m, k) && !HasChain(deps, m, k + 1)
  {
    var p, c := Pending(deps, keys, k), Loaded(deps, keys, k);
    RoundState(deps, keys, k);
    ReadyMembers(deps, p, c);
    if m in deps {
      BlockedIsChain(deps, m, k);
      BlockedIsChain(deps, m, k + 1);
    }
  }

  lemma {:induction false} DistinctBound(c: seq<string>, s: set<string>)
    requires Distinct(c) && forall x | x in c :: x in s
    ensures |c| <= |s|
  {
    if c != [] {
      assert forall x | x in c[1..] :: x in s - {c[0]};
      DistinctBound(c[1..], s - {c[0]});
    }
  }

  lemma AcyclicChainIsShort(deps: Dependencies, c: seq<string>)
    requires Acyclic(deps) && IsChain(deps, c)
    ensures |c| <= |deps.Keys|
  {
    forall i, j | 0 <= i < j < |c| ensures c[i] != c[j] {
      assert IsChain(deps, c[i..j + 1]);
    }
    DistinctBound(c, deps.Keys);
  }

  lemma {:induction false} CycleIsBlocked(deps: Dependencies, c: seq<string>, i: nat, k: nat)
    requires IsChain(deps, c) && |c| > 1 && c[0] == c[|c| - 1] && i < |c|
    ensures Blocked(deps, c[i], k)
    decreases k
  {
    if k > 0 {
      var next := if i == |c| - 1 then 1 else i + 1;
      CycleIsBlocked(deps, c, next, k - 1);
      assert c[next] in deps[c[i]];
    }
  }

  lemma HeadIsIn(p: seq<string>)
    ensures p != [] ==> p[0] in p
  {
  }

  /** All pending libraries get loaded, at the latest in as many rounds as there are libraries,
      exactly when every dependency is a key and there is no cycle. */
  lemma EmptiesIffLoadable(deps: Dependencies, keys: seq<string>)
    requires IsKeyList(deps, keys)
    ensures (exists k: nat :: NothingPending(deps, keys, k)) <==> Closed(deps) && Acyclic(deps)
    ensures NothingPending(deps, keys, |keys|) <==> Closed(deps) && Acyclic(deps)
  {
    if Closed(deps) && Acyclic(deps) {
      var n := |keys|;
      RoundState(deps, keys, n);
      KeyCount(deps, keys);
      forall m | m in deps ensures !Blocked(deps, m, n) {
        BlockedIsChain(deps, m, n);
        if c :| IsChain(deps, c) && c[0] == m && |c| == n + 1 { AcyclicChainIsShort(deps, c); }
      }
      var p := Pending(deps, keys, n);
      HeadIsIn(p);
      assert NothingPending(deps, keys, n);
    }
    forall k: nat | NothingPending(deps, keys, k) ensures Closed(deps) && Acyclic(deps) {
      EmptyMeansLoadable(deps, keys, k);
    }
  }

  lemma KeyCount(deps: Dependencies, keys: seq<string>)
    requires IsKeyList(deps, keys)
    ensures |keys| == |deps.Keys|
  {
    DistinctBound(keys, deps.Keys);
    SetBound(deps.Keys, keys);
  }

  lemma {:induction false} SetBound(s: set<string>, c: seq<string>)
    requires forall x | x in s :: x in c
    ensures |s| <= |c|
  {
    if c == [] {
      assert s == {};
    } else {
      var rest := s - {c[0]};
      SetBound(rest, c[1..]);
      assert c[0] in s ==> s == rest + {c[0]};
      assert c[0] !in s ==> s == rest;
    }
  }

  lemma EmptyMeansLoadable(deps: Dependencies, keys: seq<string>, k: nat)
    requires IsKeyList(deps, keys) && NothingPending(deps, keys, k)
    ensures Closed(deps) && Acyclic(deps)
  {
    RoundState(deps, keys, k);
    forall c | IsChain(deps, c) && |c| > 1 && c[0] == c[|c| - 1] ensures false {
      CycleIsBlocked(deps, c, 0, k);
    }
    forall m, d | m in deps && d in deps[m] ensures d in deps {
      assert !Blocked(deps, m, k);
    }
  }

  /** A round that loads nothing is followed only by rounds that load nothing. */
  lemma {:induction false} StuckForever(deps: Dependencies, keys: seq<string>, k: nat, j: nat)
    requires IsKeyList(deps, keys) && NothingReady(deps, keys, k) && k <= j
    ensures Pending(deps, keys, j) == Pending(deps, keys, k) && Loaded(deps, keys, j) == Loaded(deps, keys, k)
    decreases j
  {
    if j > k {
      StuckForever(deps, keys, k, j - 1);
      WithoutNothing(Pending(deps, keys, j - 1), []);
    }
  }

  lemma {:induction false} RoundsUntilStuck(deps: Dependencies, keys: seq<string>, k: nat)
    requires IsKeyList(deps, keys)
    ensures |Loaded(deps, keys, k)| >= k || exists i: nat :: i <= k && NothingReady(deps, keys, i)
  {
    if k > 0 {
      RoundsUntilStuck(deps, keys, k - 1);
      assert NothingReady(deps, keys, k - 1) || |Loaded(deps, keys, k)| >= |Loaded(deps, keys, k - 1)| + 1;
    }
  }

  /** After as many rounds as there are libraries nothing changes any more: the recursion has either
      ended with an empty list or calls itself on the same non-empty list for ever. */
  lemma StableAtTheEnd(deps: Dependencies, keys: seq<string>, j: nat)
    requires IsKeyList(deps, keys) && |keys| <= j
    ensures Pending(deps, keys, j) == Pending(deps, keys, |keys|)
  {
    var n := |keys|;
    RoundsUntilStuck(deps, keys, n);
    if i: nat :| i <= n && NothingReady(deps, keys, i) {
      StuckForever(deps, keys, i, n);
      StuckForever(deps, keys, i, j);
    } else {
      RoundState(deps, keys, n);
      KeyCount(deps, keys);
      var c := Loaded(deps, keys, n);
      // everything is loaded, so the next layer is empty after all
      var p := Pending(deps, keys, n);
      if p != [] {
        assert p[0] in p && p[0] !in c;
        DistinctBound(c, deps.Keys - {p[0]});
      }
    }
  }

  // ---------------------------------------------------------------- the order

  /** Every library comes after all its dependencies. */
  predicate DependenciesFirst(deps: Dependencies, s: seq<string>) {
    forall i | 0 <= i < |s| :: s[i] in deps && forall d | d in deps[s[i]] :: d in s[..i]
  }

  lemma OrderedNext(deps: Dependencies, c: seq<string>, r: seq<string>)
    requires DependenciesFirst(deps, c)
    requires forall m | m in r :: m in deps && CanBeLoaded(deps, m, c)
    ensures DependenciesFirst(deps, c + r)
  {
    var s := c + r;
    forall i | 0 <= i < |s| ensures s[i] in deps && forall d | d in deps[s[i]] :: d in s[..i] {
      if i < |c| {
        assert s[i] == c[i] && s[..i] == c[..i];
      } else {
        assert s[i] in r;
        assert s[..i] == c + r[..i - |c|];
      }
    }
  }

  lemma {:induction false} LoadedInOrder(deps: Dependencies, keys: seq<string>, k: nat)
    requires IsKeyList(deps, keys)
    ensures DependenciesFirst(deps, Loaded(deps, keys, k))
  {
    if k > 0 {
      LoadedInOrder(deps, keys, k - 1);
      LayerIsReady(deps, keys, k - 1);
      OrderedNext(deps, Loaded(deps, keys, k - 1), Layer(deps, keys, k - 1));
    }
  }

  // ---------------------------------------------------------------- the order within a step

  /** Any two elements of s stand in the same order in t. */
  ghost predicate SameOrder(s: seq<string>, t: seq<string>) {
    && (forall m | m in s :: m in t)
    && forall a, b | 0 <= a < b < |s| :: Before(t, s[a], s[b])
  }

  ghost predicate Before(t: seq<string>, m: string, n: string) {
    exists x, y :: 0 <= x < y < |t| && t[x] == m && t[y] == n
  }

  lemma BeforeCons(p: string, t: seq<string>, m: string, n: string)
    ensures Before(t, m, n) ==> Before([p] + t, m, n)
    ensures n in t ==> Before([p] + t, p, n)
  {
    var u := [p] + t;
    if x, y :| 0 <= x < y < |t| && t[x] == m && t[y] == n {
      assert u[x + 1] == m && u[y + 1] == n;
    }
    if n in t {
      var y :| 0 <= y < |t| && t[y] == n;
      assert u[0] == p && u[y + 1] == n;
    }
  }

  /** Keeping or leaving out the head of a list keeps the order. */
  lemma SameOrderCons(p: string, s: seq<string>, t: seq<string>)
    requires SameOrder(s, t)
    ensures SameOrder([p] + s, [p] + t) && SameOrder(s, [p] + t)
  {
    var v := [p] + s;
    forall a, b | 0 <= a < b < |v| ensures Before([p] + t, v[a], v[b]) {
      BeforeCons(p, t, v[a], v[b]);
      assert v[b] == s[b - 1] && s[b - 1] in t;
      if a > 0 { assert v[a] == s[a - 1] && Before(t, s[a - 1], s[b - 1]); }
    }
    forall a, b | 0 <= a < b < |s| ensures Before([p] + t, s[a], s[b]) { BeforeCons(p, t, s[a], s[b]); }
  }

  lemma SameOrderThrough(s: seq<string>, t: seq<string>, u: seq<string>)
    requires SameOrder(s, t) && SameOrder(t, u)
    ensures SameOrder(s, u)
  {
    forall a, b | 0 <= a < b < |s| ensures Before(u, s[a], s[b]) {
      assert Before(t, s[a], s[b]);
      var x, y :| 0 <= x < y < |t| && t[x] == s[a] && t[y] == s[b];
      assert Before(u, t[x], t[y]);
    }
  }

  lemma {:induction false} ReadyOrder(deps: Dependencies, pending: seq<string>, loaded: seq<string>)
    requires forall m | m in pending :: m in deps
    ensures SameOrder(Ready(deps, pending, loaded), pending)
  {
    if pending != [] {
      ReadyOrder(deps, pending[1..], loaded);
      SameOrderCons(pending[0], Ready(deps, pending[1..], loaded), pending[1..]);
      assert pending == [pending[0]] + pending[1..];
    }
  }

  lemma {:induction false} WithoutOrder(s: seq<string>, xs: seq<string>)
    ensures SameOrder(Without(s, xs), s)
  {
    if s != [] {
      WithoutOrder(s[1..], xs);
      SameOrderCons(s[0], Without(s[1..], xs), s[1..]);
      assert s == [s[0]] + s[1..];
    }
  }

  lemma {:induction false} PendingOrder(deps: Dependencies, keys: seq<string>, k: nat)
    requires forall m | m in keys :: m in deps
    ensures SameOrder(Pending(deps, keys, k), keys)
  {
    if k > 0 {
      PendingOrder(deps, keys, k - 1);
      WithoutOrder(Pending(deps, keys, k - 1), Layer(deps, keys, k - 1));
      SameOrderThrough(Pending(deps, keys, k), Pending(deps, keys, k - 1), keys);
    } else {
      forall a, b | 0 <= a < b < |keys| ensures Before(keys, keys[a], keys[b]) {}
    }
  }

  /** Within a step the libraries stand in the order of the keys. */
  lemma LayerInKeyOrder(deps: Dependencies, keys: seq<string>, k: nat)
    requires forall m | m in keys :: m in deps
    ensures SameOrder(Layer(deps, keys, k), keys)
  {
    PendingOrder(deps, keys, k);
    ReadyOrder(deps, Pending(deps, keys, k), Loaded(deps, keys, k));
    SameOrderThrough(Layer(deps, keys, k), Pending(deps, keys, k), keys);
  }

  // ---------------------------------------------------------------- the program

  /** The loop of dependency_order removes one ready library after the other. */
  lemma LoadStep(pending: seq<string>, modules: seq<string>, i: nat)
    requires Distinct(pending) && Distinct(modules) && i < |modules| && modules[i] in pending
    ensures modules[i] in Without(pending, modules[..i])
    ensures Remove(Without(pending, modules[..i]), modules[i]) == Without(pending, modules[..i + 1])
    ensures modules[..i + 1] == modules[..i] + [modules[i]]
  {
    assert modules[i] !in modules[..i];
    RemoveNext(pending, modules[..i], modules[i]);
    WithoutMembers(pending, modules[..i]);
    assert modules[..i + 1] == modules[..i] + [modules[i]];
  }

  datatype Outcome = Sorted(libraries: seq<string>) | RecursionError

  /** The lists and the dict that dependency_order changes in place. */
  class Loader {
    const deps: Dependencies
    ghost const keys: seq<string>
    var pendingModules: seq<string>
    var currentModules: seq<string>
    var steps: map<nat, seq<string>>

    /** Step k is about to begin. */
    ghost predicate AtStep(k: nat)
      reads this
    {
      && IsKeyList(deps, keys)
      && pendingModules == Pending(deps, keys, k)
      && currentModules == Loaded(deps, keys, k)
      && (forall i: nat :: i in steps <==> i < k)
      && forall i: nat | i < k :: steps[i] == Layer(deps, keys, i)
    }

    constructor (deps: Dependencies, keyList: seq<string>)
      requires IsKeyList(deps, keyList)
      ensures this.deps == deps && this.keys == keyList && AtStep(0)
    {
      this.deps, this.keys := deps, keyList;
      pendingModules, currentModules, steps := keyList, [], map[];
    }

    method ModulesThatCanBeLoaded() returns (modules: seq<string>)
      requires forall m | m in pendingModules :: m in deps
      ensures modules == Ready(deps, pendingModules, currentModules)
    {
      modules := [];
      for i := 0 to |pendingModules|
        invariant Ready(deps, pendingModules, currentModules)
               == modules + Ready(deps, pendingModules[i..], currentModules)
      {
        var m := pendingModules[i];
        assert pendingModules[i..][1..] == pendingModules[i + 1..];
        var canBeLoaded := true;
        for j := 0 to |deps[m]|
          invariant canBeLoaded
          invariant forall d | d in deps[m][..j] :: d in currentModules
        {
          if deps[m][j] !in currentModules {
            canBeLoaded := false;
            break;
          }
        }
        if !canBeLoaded {
          continue;
        }
        modules := modules + [m];
      }
    }

    /** list.remove on pending_modules. */
    method RemovePending(m: string)
      requires m in pendingModules
      modifies this`pendingModules
      ensures pendingModules == Remove(old(pendingModules), m)
    {
      var s, i := pendingModules, 0;
      while s[i] != m
        invariant i < |s| && m !in s[..i] && m in s[i..]
        decreases |s| - i
      {
        assert s[i..] == [s[i]] + s[i + 1..];
        i := i + 1;
      }
      RemoveBetween(s[..i], m, s[i + 1..]);
      assert s == s[..i] + [m] + s[i + 1..];
      pendingModules := s[..i] + s[i + 1..];
    }

    /** The for loop of dependency_order over the modules that can be loaded. */
    method Load(k: nat, modules: seq<string>)
      requires Distinct(pendingModules) && Distinct(modules) && (forall m | m in modules :: m in pendingModules)
      requires k in steps && steps[k] == []
      modifies this
      ensures pendingModules == Without(old(pendingModules), modules)
      ensures currentModules == old(currentModules) + modules
      ensures steps == old(steps)[k := modules]
    {
      WithoutNothing(pendingModules, []);
      ghost var pending := pendingModules;
      for i := 0 to |modules|
        invariant pendingModules == Without(pending, modules[..i])
        invariant currentModules == old(currentModules) + modules[..i]
        invariant steps == old(steps)[k := modules[..i]]
      {
        var m := modules[i];
        LoadStep(pending, modules, i);
        steps := steps[k := steps[k] + [m]];
        RemovePending(m);
        currentModules := currentModules + [m];
      }
      assert modules[..|modules|] == modules;
    }

    /** The part of dependency_order before its recursive call. */
    method Round(k: nat)
      requires AtStep(k)
      modifies this
      ensures AtStep(k + 1)
    {
      PendingIsDistinct(deps, keys, k);
      LayerIsReady(deps, keys, k);
      if k !in steps { steps := steps[k := []]; }
      var modules := ModulesThatCanBeLoaded();
      Load(k, modules);
    }

    /** dependency_order, with the number of recursive calls the interpreter still allows.
        It succeeds exactly when the list empties within that many rounds. */
    method Order(k: nat, frames: nat) returns (ok: bool)
      requires AtStep(k)
      modifies this
      ensures ok <==> exists j: nat :: k <= j <= k + frames && NothingPending(deps, keys, j)
      ensures ok ==> exists j: nat :: k <= j && AtStep(j) && pendingModules == []
      ensures !ok ==> AtStep(k + frames + 1)
      decreases frames
    {
      assert NothingPending(deps, keys, k) <==> pendingModules == [];
      if |pendingModules| == 0 {
        return true;
      }
      Round(k);
      if frames == 0 {
        return false;
      }
      ok := Order(k + 1, frames - 1);
    }

    /** The values of the dict one after the other; it was filled in the order of its keys. */
    method Flatten(ghost n: nat) returns (sorted: seq<string>)
      requires AtStep(n)
      ensures sorted == Loaded(deps, keys, n)
    {
      sorted := [];
      var k := 0;
      while k in steps
        invariant k <= n && sorted == Loaded(deps, keys, k)
        decreases n - k
      {
        sorted := sorted + steps[k];
        k := k + 1;
      }
    }
  }

  /** A load order is a permutation of the keys in which every library comes after all its dependencies. */
  ghost predicate IsLoadOrder(deps: Dependencies, keys: seq<string>, s: seq<string>) {
    multiset(s) == multiset(keys) && DependenciesFirst(deps, s)
  }

  lemma LoadedIsLoadOrder(deps: Dependencies, keys: seq<string>, n: nat)
    requires IsKeyList(deps, keys) && NothingPending(deps, keys, n)
    ensures IsLoadOrder(deps, keys, Loaded(deps, keys, n))
  {
    RoundState(deps, keys, n);
    LoadedInOrder(deps, keys, n);
    SameElements(Loaded(deps, keys, n), keys);
  }

  lemma PendingStaysEmpty(deps: Dependencies, keys: seq<string>, j: nat, n: nat)
    requires IsKeyList(deps, keys) && NothingPending(deps, keys, j) && j <= n
    ensures NothingPending(deps, keys, n)
  {
    assert NothingReady(deps, keys, j);
    StuckForever(deps, keys, j, n);
  }

  /** n rounds are enough exactly when every dependency is a key and no chain of dependencies has n links. */
  lemma EmptiesWithin(deps: Dependencies, keys: seq<string>, n: nat)
    requires IsKeyList(deps, keys)
    ensures (exists j: nat :: j <= n && NothingPending(deps, keys, j))
       <==> Closed(deps) && forall m | m in deps :: !HasChain(deps, m, n)
  {
    RoundState(deps, keys, n);
    if j: nat :| j <= n && NothingPending(deps, keys, j) {
      PendingStaysEmpty(deps, keys, j, n);
      EmptyMeansLoadable(deps, keys, n);
      forall m | m in deps ensures !HasChain(deps, m, n) {
        BlockedIsChain(deps, m, n);
      }
    }
    if Closed(deps) && forall m | m in deps :: !HasChain(deps, m, n) {
      forall m | m in deps ensures !Blocked(deps, m, n) {
        BlockedIsChain(deps, m, n);
      }
      HeadIsIn(Pending(deps, keys, n));
      assert NothingPending(deps, keys, n);
    }
  }

  /** sort_to_dependencies on the collected dependencies, with the recursion limit of the interpreter. */
  method SortToDependencies(deps: Dependencies, keyList: seq<string>, recursionLimit: nat) returns (r: Outcome)
    requires IsKeyList(deps, keyList)
    ensures r.Sorted? <==> Closed(deps) && forall m | m in deps :: !HasChain(deps, m, recursionLimit)
    ensures r.Sorted? ==> Acyclic(deps) && IsLoadOrder(deps, keyList, r.libraries)
    ensures Closed(deps) && Acyclic(deps) && recursionLimit >= |keyList| ==> r.Sorted?
  {
    var loader := new Loader(deps, keyList);
    var ok := loader.Order(0, recursionLimit);
    EmptiesWithin(deps, keyList, recursionLimit);
    EmptiesIffLoadable(deps, keyList);
    if !ok {
      return RecursionError;
    }
    ghost var n: nat :| loader.AtStep(n) && loader.pendingModules == [];
    assert NothingPending(deps, keyList, n);
    LoadedIsLoadOrder(deps, keyList, n);
    var sorted := loader.Flatten(n);
    return Sorted(sorted);
  }

  /** One missing library, and two that need each other: the list never empties. */
  lemma MissingLibraryBlocks(k: nat)
    ensures var deps := map["a" := ["b"]]; IsKeyList(deps, ["a"]) && !NothingPending(deps, ["a"], k)
  {
    var deps := map["a" := ["b"]];
    assert "b" in deps["a"] && "b" !in deps;
    assert !Closed(deps);
    EmptiesIffLoadable(deps, ["a"]);
  }

  lemma CycleBlocks(k: nat)
    ensures var deps := map["a" := ["b"], "b" := ["a"]];
            IsKeyList(deps, ["a", "b"]) && !NothingPending(deps, ["a", "b"], k)
  {
    var deps := map["a" := ["b"], "b" := ["a"]];
    assert IsChain(deps, ["a", "b", "a"]);
    assert !Acyclic(deps);
    EmptiesIffLoadable(deps, ["a", "b"]);
  }

  lemma SameElements(a: seq<string>, b: seq<string>)
    requires Distinct(a) && Distinct(b) && forall m :: m in a <==> m in b
    ensures multiset(a) == multiset(b)
  {
    forall m ensures multiset(a)[m] == multiset(b)[m] {
      Once(a, m);
      Once(b, m);
    }
  }

  lemma {:induction false} Once(a: seq<string>, m: string)
    requires Distinct(a)
    ensures multiset(a)[m] == if m in a then 1 else 0
  {
    if a != [] {
      assert a == [a[0]] + a[1..];
      assert multiset(a) == multiset{a[0]} + multiset(a[1..]);
      Once(a[1..], m);
    }
  }
}
