// When the traversal records the same entry twice: Uniquefy would remove such entries, but works on a copy.
module Duplicates {
  import opened Walks

  predicate AllDistinct<T(==)>(xs: seq<T>) {
    forall i, j | 0 <= i < j < |xs| :: xs[i] != xs[j]
  }

  ghost function EntryOf(g: Graph, v: TypeId, w: Walk): (TypeId, string)
    requires g.Valid() && v < |g.edges| && IsWalk(g, v, w)
  {
    (End(g, v, w), PathString(Labels(g, v, w)))
  }

  /** Two different simple walks with the same entry. */
  ghost predicate Twins(g: Graph, v: TypeId, a: Walk, b: Walk)
    requires g.Valid() && v < |g.edges|
  {
    a != b && IsSimple(g, v, a, {}) && IsSimple(g, v, b, {}) && EntryOf(g, v, a) == EntryOf(g, v, b)
  }

  /** The entries are pairwise distinct exactly when no two different simple walks have the same entry. */
  lemma DistinctIffNoTwins(g: Graph, v: TypeId)
    requires g.Valid() && v < |g.edges|
    ensures AllDistinct(Gathered(g, v, [], {})) <==> forall a, b :: !Twins(g, v, a, b)
  {
    var ws, out := Walks.Walks(g, v, {}), Gathered(g, v, [], {});
    WalksAreSimple(g, v, {});
    GatheredWalks(g, v, [], {});
    forall i | 0 <= i < |ws| ensures IsSimple(g, v, ws[i], {}) && out[i] == EntryOf(g, v, ws[i]) {
      assert ws[i] in ws && IsEntryOf(g, v, [], ws[i], out[i]);
      assert [] + Labels(g, v, ws[i]) == Labels(g, v, ws[i]);
    }
    forall i, j | 0 <= i < j < |ws| && out[i] == out[j] ensures Twins(g, v, ws[i], ws[j]) {
      InOrderIsDistinct(ws, i, j);
    }
    forall a, b | Twins(g, v, a, b) ensures !AllDistinct(out) {
      assert a in ws && b in ws;
      var i :| 0 <= i < |ws| && ws[i] == a;
      var j :| 0 <= j < |ws| && ws[j] == b;
      assert out[i] == out[j];
    }
  }

  // ---------------------------------------------------------------- a condition on the edges

  /** Edge j out of u has the same label and leads to the same type as edge i. */
  predicate Parallel(g: Graph, u: TypeId, i: nat, j: nat)
    requires u < |g.edges|
  {
    i < |g.edges[u]| && j < |g.edges[u]| && i != j && g.edges[u][i] == g.edges[u][j]
  }

  /** Along some simple walk there is a choice between two parallel edges. */
  ghost predicate TakesParallel(g: Graph, v: TypeId, w: Walk, k: nat, j: nat)
    requires g.Valid() && v < |g.edges|
  {
    && IsSimple(g, v, w, {}) && k < |w|
    && k < |Stops(g, v, w)| && Stops(g, v, w)[k] < |g.edges|
    && Parallel(g, Stops(g, v, w)[k], w[k], j)
  }

  predicate Starts(a: string, b: string) {
    |a| <= |b| && b[..|a|] == a
  }

  /** The label of an edge tells its target, and no label continues another one of the same type after a slash. */
  predicate WellTagged(g: Graph) {
    forall u, i, j | 0 <= u < |g.edges| && 0 <= i < |g.edges[u]| && 0 <= j < |g.edges[u]| ::
      var a, b := g.edges[u][i], g.edges[u][j];
      && (a.tag == b.tag ==> a.target == b.target)
      && (Starts(a.tag + "/", b.tag + "/") ==> a.tag == b.tag)
  }

  lemma {:induction false} PathStringCons(x: string, path: seq<string>)
    ensures PathString([x] + path) == "/" + x + PathString(path)
  {
    if path == [] {
      assert [x] + path == [x] && [x][..0] == [];
    } else {
      var n := |path| - 1;
      PathStringCons(x, path[..n]);
      assert ([x] + path)[..n + 1] == [x] + path[..n];
      Regroup("/" + x, PathString(path[..n]), "/" + path[n]);
      Regroup(PathString([x] + path[..n]), "/", path[n]);
      Regroup(PathString(path[..n]), "/", path[n]);
    }
  }

  lemma PathStringStart(path: seq<string>)
    ensures path == [] ==> PathString(path) == ""
    ensures path != [] ==> PathString(path) != "" && PathString(path)[0] == '/'
  {
    if path != [] {
      assert path == [path[0]] + path[1..];
      PathStringCons(path[0], path[1..]);
    }
  }

  /** Two labels that begin equal path strings: the shorter, with its slash, begins the longer. */
  lemma LabelsMeet(a: string, s: string, b: string, t: string)
    requires a + s == b + t && |a| <= |b|
    requires (s == "" || s[0] == '/') && (t == "" || t[0] == '/')
    ensures Starts(a + "/", b + "/")
    ensures a == b ==> s == t
  {
    assert a == (a + s)[..|a|] && s == (a + s)[|a|..];
    assert b == (b + t)[..|b|] && t == (b + t)[|b|..];
    if |a| < |b| {
      assert (a + s)[|a|] == s[0];
    }
  }

  lemma {:induction false} SameString(g: Graph, v: TypeId, a: Walk, b: Walk)
    requires g.Valid() && v < |g.edges| && WellTagged(g) && IsWalk(g, v, a) && IsWalk(g, v, b)
    requires PathString(Labels(g, v, a)) == PathString(Labels(g, v, b))
    ensures Labels(g, v, a) == Labels(g, v, b) && Stops(g, v, a) == Stops(g, v, b)
    decreases |a|
  {
    PathStringStart(Labels(g, v, a));
    PathStringStart(Labels(g, v, b));
    if a != [] && b != [] {
      EdgeTargets(g, v);
      var e, f := g.edges[v][a[0]], g.edges[v][b[0]];
      var p, q := Labels(g, e.target, a[1..]), Labels(g, f.target, b[1..]);
      PathStringCons(e.tag, p);
      PathStringCons(f.tag, q);
      PathStringStart(p);
      PathStringStart(q);
      assert e.tag + PathString(p) == ("/" + e.tag + PathString(p))[1..];
      assert f.tag + PathString(q) == ("/" + f.tag + PathString(q))[1..];
      if |e.tag| <= |f.tag| {
        LabelsMeet(e.tag, PathString(p), f.tag, PathString(q));
      } else {
        LabelsMeet(f.tag, PathString(q), e.tag, PathString(p));
      }
      assert e.tag == f.tag && e.target == f.target;
      SameString(g, e.target, a[1..], b[1..]);
    }
  }

  /** The edges taken by two walks with the same stops and labels are equal, one by one. */
  lemma {:induction false} SameEdges(g: Graph, v: TypeId, a: Walk, b: Walk, k: nat)
    requires g.Valid() && v < |g.edges| && IsWalk(g, v, a) && IsWalk(g, v, b) && k < |a| && |a| == |b|
    requires Labels(g, v, a) == Labels(g, v, b) && Stops(g, v, a) == Stops(g, v, b)
    ensures var s := Stops(g, v, a);
            && k < |s| && s[k] < |g.edges| && a[k] < |g.edges[s[k]]| && b[k] < |g.edges[s[k]]|
            && g.edges[s[k]][a[k]] == g.edges[s[k]][b[k]]
    decreases |a|
  {
    EdgeTargets(g, v);
    var e, f := g.edges[v][a[0]], g.edges[v][b[0]];
    var s, t := Stops(g, v, a), Stops(g, v, b);
    StopsStart(g, e.target, a[1..]);
    StopsStart(g, f.target, b[1..]);
    assert s[1..] == Stops(g, e.target, a[1..]) && t[1..] == Stops(g, f.target, b[1..]);
    assert Labels(g, v, a)[1..] == Labels(g, e.target, a[1..]) && Labels(g, v, b)[1..] == Labels(g, f.target, b[1..]);
    assert e.target == s[1] && f.target == t[1] && e.tag == Labels(g, v, a)[0] && f.tag == Labels(g, v, b)[0];
    if k > 0 {
      SameEdges(g, e.target, a[1..], b[1..], k - 1);
      assert s[k] == s[1..][k - 1];
    }
  }

  lemma {:induction false} StopsStart(g: Graph, v: TypeId, w: Walk)
    requires g.Valid() && v < |g.edges| && IsWalk(g, v, w)
    ensures |Stops(g, v, w)| == |w| + 1 == |Labels(g, v, w)| + 1 && Stops(g, v, w)[0] == v
    ensures Stops(g, v, w)[|w|] == End(g, v, w)
    decreases |w|
  {
    if w != [] {
      EdgeTargets(g, v);
      StopsStart(g, g.edges[v][w[0]].target, w[1..]);
    }
  }

  /** Taking the other of two parallel edges changes neither stops nor labels. */
  lemma {:induction false} Reroute(g: Graph, v: TypeId, w: Walk, k: nat, j: nat)
    requires g.Valid() && v < |g.edges| && IsWalk(g, v, w) && k < |w|
    requires k < |Stops(g, v, w)| && Stops(g, v, w)[k] < |g.edges| && Parallel(g, Stops(g, v, w)[k], w[k], j)
    ensures IsWalk(g, v, w[k := j])
    ensures Stops(g, v, w[k := j]) == Stops(g, v, w) && Labels(g, v, w[k := j]) == Labels(g, v, w)
    decreases |w|
  {
    EdgeTargets(g, v);
    var e := g.edges[v][w[0]];
    if k == 0 {
      assert w[0 := j][1..] == w[1..];
    } else {
      var s := Stops(g, v, w);
      assert s[1..] == Stops(g, e.target, w[1..]);
      assert s[k] == s[1..][k - 1];
      Reroute(g, e.target, w[1..], k - 1, j);
      assert w[k := j][1..] == w[1..][k - 1 := j];
    }
  }

  lemma ParallelGivesTwins(g: Graph, v: TypeId, w: Walk, k: nat, j: nat)
    requires g.Valid() && v < |g.edges| && TakesParallel(g, v, w, k, j)
    ensures Twins(g, v, w, w[k := j])
  {
    Reroute(g, v, w, k, j);
    StopsStart(g, v, w);
    StopsStart(g, v, w[k := j]);
    assert w[k := j][k] != w[k];
  }

  lemma TwinsTakeParallel(g: Graph, v: TypeId, a: Walk, b: Walk)
    requires g.Valid() && v < |g.edges| && WellTagged(g) && Twins(g, v, a, b)
    ensures exists k, j :: TakesParallel(g, v, a, k, j)
  {
    SameString(g, v, a, b);
    StopsStart(g, v, a);
    StopsStart(g, v, b);
    var k :| 0 <= k < |a| && a[k] != b[k];
    SameEdges(g, v, a, b, k);
    assert TakesParallel(g, v, a, k, b[k]);
  }

  /** With such labels the entries are pairwise distinct exactly when no simple walk from the root
      can take one of two parallel edges. */
  lemma DistinctIffNoParallel(g: Graph, v: TypeId)
    requires g.Valid() && v < |g.edges| && WellTagged(g)
    ensures AllDistinct(Gathered(g, v, [], {})) <==> forall w, k, j :: !TakesParallel(g, v, w, k, j)
  {
    DistinctIffNoTwins(g, v);
    forall w, k, j | TakesParallel(g, v, w, k, j) ensures !AllDistinct(Gathered(g, v, [], {})) {
      ParallelGivesTwins(g, v, w, k, j);
    }
    forall a, b | Twins(g, v, a, b) ensures exists k, j :: TakesParallel(g, v, a, k, j) {
      TwinsTakeParallel(g, v, a, b);
    }
  }

  /** Whatever the labels: a choice between parallel edges on a simple walk doubles an entry ... */
  lemma ParallelDoubles(g: Graph, v: TypeId, w: Walk, k: nat, j: nat)
    requires g.Valid() && v < |g.edges| && TakesParallel(g, v, w, k, j)
    ensures !AllDistinct(Gathered(g, v, [], {}))
  {
    ParallelGivesTwins(g, v, w, k, j);
    DistinctIffNoTwins(g, v);
  }

  /** ... and so do any two parallel edges out of the root that leave it. */
  lemma ParallelAtRootDoubles(g: Graph, v: TypeId, i: nat, j: nat)
    requires g.Valid() && v < |g.edges| && Parallel(g, v, i, j) && g.edges[v][i].target != v
    ensures !AllDistinct(Gathered(g, v, [], {}))
  {
    EdgeTargets(g, v);
    var w := [i];
    var t := g.edges[v][i].target;
    assert w[0] == i && w[1..] == [] && IsWalk(g, v, w);
    assert Stops(g, t, w[1..]) == [t];
    assert Stops(g, v, w) == [v] + [t];
    forall x, y | 0 <= x < y < |Stops(g, v, w)| ensures Stops(g, v, w)[x] != Stops(g, v, w)[y] {
      assert x == 0 && y == 1;
    }
    assert IsSimple(g, v, w, {});
    ParallelDoubles(g, v, w, 0, j);
  }
}
