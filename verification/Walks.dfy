// Walks over a finite labelled graph, and the list that a backtracking depth-first traversal makes
// of them: every walk that visits no node twice, each once, in depth-first order.
module Walks {

  /** The index of a registered type. */
  type TypeId = nat

  datatype Edge = Edge(tag: string, target: TypeId)

  /** The edges out of each node, in the order in which they are tried. */
  datatype Graph = Graph(edges: seq<seq<Edge>>) {
    predicate Valid() {
      forall v | 0 <= v < |edges| :: forall e | e in edges[v] :: e.target < |edges|
    }
  }

  predicate Targets(g: Graph, es: seq<Edge>) {
    forall e | e in es :: e.target < |g.edges|
  }

  // ---------------------------------------------------------------- what the traversal appends

  function PathString(path: seq<string>): string {
    if path == [] then "" else PathString(path[..|path| - 1]) + "/" + path[|path| - 1]
  }

  ghost function Left(g: Graph, seen: set<TypeId>): nat {
    |Below(|g.edges|) - seen|
  }

  ghost function Below(n: nat): (s: set<TypeId>)
    ensures forall t: TypeId :: t in s <==> t < n
  {
    if n == 0 then {} else Below(n - 1) + {n - 1}
  }

  lemma EdgeTargets(g: Graph, v: TypeId)
    requires g.Valid() && v < |g.edges|
    ensures Targets(g, g.edges[v])
  {
  }

  lemma LeftDrops(g: Graph, seen: set<TypeId>, v: TypeId)
    requires v < |g.edges| && v !in seen
    ensures Left(g, seen + {v}) < Left(g, seen)
  {
    assert Below(|g.edges|) - seen == (Below(|g.edges|) - (seen + {v})) + {v};
  }

  ghost function Gathered(g: Graph, v: TypeId, path: seq<string>, seen: set<TypeId>): seq<(TypeId, string)>
    requires g.Valid() && v < |g.edges|
    decreases Left(g, seen), 0, 0
  {
    if v in seen then []
    else
      EdgeTargets(g, v);
      LeftDrops(g, seen, v);
      [(v, PathString(path))] + GatheredBy(g, g.edges[v], path, seen + {v})
  }

  ghost function GatheredBy(g: Graph, es: seq<Edge>, path: seq<string>, seen: set<TypeId>): seq<(TypeId, string)>
    requires g.Valid() && Targets(g, es)
    decreases Left(g, seen), 1, |es|
  {
    if es == [] then []
    else
      var e := es[|es| - 1];
      GatheredBy(g, es[..|es| - 1], path, seen) + Gathered(g, e.target, path + [e.tag], seen)
  }

  // ---------------------------------------------------------------- walks, independently of the program

  /** A walk from v: the number of the edge to take at each type on the way. */
  type Walk = seq<nat>

  ghost predicate IsWalk(g: Graph, v: TypeId, w: Walk)
    requires g.Valid() && v < |g.edges|
    decreases |w|
  {
    if w == [] then true else
      EdgeTargets(g, v);
      w[0] < |g.edges[v]| && IsWalk(g, g.edges[v][w[0]].target, w[1..])
  }

  /** The types on the way, the first and the last included. */
  ghost function Stops(g: Graph, v: TypeId, w: Walk): seq<TypeId>
    requires g.Valid() && v < |g.edges| && IsWalk(g, v, w)
    decreases |w|
  {
    if w == [] then [v] else
      EdgeTargets(g, v);
      [v] + Stops(g, g.edges[v][w[0]].target, w[1..])
  }

  ghost function Labels(g: Graph, v: TypeId, w: Walk): seq<string>
    requires g.Valid() && v < |g.edges| && IsWalk(g, v, w)
    decreases |w|
  {
    if w == [] then [] else
      EdgeTargets(g, v);
      [g.edges[v][w[0]].tag] + Labels(g, g.edges[v][w[0]].target, w[1..])
  }

  ghost function End(g: Graph, v: TypeId, w: Walk): TypeId
    requires g.Valid() && v < |g.edges| && IsWalk(g, v, w)
    decreases |w|
  {
    if w == [] then v else
      EdgeTargets(g, v);
      End(g, g.edges[v][w[0]].target, w[1..])
  }

  /** A walk that visits no type twice, and none of those seen before. */
  ghost predicate IsSimple(g: Graph, v: TypeId, w: Walk, seen: set<TypeId>)
    requires g.Valid() && v < |g.edges|
  {
    && IsWalk(g, v, w)
    && (forall i, j | 0 <= i < j < |Stops(g, v, w)| :: Stops(g, v, w)[i] != Stops(g, v, w)[j])
    && (forall i | 0 <= i < |Stops(g, v, w)| :: Stops(g, v, w)[i] !in seen)
  }

  /** Depth-first order: a walk comes before its extensions, and earlier edges come first. */
  predicate Before(a: Walk, b: Walk) {
    b != [] && (a == [] || a[0] < b[0] || (a[0] == b[0] && Before(a[1..], b[1..])))
  }

  ghost predicate InOrder(ws: seq<Walk>) {
    forall i, j | 0 <= i < j < |ws| :: Before(ws[i], ws[j])
  }

  /** ws lists exactly the simple walks from v, each once, in depth-first order. */
  ghost predicate ListsSimpleWalks(g: Graph, v: TypeId, seen: set<TypeId>, ws: seq<Walk>)
    requires g.Valid() && v < |g.edges|
  {
    && InOrder(ws)
    && forall w :: w in ws <==> IsSimple(g, v, w, seen)
  }

  ghost predicate IsEntryOf(g: Graph, v: TypeId, path: seq<string>, w: Walk, entry: (TypeId, string))
    requires g.Valid() && v < |g.edges|
  {
    IsWalk(g, v, w) && entry == (End(g, v, w), PathString(path + Labels(g, v, w)))
  }

  ghost predicate EntriesOf(g: Graph, v: TypeId, path: seq<string>, ws: seq<Walk>, out: seq<(TypeId, string)>)
    requires g.Valid() && v < |g.edges|
  {
    |out| == |ws| && forall i | 0 <= i < |ws| :: IsEntryOf(g, v, path, ws[i], out[i])
  }

  // ---------------------------------------------------------------- the connection

  /** The simple walks in depth-first order. */
  ghost function Walks(g: Graph, v: TypeId, seen: set<TypeId>): seq<Walk>
    requires g.Valid() && v < |g.edges|
    decreases Left(g, seen), 0, 0
  {
    if v in seen then []
    else
      EdgeTargets(g, v);
      LeftDrops(g, seen, v);
      [[]] + WalksBy(g, g.edges[v], seen + {v})
  }

  ghost function WalksBy(g: Graph, es: seq<Edge>, seen: set<TypeId>): seq<Walk>
    requires g.Valid() && Targets(g, es)
    decreases Left(g, seen), 1, |es|
  {
    if es == [] then []
    else
      var n := |es| - 1;
      WalksBy(g, es[..n], seen) + Prefixed(n, Walks(g, es[n].target, seen))
  }

  function Prefixed(e: nat, ws: seq<Walk>): (r: seq<Walk>)
    ensures |r| == |ws| && forall i | 0 <= i < |ws| :: r[i] == [e] + ws[i]
  {
    seq(|ws|, i requires 0 <= i < |ws| => [e] + ws[i])
  }

  /** w begins with one of these edges and goes on as a simple walk. */
  ghost predicate SimpleBy(g: Graph, es: seq<Edge>, w: Walk, seen: set<TypeId>)
    requires g.Valid() && Targets(g, es)
  {
    w != [] && w[0] < |es| && IsSimple(g, es[w[0]].target, w[1..], seen)
  }

  lemma SimpleStep(g: Graph, v: TypeId, w: Walk, seen: set<TypeId>)
    requires g.Valid() && v < |g.edges| && v !in seen
    ensures Targets(g, g.edges[v])
    ensures IsSimple(g, v, w, seen) <==> w == [] || SimpleBy(g, g.edges[v], w, seen + {v})
  {
    EdgeTargets(g, v);
    if w != [] && w[0] < |g.edges[v]| {
      var next := g.edges[v][w[0]].target;
      if IsWalk(g, next, w[1..]) {
        var s, t := Stops(g, v, w), Stops(g, next, w[1..]);
        assert s == [v] + t;
        if IsSimple(g, v, w, seen) {
          forall i, j | 0 <= i < j < |t| ensures t[i] != t[j] { assert s[i + 1] != s[j + 1]; }
          forall i | 0 <= i < |t| ensures t[i] !in seen + {v} { assert s[i + 1] != s[0] && s[i + 1] !in seen; }
        }
      }
    }
  }

  lemma {:induction false} BeforeIsStrict(w: Walk)
    ensures !Before(w, w)
  {
    if w != [] { BeforeIsStrict(w[1..]); }
  }

  /** A list in depth-first order has no walk twice. */
  lemma InOrderIsDistinct(ws: seq<Walk>, i: nat, j: nat)
    requires InOrder(ws) && i < j < |ws|
    ensures ws[i] != ws[j]
  {
    BeforeIsStrict(ws[i]);
  }

  lemma PrefixedInOrder(e: nat, ws: seq<Walk>)
    requires InOrder(ws)
    ensures InOrder(Prefixed(e, ws))
  {
    var r := Prefixed(e, ws);
    forall i, j | 0 <= i < j < |r| ensures Before(r[i], r[j]) {
      assert r[i][1..] == ws[i] && r[j][1..] == ws[j];
    }
  }

  lemma {:induction false} WalksByAreSimple(g: Graph, es: seq<Edge>, seen: set<TypeId>)
    requires g.Valid() && Targets(g, es)
    ensures InOrder(WalksBy(g, es, seen))
    ensures forall w :: w in WalksBy(g, es, seen) <==> SimpleBy(g, es, w, seen)
    decreases Left(g, seen), 1, |es|
  {
    if es != [] {
      var n := |es| - 1;
      var init, target := es[..n], es[n].target;
      var ws := Walks(g, target, seen);
      WalksByAreSimple(g, init, seen);
      WalksAreSimple(g, target, seen);
      PrefixedInOrder(n, ws);
      var a, b := WalksBy(g, init, seen), Prefixed(n, ws);
      forall w ensures w in b <==> w != [] && w[0] == n && w[1..] in ws {
        if w != [] && w[0] == n && w[1..] in ws {
          var i :| 0 <= i < |ws| && ws[i] == w[1..];
          assert b[i] == w;
        }
      }
      forall w ensures w in a + b <==> SimpleBy(g, es, w, seen) {
        assert w in a <==> SimpleBy(g, init, w, seen);
      }
      forall i, j | 0 <= i < j < |a + b| ensures Before((a + b)[i], (a + b)[j]) {
        if i < |a| <= j {
          assert (a + b)[i] in a && (a + b)[j] in b;
        }
      }
    }
  }

  /** The recursion of DoGather lists exactly the simple walks, each once, depth first. */
  lemma {:induction false} WalksAreSimple(g: Graph, v: TypeId, seen: set<TypeId>)
    requires g.Valid() && v < |g.edges|
    ensures ListsSimpleWalks(g, v, seen, Walks(g, v, seen))
    decreases Left(g, seen), 0, 0
  {
    if v in seen {
      forall w ensures !IsSimple(g, v, w, seen) {
        if IsWalk(g, v, w) { assert Stops(g, v, w)[0] == v; }
      }
    } else {
      EdgeTargets(g, v);
      LeftDrops(g, seen, v);
      WalksByAreSimple(g, g.edges[v], seen + {v});
      forall w ensures w in Walks(g, v, seen) <==> IsSimple(g, v, w, seen) {
        SimpleStep(g, v, w, seen);
      }
      var ws, rest := Walks(g, v, seen), WalksBy(g, g.edges[v], seen + {v});
      forall i, j | 0 <= i < j < |ws| ensures Before(ws[i], ws[j]) {
        assert ws[j] == rest[j - 1] && SimpleBy(g, g.edges[v], rest[j - 1], seen + {v});
        if i > 0 { assert ws[i] == rest[i - 1]; }
      }
    }
  }

  ghost predicate IsEntryBy(g: Graph, es: seq<Edge>, path: seq<string>, w: Walk, entry: (TypeId, string))
    requires g.Valid() && Targets(g, es)
  {
    w != [] && w[0] < |es| && IsEntryOf(g, es[w[0]].target, path + [es[w[0]].tag], w[1..], entry)
  }

  lemma {:induction false} GatheredByWalks(g: Graph, es: seq<Edge>, path: seq<string>, seen: set<TypeId>)
    requires g.Valid() && Targets(g, es)
    ensures var ws, out := WalksBy(g, es, seen), GatheredBy(g, es, path, seen);
            |out| == |ws| && forall i | 0 <= i < |ws| :: IsEntryBy(g, es, path, ws[i], out[i])
    decreases Left(g, seen), 1, |es|
  {
    if es != [] {
      var n := |es| - 1;
      GatheredByWalks(g, es[..n], path, seen);
      GatheredWalks(g, es[n].target, path + [es[n].tag], seen);
      var a, b := WalksBy(g, es[..n], seen), Walks(g, es[n].target, seen);
      var out := GatheredBy(g, es, path, seen);
      forall i | 0 <= i < |a| + |b| ensures IsEntryBy(g, es, path, WalksBy(g, es, seen)[i], out[i]) {
        if i < |a| {
          assert IsEntryBy(g, es[..n], path, a[i], out[i]);
        } else {
          assert WalksBy(g, es, seen)[i] == [n] + b[i - |a|];
          assert IsEntryOf(g, es[n].target, path + [es[n].tag], b[i - |a|], out[i]);
        }
      }
    }
  }

  lemma EntryStep(g: Graph, v: TypeId, path: seq<string>, w: Walk, entry: (TypeId, string))
    requires g.Valid() && v < |g.edges| && IsEntryBy(g, g.edges[v], path, w, entry)
    ensures IsEntryOf(g, v, path, w, entry)
  {
    var e, rest := g.edges[v][w[0]], w[1..];
    assert (path + [e.tag]) + Labels(g, e.target, rest) == path + ([e.tag] + Labels(g, e.target, rest));
  }

  lemma EntriesOfAll(g: Graph, v: TypeId, path: seq<string>, ws: seq<Walk>, out: seq<(TypeId, string)>)
    requires g.Valid() && v < |g.edges| && |out| == |ws|
    requires forall i | 0 <= i < |ws| :: IsEntryBy(g, g.edges[v], path, ws[i], out[i])
    ensures EntriesOf(g, v, path, [[]] + ws, [(v, PathString(path))] + out)
  {
    assert path + [] == path;
    assert IsEntryOf(g, v, path, [], (v, PathString(path)));
    forall i | 0 <= i < |ws| ensures IsEntryOf(g, v, path, ws[i], out[i]) {
      EntryStep(g, v, path, ws[i], out[i]);
    }
  }

  /** What the traversal appends is one entry per simple walk, in the order of the walks. */
  lemma {:induction false} GatheredWalks(g: Graph, v: TypeId, path: seq<string>, seen: set<TypeId>)
    requires g.Valid() && v < |g.edges|
    ensures EntriesOf(g, v, path, Walks(g, v, seen), Gathered(g, v, path, seen))
    decreases Left(g, seen), 0, 0
  {
    if v !in seen {
      EdgeTargets(g, v);
      LeftDrops(g, seen, v);
      GatheredByWalks(g, g.edges[v], path, seen + {v});
      EntriesOfAll(g, v, path, WalksBy(g, g.edges[v], seen + {v}), GatheredBy(g, g.edges[v], path, seen + {v}));
    }
  }

  lemma GatheredNext(g: Graph, es: seq<Edge>, e: Edge, path: seq<string>, seen: set<TypeId>)
    requires g.Valid() && Targets(g, es) && e.target < |g.edges|
    ensures Targets(g, es + [e])
    ensures GatheredBy(g, es + [e], path, seen)
         == GatheredBy(g, es, path, seen) + Gathered(g, e.target, path + [e.tag], seen)
  {
    assert (es + [e])[..|es|] == es;
  }

  lemma Regroup<T>(a: seq<T>, b: seq<T>, c: seq<T>)
    ensures (a + b) + c == a + (b + c)
    ensures a + [] == a
  {
  }

  lemma ConcatNext(g: Graph, a: seq<Edge>, c: seq<Edge>, e: Edge, path: seq<string>, seen: set<TypeId>)
    requires g.Valid() && Targets(g, a) && Targets(g, c) && Targets(g, a + c) && e.target < |g.edges|
    requires GatheredBy(g, a + c, path, seen) == GatheredBy(g, a, path, seen) + GatheredBy(g, c, path, seen)
    ensures Targets(g, c + [e]) && Targets(g, a + (c + [e]))
    ensures GatheredBy(g, a + (c + [e]), path, seen) == GatheredBy(g, a, path, seen) + GatheredBy(g, c + [e], path, seen)
  {
    GatheredNext(g, a + c, e, path, seen);
    GatheredNext(g, c, e, path, seen);
    Regroup(a, c, [e]);
    Regroup(GatheredBy(g, a, path, seen), GatheredBy(g, c, path, seen), Gathered(g, e.target, path + [e.tag], seen));
  }

  lemma {:induction false} GatheredConcat(g: Graph, a: seq<Edge>, b: seq<Edge>, path: seq<string>, seen: set<TypeId>)
    requires g.Valid() && Targets(g, a) && Targets(g, b)
    ensures Targets(g, a + b)
    ensures GatheredBy(g, a + b, path, seen) == GatheredBy(g, a, path, seen) + GatheredBy(g, b, path, seen)
    decreases |b|
  {
    if b == [] {
      assert a + b == a;
    } else {
      var c, e := b[..|b| - 1], b[|b| - 1];
      GatheredConcat(g, a, c, path, seen);
      ConcatNext(g, a, c, e, path, seen);
      assert b == c + [e];
    }
  }
}
