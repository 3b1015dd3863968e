// What DoGather follows from a type, said of the registry alone: which attributes, children and aggregation
// pairs, how often, in which order and under which labels.
module RegistryEdges {
  import opened Walks
  import opened StaticInformation
  import opened Selections

  // ---------------------------------------------------------------- the three kinds of edges

  /** A pointer, unless it points to Object itself, or a container of pointers. */
  predicate Follows(g: Registry, checker: Checker) {
    match checker
    case PointerChecker(pointee) => pointee != g.object_
    case ContainerChecker(_) => true
    case OtherChecker => false
  }

  ghost function IsFollowed(g: Registry, tid: TypeId): nat -> bool
    requires tid < |g.types|
  {
    (i: nat) => i < |g.types[tid].attributes| && Follows(g, g.types[tid].attributes[i].checker)
  }

  /** The label is the name of the attribute, with an index for a container. */
  predicate Leads(a: Attribute, e: Edge) {
    match a.checker
    case PointerChecker(pointee) => e == Edge(a.name, pointee)
    case ContainerChecker(item) => e == Edge(a.name + "/[i]", item)
    case OtherChecker => false
  }

  ghost predicate IsAttribute(g: Registry, tid: TypeId, e: Edge, i: nat)
    requires tid < |g.types|
  {
    && i < |g.types[tid].attributes|
    && Follows(g, g.types[tid].attributes[i].checker) && Leads(g.types[tid].attributes[i], e)
  }

  ghost function AttributeEdge(g: Registry, tid: TypeId): (Edge, nat) -> bool
    requires tid < |g.types|
  {
    (e: Edge, i: nat) => IsAttribute(g, tid, e, i)
  }

  ghost function IsChild(g: Registry, tid: TypeId): nat -> bool {
    (j: nat) => (j, tid) in g.childOf
  }

  ghost function IsPair(g: Registry, tid: TypeId): nat -> bool {
    (p: nat) => p < |g.aggregates| && (g.aggregates[p].0 == tid || g.aggregates[p].1 == tid)
  }

  /** The label of a registered type, whether child or aggregate. */
  predicate IsNamed(g: Registry, e: Edge) {
    e.target < |g.types| && e.tag == "$" + g.types[e.target].name
  }

  /** The pair consists of tid and the target. */
  predicate Joins(pair: (TypeId, TypeId), tid: TypeId, target: TypeId) {
    pair == (tid, target) || pair == (target, tid)
  }

  ghost predicate IsPairEdge(g: Registry, tid: TypeId, e: Edge, p: nat) {
    p < |g.aggregates| && IsNamed(g, e) && Joins(g.aggregates[p], tid, e.target)
  }

  ghost function ChildEdge(g: Registry): (Edge, nat) -> bool {
    (e: Edge, j: nat) => IsNamed(g, e) && e.target == j
  }

  ghost function PairEdge(g: Registry, tid: TypeId): (Edge, nat) -> bool {
    (e: Edge, p: nat) => IsPairEdge(g, tid, e, p)
  }

  // ---------------------------------------------------------------- one by one

  lemma AttributeNext(g: Registry, tid: TypeId, k: nat) returns (es: seq<Edge>)
    requires tid < |g.types| && k < |g.types[tid].attributes|
    ensures AttributeEdges(g, tid, k + 1) == AttributeEdges(g, tid, k) + es
    ensures if IsFollowed(g, tid)(k) then |es| == 1 && AttributeEdge(g, tid)(es[0], k) else es == []
  {
    var a := g.types[tid].attributes[k];
    match a.checker
    case PointerChecker(p) => es := if p == g.object_ then [] else [Edge(a.name, p)];
    case ContainerChecker(t) => es := [Edge(a.name + "/[i]", t)];
    case OtherChecker => es := [];
  }

  lemma {:induction false} AttributesPicked(g: Registry, tid: TypeId, k: nat)
    requires tid < |g.types| && k <= |g.types[tid].attributes|
    ensures Picks(AttributeEdges(g, tid, k), k, IsFollowed(g, tid), AttributeEdge(g, tid))
  {
    if k > 0 {
      AttributesPicked(g, tid, k - 1);
      var es := AttributeNext(g, tid, k - 1);
      PicksNext(AttributeEdges(g, tid, k - 1), k - 1, IsFollowed(g, tid), AttributeEdge(g, tid), es);
    }
  }

  lemma ChildNext(g: Registry, tid: TypeId, k: nat) returns (es: seq<Edge>)
    requires k < |g.types|
    ensures ChildEdges(g, tid, k + 1) == ChildEdges(g, tid, k) + es
    ensures if IsChild(g, tid)(k) then |es| == 1 && ChildEdge(g)(es[0], k) else es == []
  {
    es := if (k, tid) in g.childOf then [Edge("$" + g.types[k].name, k)] else [];
  }

  lemma {:induction false} ChildrenPicked(g: Registry, tid: TypeId, k: nat)
    requires k <= |g.types|
    ensures Picks(ChildEdges(g, tid, k), k, IsChild(g, tid), ChildEdge(g))
  {
    if k > 0 {
      ChildrenPicked(g, tid, k - 1);
      var es := ChildNext(g, tid, k - 1);
      PicksNext(ChildEdges(g, tid, k - 1), k - 1, IsChild(g, tid), ChildEdge(g), es);
    }
  }

  lemma PairNext(g: Registry, tid: TypeId, k: nat) returns (es: seq<Edge>)
    requires g.Valid() && k < |g.aggregates|
    ensures AggregateEdges(g, tid, k + 1) == AggregateEdges(g, tid, k) + es
    ensures if IsPair(g, tid)(k) then |es| == 1 && PairEdge(g, tid)(es[0], k) else es == []
  {
    var p := g.aggregates[k];
    assert p in g.aggregates;
    var other := if p.1 == tid then p.0 else p.1;
    es := if p.0 != tid && p.1 != tid then [] else [Edge("$" + g.types[other].name, other)];
  }

  lemma {:induction false} PairsPicked(g: Registry, tid: TypeId, k: nat)
    requires g.Valid() && k <= |g.aggregates|
    ensures Picks(AggregateEdges(g, tid, k), k, IsPair(g, tid), PairEdge(g, tid))
  {
    if k > 0 {
      PairsPicked(g, tid, k - 1);
      var es := PairNext(g, tid, k - 1);
      PicksNext(AggregateEdges(g, tid, k - 1), k - 1, IsPair(g, tid), PairEdge(g, tid), es);
    }
  }

  // ---------------------------------------------------------------- all of them

  /** DoGather follows, in this order: every attribute that is a pointer not to Object or a container, in the order of
      the attributes; every registered child, in the order of registration; and for every aggregation pair
      with tid the other type, in the order of the pairs; each of them once. */
  lemma EdgesInOrder(g: Registry, tid: TypeId) returns (attributes: seq<nat>, children: seq<nat>, pairs: seq<nat>)
    requires g.Valid() && tid < |g.types|
    ensures Selects(attributes, |g.types[tid].attributes|, IsFollowed(g, tid))
    ensures Selects(children, |g.types|, IsChild(g, tid))
    ensures Selects(pairs, |g.aggregates|, IsPair(g, tid))
    ensures var es, a, b := Edges(g, tid), |attributes|, |attributes| + |children|;
            && |es| == b + |pairs|
            && (forall n | 0 <= n < a :: IsAttribute(g, tid, es[n], attributes[n]))
            && (forall n | a <= n < b :: IsNamed(g, es[n]) && es[n].target == children[n - a])
            && (forall n | b <= n < |es| :: IsPairEdge(g, tid, es[n], pairs[n - b]))
  {
    attributes := AttributesAt(g, tid);
    children := ChildrenAt(g, tid);
    pairs := PairsAt(g, tid);
    ThreeParts(AttributeEdges(g, tid, |g.types[tid].attributes|), ChildEdges(g, tid, |g.types|),
               AggregateEdges(g, tid, |g.aggregates|));
  }

  lemma AttributesAt(g: Registry, tid: TypeId) returns (at: seq<nat>)
    requires tid < |g.types|
    ensures Selects(at, |g.types[tid].attributes|, IsFollowed(g, tid))
    ensures var x := AttributeEdges(g, tid, |g.types[tid].attributes|);
            |x| == |at| && forall n | 0 <= n < |x| :: IsAttribute(g, tid, x[n], at[n])
  {
    var k := |g.types[tid].attributes|;
    at := Chosen(k, IsFollowed(g, tid));
    ChosenSelects(k, IsFollowed(g, tid));
    AttributesPicked(g, tid, k);
    forall n | 0 <= n < |at| ensures IsAttribute(g, tid, AttributeEdges(g, tid, k)[n], at[n]) {
      assert AttributeEdge(g, tid)(AttributeEdges(g, tid, k)[n], at[n]);
    }
  }

  lemma ChildrenAt(g: Registry, tid: TypeId) returns (at: seq<nat>)
    ensures Selects(at, |g.types|, IsChild(g, tid))
    ensures var y := ChildEdges(g, tid, |g.types|);
            |y| == |at| && forall n | 0 <= n < |y| :: IsNamed(g, y[n]) && y[n].target == at[n]
  {
    var k := |g.types|;
    at := Chosen(k, IsChild(g, tid));
    ChosenSelects(k, IsChild(g, tid));
    ChildrenPicked(g, tid, k);
    forall n | 0 <= n < |at| ensures IsNamed(g, ChildEdges(g, tid, k)[n]) && ChildEdges(g, tid, k)[n].target == at[n] {
      assert ChildEdge(g)(ChildEdges(g, tid, k)[n], at[n]);
    }
  }

  lemma PairsAt(g: Registry, tid: TypeId) returns (at: seq<nat>)
    requires g.Valid()
    ensures Selects(at, |g.aggregates|, IsPair(g, tid))
    ensures var z := AggregateEdges(g, tid, |g.aggregates|);
            |z| == |at| && forall n | 0 <= n < |z| :: IsPairEdge(g, tid, z[n], at[n])
  {
    var k := |g.aggregates|;
    at := Chosen(k, IsPair(g, tid));
    ChosenSelects(k, IsPair(g, tid));
    PairsPicked(g, tid, k);
    forall n | 0 <= n < |at| ensures IsPairEdge(g, tid, AggregateEdges(g, tid, k)[n], at[n]) {
      assert PairEdge(g, tid)(AggregateEdges(g, tid, k)[n], at[n]);
    }
  }

  lemma ThreeParts<T>(x: seq<T>, y: seq<T>, z: seq<T>)
    ensures var s, a, b := x + y + z, |x|, |x| + |y|;
            && (forall n | 0 <= n < a :: s[n] == x[n])
            && (forall n | a <= n < b :: s[n] == y[n - a])
            && (forall n | b <= n < |s| :: s[n] == z[n - b])
  {
  }

  ghost predicate IsStep(g: Registry, tid: TypeId, e: Edge)
    requires tid < |g.types|
  {
    || (exists i: nat :: IsAttribute(g, tid, e, i))
    || ((e.target, tid) in g.childOf && IsNamed(g, e))
    || (exists p: nat :: IsPairEdge(g, tid, e, p))
  }

  /** As a set: an attribute that is followed, a registered child, or the other type of a pair. */
  lemma EdgesIff(g: Registry, tid: TypeId, e: Edge)
    requires g.Valid() && tid < |g.types|
    ensures e in Edges(g, tid) <==> IsStep(g, tid, e)
  {
    if e in Edges(g, tid) { EdgeIsStep(g, tid, e); }
    if i: nat :| IsAttribute(g, tid, e, i) { AttributeIsIn(g, tid, e, i); }
    if (e.target, tid) in g.childOf && IsNamed(g, e) { ChildIsIn(g, tid, e); }
    if p: nat :| IsPairEdge(g, tid, e, p) { PairIsIn(g, tid, e, p); }
  }

  lemma EdgeIsStep(g: Registry, tid: TypeId, e: Edge)
    requires g.Valid() && tid < |g.types| && e in Edges(g, tid)
    ensures IsStep(g, tid, e)
  {
    var attributes, children, pairs := EdgesInOrder(g, tid);
    var es, a, b := Edges(g, tid), |attributes|, |attributes| + |children|;
    var n :| 0 <= n < |es| && es[n] == e;
    if n < a {
      assert IsAttribute(g, tid, e, attributes[n]);
    } else if n < b {
      assert children[n - a] in children;
      assert IsChild(g, tid)(children[n - a]);
    } else {
      assert IsPairEdge(g, tid, e, pairs[n - b]);
    }
  }

  lemma AttributeIsIn(g: Registry, tid: TypeId, e: Edge, i: nat)
    requires g.Valid() && tid < |g.types| && IsAttribute(g, tid, e, i)
    ensures e in Edges(g, tid)
  {
    var attributes, children, pairs := EdgesInOrder(g, tid);
    assert IsFollowed(g, tid)(i);
    assert i in attributes;
    var n :| 0 <= n < |attributes| && attributes[n] == i;
    assert IsAttribute(g, tid, Edges(g, tid)[n], i);
  }

  lemma ChildIsIn(g: Registry, tid: TypeId, e: Edge)
    requires g.Valid() && tid < |g.types| && (e.target, tid) in g.childOf && IsNamed(g, e)
    ensures e in Edges(g, tid)
  {
    var attributes, children, pairs := EdgesInOrder(g, tid);
    assert IsChild(g, tid)(e.target);
    assert e.target in children;
    var n :| 0 <= n < |children| && children[n] == e.target;
    var f := Edges(g, tid)[|attributes| + n];
    assert IsNamed(g, f) && f.target == e.target;
  }

  lemma PairIsIn(g: Registry, tid: TypeId, e: Edge, p: nat)
    requires g.Valid() && tid < |g.types| && IsPairEdge(g, tid, e, p)
    ensures e in Edges(g, tid)
  {
    var attributes, children, pairs := EdgesInOrder(g, tid);
    assert IsPair(g, tid)(p);
    assert p in pairs;
    var n :| 0 <= n < |pairs| && pairs[n] == p;
    var f := Edges(g, tid)[|attributes| + |children| + n];
    assert IsPairEdge(g, tid, f, p);
    assert f.target == e.target;
  }

  // ---------------------------------------------------------------- what Gather records because of them

  /** Everything one step away from the root is recorded, under the label of the step ... */
  lemma StepIsRecorded(gr: Graph, g: Registry, root: TypeId, e: Edge)
    requires Describes(gr, g) && root < |g.types| && IsStep(g, root, e) && e.target != root
    ensures (e.target, "/" + e.tag) in Gathered(gr, root, [], {})
  {
    EdgesIff(g, root, e);
    assert gr.edges[root] == Edges(g, root);
    var i :| 0 <= i < |gr.edges[root]| && gr.edges[root][i] == e;
    EdgeTargets(gr, root);
    var w: Walk := [i];
    assert w[0] == i && w[1..] == [] && IsWalk(gr, root, w);
    assert Stops(gr, e.target, w[1..]) == [e.target] && Labels(gr, e.target, w[1..]) == [] && End(gr, e.target, w[1..]) == e.target;
    assert Stops(gr, root, w) == [root] + [e.target] && Labels(gr, root, w) == [e.tag] + [] && End(gr, root, w) == e.target;
    forall x, y | 0 <= x < y < |Stops(gr, root, w)| ensures Stops(gr, root, w)[x] != Stops(gr, root, w)[y] {
      assert x == 0 && y == 1;
    }
    WalkIsRecorded(gr, root, w);
    assert [e.tag] + [] == [e.tag] && [e.tag][..0] == [];
    assert PathString([e.tag]) == "" + "/" + e.tag;
    assert "" + "/" + e.tag == "/" + e.tag;
  }

  lemma WalkIsRecorded(gr: Graph, root: TypeId, w: Walk)
    requires gr.Valid() && root < |gr.edges| && IsSimple(gr, root, w, {})
    ensures (End(gr, root, w), PathString(Labels(gr, root, w))) in Gathered(gr, root, [], {})
  {
    var ws, out := Walks.Walks(gr, root, {}), Gathered(gr, root, [], {});
    WalksAreSimple(gr, root, {});
    GatheredWalks(gr, root, [], {});
    var n :| 0 <= n < |ws| && ws[n] == w;
    assert IsEntryOf(gr, root, [], w, out[n]);
    assert [] + Labels(gr, root, w) == Labels(gr, root, w);
    assert out[n] in out;
  }

  /** ... and whatever is recorded under a non-empty path begins with such a step. */
  lemma RecordedBeginsWithStep(gr: Graph, g: Registry, root: TypeId, entry: (TypeId, string))
    requires Describes(gr, g) && root < |g.types| && entry in Gathered(gr, root, [], {}) && entry != (root, "")
    ensures exists e, w :: IsStep(g, root, e) && e.target < |g.types| && e.target != root && IsWalk(gr, e.target, w)
                           && entry == (End(gr, e.target, w), PathString([e.tag] + Labels(gr, e.target, w)))
  {
    var ws, out := Walks.Walks(gr, root, {}), Gathered(gr, root, [], {});
    WalksAreSimple(gr, root, {});
    GatheredWalks(gr, root, [], {});
    var n :| 0 <= n < |out| && out[n] == entry;
    var w := ws[n];
    assert w in ws && IsEntryOf(gr, root, [], w, entry);
    assert [] + Labels(gr, root, w) == Labels(gr, root, w);
    EmptyWalk(gr, root);
    assert w != [];
    EdgeTargets(gr, root);
    var e := gr.edges[root][w[0]];
    EdgesIff(g, root, e);
    assert gr.edges[root] == Edges(g, root) && e in Edges(g, root);
    assert Stops(gr, root, w) == [root] + Stops(gr, e.target, w[1..]);
    FirstStop(gr, e.target, w[1..]);
    assert Stops(gr, root, w)[0] != Stops(gr, root, w)[1];
  }

  lemma EmptyWalk(gr: Graph, v: TypeId)
    requires gr.Valid() && v < |gr.edges|
    ensures IsWalk(gr, v, []) && End(gr, v, []) == v && PathString(Labels(gr, v, [])) == ""
  {
  }

  lemma FirstStop(gr: Graph, v: TypeId, w: Walk)
    requires gr.Valid() && v < |gr.edges| && IsWalk(gr, v, w)
    ensures |Stops(gr, v, w)| > 0 && Stops(gr, v, w)[0] == v
  {
  }

  // ---------------------------------------------------------------- looking up the paths of a type

  ghost function IsEntryFor(out: seq<(TypeId, string)>, tid: TypeId): nat -> bool {
    (i: nat) => i < |out| && out[i].0 == tid
  }

  ghost function EntryPath(out: seq<(TypeId, string)>): (string, nat) -> bool {
    (path: string, i: nat) => i < |out| && path == out[i].1
  }

  lemma {:induction false} PathsPicked(out: seq<(TypeId, string)>, tid: TypeId, k: nat)
    requires k <= |out|
    ensures Picks(PathsTo(out[..k], tid), k, IsEntryFor(out, tid), EntryPath(out))
  {
    if k > 0 {
      PathsPicked(out, tid, k - 1);
      assert out[..k][..k - 1] == out[..k - 1] && out[..k][k - 1] == out[k - 1];
      PicksNext(PathsTo(out[..k - 1], tid), k - 1, IsEntryFor(out, tid), EntryPath(out),
                if out[k - 1].0 == tid then [out[k - 1].1] else []);
    }
  }

  /** Get returns the paths of exactly the entries for the type, in the order in which they were recorded. */
  lemma PathsSelected(out: seq<(TypeId, string)>, tid: TypeId) returns (at: seq<nat>)
    ensures Selects(at, |out|, IsEntryFor(out, tid)) && |at| == |PathsTo(out, tid)|
    ensures forall n | 0 <= n < |at| :: at[n] < |out| && PathsTo(out, tid)[n] == out[at[n]].1
  {
    at := Chosen(|out|, IsEntryFor(out, tid));
    ChosenSelects(|out|, IsEntryFor(out, tid));
    PathsPicked(out, tid, |out|);
    assert out[..|out|] == out;
    assert forall n | 0 <= n < |at| :: EntryPath(out)(PathsTo(out, tid)[n], at[n]);
  }
}
