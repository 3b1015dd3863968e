// When the walk over the registered types records every path once: a condition on names and relations.
module TypeNames {
  import opened Walks
  import opened StaticInformation
  import opened Duplicates

  /** Types have different names, and so have the attributes of one type; no name could be taken for
      several labels, or that of an attribute for the label of a type. */
  predicate WellNamed(g: Registry) {
    && (forall s, t | 0 <= s < |g.types| && 0 <= t < |g.types| && g.types[s].name == g.types[t].name :: s == t)
    && (forall t | 0 <= t < |g.types| :: '/' !in g.types[t].name && AttributesWellNamed(g.types[t].attributes))
  }

  predicate AttributesWellNamed(attributes: seq<Attribute>) {
    && (forall i, j | 0 <= i < |attributes| && 0 <= j < |attributes| && attributes[i].name == attributes[j].name :: i == j)
    && (forall i | 0 <= i < |attributes| :: '/' !in attributes[i].name && '$' !in attributes[i].name)
  }

  /** The edge that DoGather follows for attribute i, if it follows one. */
  predicate IsAttributeEdge(g: Registry, tid: TypeId, e: Edge, i: nat)
    requires tid < |g.types|
  {
    && i < |g.types[tid].attributes|
    && var a := g.types[tid].attributes[i];
       || (a.checker.PointerChecker? && e == Edge(a.name, a.checker.pointee))
       || (a.checker.ContainerChecker? && e == Edge(a.name + "/[i]", a.checker.item))
  }

  predicate IsTypeEdge(g: Registry, e: Edge) {
    e.target < |g.types| && e.tag == "$" + g.types[e.target].name
  }

  lemma {:induction false} AttributeForm(g: Registry, tid: TypeId, k: nat, e: Edge)
    requires tid < |g.types| && k <= |g.types[tid].attributes| && e in AttributeEdges(g, tid, k)
    ensures exists i: nat :: IsAttributeEdge(g, tid, e, i)
  {
    if k > 0 && e !in AttributeEdges(g, tid, k - 1) {
      assert IsAttributeEdge(g, tid, e, k - 1);
    } else if k > 0 {
      AttributeForm(g, tid, k - 1, e);
    }
  }

  lemma {:induction false} ChildForm(g: Registry, tid: TypeId, k: nat, e: Edge)
    requires k <= |g.types| && e in ChildEdges(g, tid, k)
    ensures IsTypeEdge(g, e)
  {
    if k > 0 && e in ChildEdges(g, tid, k - 1) { ChildForm(g, tid, k - 1, e); }
  }

  lemma {:induction false} AggregateForm(g: Registry, tid: TypeId, k: nat, e: Edge)
    requires g.Valid() && k <= |g.aggregates| && e in AggregateEdges(g, tid, k)
    ensures IsTypeEdge(g, e)
  {
    if k > 0 && e in AggregateEdges(g, tid, k - 1) {
      AggregateForm(g, tid, k - 1, e);
    } else if k > 0 {
      assert g.aggregates[k - 1] in g.aggregates;
    }
  }

  lemma EdgeForm(g: Registry, tid: TypeId, e: Edge)
    requires g.Valid() && tid < |g.types| && e in Edges(g, tid)
    ensures IsTypeEdge(g, e) || exists i: nat :: IsAttributeEdge(g, tid, e, i)
  {
    if e in AttributeEdges(g, tid, |g.types[tid].attributes|) {
      AttributeForm(g, tid, |g.types[tid].attributes|, e);
    } else if e in ChildEdges(g, tid, |g.types|) {
      ChildForm(g, tid, |g.types|, e);
    } else {
      AggregateForm(g, tid, |g.aggregates|, e);
    }
  }

  // ---------------------------------------------------------------- the first segment of a label

  predicate HasFirst(tag: string, n: string, rest: string) {
    '/' !in n && tag + "/" == n + "/" + rest
  }

  lemma FirstMeet(n: string, r: string, m: string, s: string)
    requires '/' !in n && '/' !in m && Starts(n + "/" + r, m + "/" + s)
    ensures n == m
  {
    var a, b := n + "/" + r, m + "/" + s;
    assert a[|n|] == '/' && b[|m|] == '/';
    forall i | 0 <= i < |a| ensures a[i] == b[i] { assert b[..|a|][i] == b[i]; }
    assert forall i | 0 <= i < |n| :: a[i] == n[i] && n[i] != '/';
    assert forall i | 0 <= i < |m| :: b[i] == m[i] && m[i] != '/';
    assert n == a[..|n|] && m == b[..|m|];
    assert a[..|n|] == b[..|n|];
  }

  lemma AttributeFirst(g: Registry, tid: TypeId, e: Edge, i: nat) returns (rest: string)
    requires tid < |g.types| && WellNamed(g) && IsAttributeEdge(g, tid, e, i)
    ensures HasFirst(e.tag, g.types[tid].attributes[i].name, rest) && '$' !in g.types[tid].attributes[i].name
  {
    rest := if g.types[tid].attributes[i].checker.PointerChecker? then "" else "[i]/";
  }

  lemma TypeFirst(g: Registry, e: Edge)
    requires WellNamed(g) && IsTypeEdge(g, e)
    ensures HasFirst(e.tag, e.tag, "") && e.tag[0] == '$'
  {
  }

  lemma TagsApart(g: Registry, tid: TypeId, e: Edge, f: Edge)
    requires g.Valid() && tid < |g.types| && WellNamed(g) && e in Edges(g, tid) && f in Edges(g, tid)
    requires Starts(e.tag + "/", f.tag + "/")
    ensures e == f
  {
    EdgeForm(g, tid, e);
    EdgeForm(g, tid, f);
    if IsTypeEdge(g, e) {
      TypeFirst(g, e);
      if IsTypeEdge(g, f) {
        TypeFirst(g, f);
        FirstMeet(e.tag, "", f.tag, "");
        assert g.types[e.target].name == e.tag[1..] && g.types[f.target].name == f.tag[1..];
      } else {
        var j: nat :| IsAttributeEdge(g, tid, f, j);
        var s := AttributeFirst(g, tid, f, j);
        FirstMeet(e.tag, "", g.types[tid].attributes[j].name, s);
        assert false;
      }
    } else {
      var i: nat :| IsAttributeEdge(g, tid, e, i);
      var r := AttributeFirst(g, tid, e, i);
      if IsTypeEdge(g, f) {
        TypeFirst(g, f);
        FirstMeet(g.types[tid].attributes[i].name, r, f.tag, "");
        assert false;
      } else {
        var j: nat :| IsAttributeEdge(g, tid, f, j);
        var s := AttributeFirst(g, tid, f, j);
        FirstMeet(g.types[tid].attributes[i].name, r, g.types[tid].attributes[j].name, s);
      }
    }
  }

  lemma RegistryIsWellTagged(gr: Graph, g: Registry)
    requires Describes(gr, g) && WellNamed(g)
    ensures WellTagged(gr)
  {
    forall u, i, j | 0 <= u < |gr.edges| && 0 <= i < |gr.edges[u]| && 0 <= j < |gr.edges[u]|
      ensures var a, b := gr.edges[u][i], gr.edges[u][j];
              && (a.tag == b.tag ==> a.target == b.target)
              && (Starts(a.tag + "/", b.tag + "/") ==> a.tag == b.tag)
    {
      var a, b := gr.edges[u][i], gr.edges[u][j];
      assert gr.edges[u] == Edges(g, u) && a in Edges(g, u) && b in Edges(g, u);
      if Starts(a.tag + "/", b.tag + "/") { TagsApart(g, u, a, b); }
    }
  }

  /** With well-formed names Gather records every path once exactly when no simple walk meets two edges to
      the same type under the same label: a pair recorded twice, or a child that is also aggregated. */
  lemma PathsOnceIff(gr: Graph, g: Registry, root: TypeId)
    requires Describes(gr, g) && WellNamed(g) && root < |g.types|
    ensures AllDistinct(Gathered(gr, root, [], {})) <==> forall w, k, j :: !TakesParallel(gr, root, w, k, j)
  {
    RegistryIsWellTagged(gr, g);
    DistinctIffNoParallel(gr, root);
  }

  // ---------------------------------------------------------------- pairs recorded twice

  /** The edge for a pair stands behind those for the pairs before it. */
  lemma {:induction false} AggregateAt(g: Registry, tid: TypeId, p: nat, k: nat)
    requires g.Valid() && p < k <= |g.aggregates| && tid in [g.aggregates[p].0, g.aggregates[p].1]
    ensures var n := |AggregateEdges(g, tid, p)|;
            && n < |AggregateEdges(g, tid, k)|
            && AggregateEdges(g, tid, k)[n].target
               == (if g.aggregates[p].1 == tid then g.aggregates[p].0 else g.aggregates[p].1)
  {
    if k > p + 1 { AggregateAt(g, tid, p, k - 1); }
  }

  lemma {:induction false} AggregateCount(g: Registry, tid: TypeId, p: nat, q: nat)
    requires g.Valid() && p < q <= |g.aggregates| && tid in [g.aggregates[p].0, g.aggregates[p].1]
    ensures |AggregateEdges(g, tid, p)| < |AggregateEdges(g, tid, q)|
  {
    if q > p + 1 { AggregateCount(g, tid, p, q - 1); }
  }

  /** For every registry: two pairs that join the root to the same other type, in either order, make Gather
      record a path twice. */
  lemma PairTwiceDoubles(gr: Graph, g: Registry, root: TypeId, other: TypeId, p: nat, q: nat)
    requires Describes(gr, g) && root < |g.types| && other != root && p < q < |g.aggregates|
    requires g.aggregates[p] in [(root, other), (other, root)] && g.aggregates[q] in [(root, other), (other, root)]
    ensures !AllDistinct(Gathered(gr, root, [], {}))
  {
    var es := AggregateEdges(g, root, |g.aggregates|);
    var first := AttributeEdges(g, root, |g.types[root].attributes|) + ChildEdges(g, root, |g.types|);
    var a, b := |AggregateEdges(g, root, p)|, |AggregateEdges(g, root, q)|;
    AggregateAt(g, root, p, |g.aggregates|);
    AggregateAt(g, root, q, |g.aggregates|);
    AggregateCount(g, root, p, q);
    AggregateForm(g, root, |g.aggregates|, es[a]);
    AggregateForm(g, root, |g.aggregates|, es[b]);
    assert gr.edges[root] == Edges(g, root) == first + es;
    assert gr.edges[root][|first| + a] == es[a] && gr.edges[root][|first| + b] == es[b];
    ParallelAtRootDoubles(gr, root, |first| + a, |first| + b);
  }

  /** A registry with just the pair that GetTypicalAggregations records twice. */
  const RecordedTwice := Registry([TypeInfo("ns3::Node", []), TypeInfo("ns3::Icmpv4L4Protocol", []), TypeInfo("ns3::Object", [])],
                                  {}, 2, [(0, 1), (0, 1)])

  lemma {:induction false} NoChildren(g: Registry, tid: TypeId, k: nat)
    requires g.childOf == {} && k <= |g.types|
    ensures ChildEdges(g, tid, k) == []
  {
    if k > 0 { NoChildren(g, tid, k - 1); }
  }

  lemma EdgesTwice(e: Edge, f: Edge)
    requires e == Edge("$" + "ns3::Icmpv4L4Protocol", 1) && f == Edge("$" + "ns3::Node", 0)
    ensures RecordedTwice.Valid() && Edges(RecordedTwice, 0) == [e, e] && Edges(RecordedTwice, 1) == [f, f]
  {
    var g := RecordedTwice;
    NoChildren(g, 0, 3);
    NoChildren(g, 1, 3);
    assert g.aggregates[0] == (0, 1) && g.aggregates[1] == (0, 1);
    assert AggregateEdges(g, 0, 0) == [] && AggregateEdges(g, 1, 0) == [];
    assert AggregateEdges(g, 0, 1) == [e] && AggregateEdges(g, 1, 1) == [f];
    assert AggregateEdges(g, 0, 2) == [e, e] && AggregateEdges(g, 1, 2) == [f, f];
  }

  lemma PathTwice(gr: Graph)
    requires Describes(gr, RecordedTwice)
    ensures var path := "/" + ("$" + "ns3::Icmpv4L4Protocol"); Gathered(gr, 0, [], {}) == [(0, ""), (1, path), (1, path)]
  {
    var e, f := Edge("$" + "ns3::Icmpv4L4Protocol", 1), Edge("$" + "ns3::Node", 0);
    EdgesTwice(e, f);
    TwoParallelEdges(gr, e, f);
  }

  lemma TwoParallelEdges(gr: Graph, e: Edge, f: Edge)
    requires gr.Valid() && |gr.edges| == 3 && e.target == 1 && f.target == 0
    requires gr.edges[0] == [e, e] && gr.edges[1] == [f, f]
    ensures Gathered(gr, 0, [], {}) == [(0, ""), (1, "/" + e.tag), (1, "/" + e.tag)]
  {
    ThereAndBack(gr, e, f);
    var once := [(1, "/" + e.tag)];
    assert GatheredBy(gr, [e], [], {0}) == once by { assert [e][..0] == []; }
    assert GatheredBy(gr, [e, e], [], {0}) == once + once by { assert [e, e][..1] == [e]; }
    assert {} + {0} == {0} && PathString([]) == "";
  }

  lemma ThereAndBack(gr: Graph, e: Edge, f: Edge)
    requires gr.Valid() && |gr.edges| == 3 && e.target == 1 && f.target == 0
    requires gr.edges[0] == [e, e] && gr.edges[1] == [f, f]
    ensures Gathered(gr, 1, [] + [e.tag], {0}) == [(1, "/" + e.tag)]
  {
    var path, both := [] + [e.tag], {0} + {1};
    assert Gathered(gr, 0, path + [f.tag], both) == [];
    assert GatheredBy(gr, [f], path, both) == [] by { assert [f][..0] == []; }
    assert GatheredBy(gr, [f, f], path, both) == [] by { assert [f, f][..1] == [f]; }
    assert path[..0] == [] && PathString(path) == "/" + e.tag;
  }
}
