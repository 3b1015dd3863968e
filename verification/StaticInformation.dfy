// The walk over the TypeId graph in utils/print-introspected-doxygen.cc that collects
// every configuration path.  DoGather backtracks over one shared path and one shared stack.
module StaticInformation {
  import opened Walks

  datatype Checker = PointerChecker(pointee: TypeId) | ContainerChecker(item: TypeId) | OtherChecker

  datatype Attribute = Attribute(name: string, checker: Checker)

  datatype TypeInfo = TypeInfo(name: string, attributes: seq<Attribute>)

  /** What DoGather asks of the type system and of RecordAggregationInfo: the registered types, the pairs
      (child, ancestor), the TypeId of Object, and the aggregation pairs. */
  datatype Registry = Registry(types: seq<TypeInfo>, childOf: set<(TypeId, TypeId)>, object_: TypeId,
                               aggregates: seq<(TypeId, TypeId)>) {
    predicate Valid() {
      && (forall t | 0 <= t < |types| :: forall a | a in types[t].attributes ::
            (a.checker.PointerChecker? ==> a.checker.pointee < |types|)
            && (a.checker.ContainerChecker? ==> a.checker.item < |types|))
      && (forall p | p in aggregates :: p.0 < |types| && p.1 < |types|)
    }
  }

  // ---------------------------------------------------------------- the graph

  /** The edges for the first k attributes of a type; a pointer to Object itself is not followed. */
  function AttributeEdges(g: Registry, tid: TypeId, k: nat): seq<Edge>
    requires tid < |g.types| && k <= |g.types[tid].attributes|
  {
    if k == 0 then []
    else
      var a := g.types[tid].attributes[k - 1];
      match a.checker
      case PointerChecker(p) =>
        if p == g.object_ then AttributeEdges(g, tid, k - 1)
        else AttributeEdges(g, tid, k - 1) + [Edge(a.name, p)]
      case ContainerChecker(t) => AttributeEdges(g, tid, k - 1) + [Edge(a.name + "/[i]", t)]
      case OtherChecker => AttributeEdges(g, tid, k - 1)
  }

  /** The edges to those of the first k registered types that are children. */
  function ChildEdges(g: Registry, tid: TypeId, k: nat): seq<Edge>
    requires k <= |g.types|
  {
    if k == 0 then []
    else if (k - 1, tid) in g.childOf then ChildEdges(g, tid, k - 1) + [Edge("$" + g.types[k - 1].name, k - 1)]
    else ChildEdges(g, tid, k - 1)
  }

  /** The edges for the first k aggregation pairs. */
  function AggregateEdges(g: Registry, tid: TypeId, k: nat): seq<Edge>
    requires g.Valid() && k <= |g.aggregates|
  {
    if k == 0 then []
    else
      var p := g.aggregates[k - 1];
      if p.0 != tid && p.1 != tid then AggregateEdges(g, tid, k - 1)
      else
        var other := if p.1 == tid then p.0 else p.1;
        AggregateEdges(g, tid, k - 1) + [Edge("$" + g.types[other].name, other)]
  }

  function Edges(g: Registry, tid: TypeId): seq<Edge>
    requires g.Valid() && tid < |g.types|
  {
    AttributeEdges(g, tid, |g.types[tid].attributes|) + ChildEdges(g, tid, |g.types|)
    + AggregateEdges(g, tid, |g.aggregates|)
  }

  predicate InRange(g: Registry, es: seq<Edge>) {
    forall e | e in es :: e.target < |g.types|
  }

  lemma {:induction false} AttributeTargets(g: Registry, tid: TypeId, k: nat)
    requires g.Valid() && tid < |g.types| && k <= |g.types[tid].attributes|
    ensures InRange(g, AttributeEdges(g, tid, k))
  {
    if k > 0 {
      AttributeTargets(g, tid, k - 1);
      assert g.types[tid].attributes[k - 1] in g.types[tid].attributes;
    }
  }

  lemma {:induction false} ChildTargets(g: Registry, tid: TypeId, k: nat)
    requires k <= |g.types|
    ensures InRange(g, ChildEdges(g, tid, k))
  {
    if k > 0 { ChildTargets(g, tid, k - 1); }
  }

  lemma {:induction false} AggregateTargets(g: Registry, tid: TypeId, k: nat)
    requires g.Valid() && k <= |g.aggregates|
    ensures InRange(g, AggregateEdges(g, tid, k))
  {
    if k > 0 {
      AggregateTargets(g, tid, k - 1);
      assert g.aggregates[k - 1] in g.aggregates;
    }
  }

  lemma RegistryTargets(g: Registry, tid: TypeId)
    requires g.Valid() && tid < |g.types|
    ensures InRange(g, Edges(g, tid))
  {
    AttributeTargets(g, tid, |g.types[tid].attributes|);
    ChildTargets(g, tid, |g.types|);
    AggregateTargets(g, tid, |g.aggregates|);
  }

  /** gr has the registered types as nodes and their edges in the order of DoGather. */
  ghost predicate Describes(gr: Graph, g: Registry) {
    && g.Valid() && gr.Valid()
    && |gr.edges| == |g.types|
    && forall v {:trigger Edges(g, v)} | 0 <= v < |g.types| :: gr.edges[v] == Edges(g, v)
  }

  ghost function GraphOf(g: Registry): (gr: Graph)
    requires g.Valid()
    ensures Describes(gr, g)
  {
    var gr := Graph(seq(|g.types|, v requires 0 <= v < |g.types| => Edges(g, v)));
    assert gr.Valid() by {
      forall v | 0 <= v < |gr.edges| ensures forall e | e in gr.edges[v] :: e.target < |gr.edges| {
        RegistryTargets(g, v);
      }
    }
    gr
  }

  lemma {:induction false} AttributePrefix(g: Registry, tid: TypeId, k: nat)
    requires g.Valid() && tid < |g.types| && k <= |g.types[tid].attributes|
    ensures forall e | e in AttributeEdges(g, tid, k) :: e in AttributeEdges(g, tid, |g.types[tid].attributes|)
    decreases |g.types[tid].attributes| - k
  {
    if k < |g.types[tid].attributes| { AttributePrefix(g, tid, k + 1); }
  }

  lemma {:induction false} ChildPrefix(g: Registry, tid: TypeId, k: nat)
    requires g.Valid() && tid < |g.types| && k <= |g.types|
    ensures forall e | e in ChildEdges(g, tid, k) :: e in ChildEdges(g, tid, |g.types|)
    decreases |g.types| - k
  {
    if k < |g.types| { ChildPrefix(g, tid, k + 1); }
  }

  lemma {:induction false} AggregatePrefix(g: Registry, tid: TypeId, k: nat)
    requires g.Valid() && tid < |g.types| && k <= |g.aggregates|
    ensures forall e | e in AggregateEdges(g, tid, k) :: e in AggregateEdges(g, tid, |g.aggregates|)
    decreases |g.aggregates| - k
  {
    if k < |g.aggregates| { AggregatePrefix(g, tid, k + 1); }
  }

  lemma AttributeIsEdge(g: Registry, gr: Graph, tid: TypeId, i: nat, e: Edge)
    requires Describes(gr, g) && tid < |g.types| && i < |g.types[tid].attributes|
    requires AttributeEdges(g, tid, i + 1) == AttributeEdges(g, tid, i) + [e]
    ensures e in gr.edges[tid] && e.target < |g.types|
  {
    AttributePrefix(g, tid, i + 1);
    AttributeTargets(g, tid, i + 1);
    assert e in AttributeEdges(g, tid, i + 1);
    assert e in Edges(g, tid);
  }

  lemma ChildIsEdge(g: Registry, gr: Graph, tid: TypeId, j: nat, e: Edge)
    requires Describes(gr, g) && tid < |g.types| && j < |g.types|
    requires ChildEdges(g, tid, j + 1) == ChildEdges(g, tid, j) + [e]
    ensures e in gr.edges[tid] && e.target < |g.types|
  {
    ChildPrefix(g, tid, j + 1);
    ChildTargets(g, tid, j + 1);
    assert e in ChildEdges(g, tid, j + 1);
    assert e in Edges(g, tid);
  }

  lemma AggregateIsEdge(g: Registry, gr: Graph, tid: TypeId, k: nat, e: Edge)
    requires Describes(gr, g) && tid < |g.types| && k < |g.aggregates|
    requires AggregateEdges(g, tid, k + 1) == AggregateEdges(g, tid, k) + [e]
    ensures e in gr.edges[tid] && e.target < |g.types|
  {
    AggregatePrefix(g, tid, k + 1);
    AggregateTargets(g, tid, k + 1);
    assert e in AggregateEdges(g, tid, k + 1);
    assert e in Edges(g, tid);
  }

  // ---------------------------------------------------------------- the program

  function SetOf(stack: seq<TypeId>): set<TypeId> {
    set t | t in stack
  }

  /** The labels on the path lead along edges from each type on the stack to the next, and to tid. */
  ghost predicate OnPath(g: Graph, stack: seq<TypeId>, path: seq<string>, tid: TypeId) {
    && |path| == |stack|
    && (stack != [] ==>
          var n := |stack| - 1;
          && stack[n] < |g.edges| && Edge(path[n], tid) in g.edges[stack[n]]
          && OnPath(g, stack[..n], path[..n], stack[n]))
  }

  lemma Pushed(g: Graph, stack: seq<TypeId>, path: seq<string>, tid: TypeId, name: string, target: TypeId)
    requires tid < |g.edges| && OnPath(g, stack, path, tid) && Edge(name, target) in g.edges[tid]
    ensures OnPath(g, stack + [tid], path + [name], target)
    ensures SetOf(stack + [tid]) == SetOf(stack) + {tid}
  {
    Popped(stack, tid);
    Popped(path, name);
  }

  lemma Popped<T>(s: seq<T>, x: T)
    ensures (s + [x])[..|s + [x]| - 1] == s
  {
  }

  lemma Collect<T>(out: seq<T>, x: seq<T>, a: seq<T>, b: seq<T>, c: seq<T>)
    ensures out + x + a + b + c == out + (x + ((a + b) + c))
  {
  }

  class StaticInformation {
    const g: Registry
    ghost const gr: Graph
    var m_output: seq<(TypeId, string)>
    var m_currentPath: seq<string>
    var m_alreadyProcessed: seq<TypeId>

    constructor (g: Registry)
      requires g.Valid()
      ensures this.g == g && Describes(gr, g) && m_output == [] && m_currentPath == [] && m_alreadyProcessed == []
    {
      this.g, this.gr := g, GraphOf(g);
      m_output, m_currentPath, m_alreadyProcessed := [], [], [];
    }

    /** The loops of DoGather for tid have dealt with the edges es since the output was base. */
    ghost predicate Visited(tid: TypeId, path: seq<string>, stack: seq<TypeId>, base: seq<(TypeId, string)>, es: seq<Edge>)
      requires gr.Valid()
      reads this
    {
      && m_currentPath == path && m_alreadyProcessed == stack && Targets(gr, es)
      && m_output == base + GatheredBy(gr, es, path, SetOf(stack) + {tid})
    }

    method GetCurrentPath() returns (s: string)
      ensures s == PathString(m_currentPath)
    {
      s := "";
      for i := 0 to |m_currentPath|
        invariant s == PathString(m_currentPath[..i])
      {
        assert m_currentPath[..i + 1][..i] == m_currentPath[..i];
        s := s + "/" + m_currentPath[i];
      }
      assert m_currentPath[..|m_currentPath|] == m_currentPath;
    }

    method RecordOutput(tid: TypeId)
      modifies this`m_output
      ensures m_output == old(m_output) + [(tid, PathString(m_currentPath))]
    {
      var path := GetCurrentPath();
      m_output := m_output + [(tid, path)];
    }

    method HasAlreadyBeenProcessed(tid: TypeId) returns (found: bool)
      ensures found <==> tid in SetOf(m_alreadyProcessed)
    {
      for i := 0 to |m_alreadyProcessed|
        invariant tid !in m_alreadyProcessed[..i]
      {
        if m_alreadyProcessed[i] == tid {
          return true;
        }
      }
      return false;
    }

    /** The five statements that DoGather has at each of its four recursive calls; es are the edges
        out of tid that were visited before, and base is the output before them. */
    method Visit(tid: TypeId, name: string, target: TypeId, ghost base: seq<(TypeId, string)>, ghost es: seq<Edge>)
      requires Describes(gr, g) && tid < |g.types| && tid !in SetOf(m_alreadyProcessed)
      requires OnPath(gr, m_alreadyProcessed, m_currentPath, tid)
      requires target < |g.types| && Edge(name, target) in gr.edges[tid]
      requires Visited(tid, m_currentPath, m_alreadyProcessed, base, es)
      modifies this
      ensures Visited(tid, old(m_currentPath), old(m_alreadyProcessed), base, es + [Edge(name, target)])
      decreases Left(gr, SetOf(m_alreadyProcessed) + {tid}), 2
    {
      ghost var path, stack, seen := m_currentPath, m_alreadyProcessed, SetOf(m_alreadyProcessed) + {tid};
      Pushed(gr, stack, path, tid, name, target);
      Popped(path, name);
      Popped(stack, tid);
      GatheredNext(gr, es, Edge(name, target), path, seen);
      Regroup(base, GatheredBy(gr, es, path, seen), Gathered(gr, target, path + [name], seen));
      m_currentPath := m_currentPath + [name];
      m_alreadyProcessed := m_alreadyProcessed + [tid];
      DoGather(target);
      m_alreadyProcessed := m_alreadyProcessed[..|m_alreadyProcessed| - 1];
      m_currentPath := m_currentPath[..|m_currentPath| - 1];
    }

    /** One attribute in the first loop of DoGather. */
    method GatherAttribute(tid: TypeId, i: nat, ghost base: seq<(TypeId, string)>)
      requires Describes(gr, g) && tid < |g.types| && tid !in SetOf(m_alreadyProcessed)
      requires OnPath(gr, m_alreadyProcessed, m_currentPath, tid)
      requires i < |g.types[tid].attributes|
      requires Visited(tid, m_currentPath, m_alreadyProcessed, base, AttributeEdges(g, tid, i))
      modifies this
      ensures Visited(tid, old(m_currentPath), old(m_alreadyProcessed), base, AttributeEdges(g, tid, i + 1))
      decreases Left(gr, SetOf(m_alreadyProcessed) + {tid}), 3
    {
      var info := g.types[tid].attributes[i];
      ghost var es := AttributeEdges(g, tid, i);
      match info.checker {
        case PointerChecker(pointee) =>
          if g.object_ == pointee {
            return;
          }
          AttributeIsEdge(g, gr, tid, i, Edge(info.name, pointee));
          Visit(tid, info.name, pointee, base, es);
        case ContainerChecker(item) =>
          AttributeIsEdge(g, gr, tid, i, Edge(info.name + "/[i]", item));
          Visit(tid, info.name + "/[i]", item, base, es);
        case OtherChecker =>
      }
    }

    /** One registered type in the second loop. */
    method GatherChild(tid: TypeId, j: nat, ghost base: seq<(TypeId, string)>)
      requires Describes(gr, g) && tid < |g.types| && tid !in SetOf(m_alreadyProcessed)
      requires OnPath(gr, m_alreadyProcessed, m_currentPath, tid)
      requires j < |g.types|
      requires Visited(tid, m_currentPath, m_alreadyProcessed, base, ChildEdges(g, tid, j))
      modifies this
      ensures Visited(tid, old(m_currentPath), old(m_alreadyProcessed), base, ChildEdges(g, tid, j + 1))
      decreases Left(gr, SetOf(m_alreadyProcessed) + {tid}), 3
    {
      if (j, tid) in g.childOf {
        var childName := "$" + g.types[j].name;
        ChildIsEdge(g, gr, tid, j, Edge(childName, j));
        Visit(tid, childName, j, base, ChildEdges(g, tid, j));
      }
    }

    /** One aggregation pair in the third loop. */
    method GatherAggregate(tid: TypeId, k: nat, ghost base: seq<(TypeId, string)>)
      requires Describes(gr, g) && tid < |g.types| && tid !in SetOf(m_alreadyProcessed)
      requires OnPath(gr, m_alreadyProcessed, m_currentPath, tid)
      requires k < |g.aggregates|
      requires Visited(tid, m_currentPath, m_alreadyProcessed, base, AggregateEdges(g, tid, k))
      modifies this
      ensures Visited(tid, old(m_currentPath), old(m_alreadyProcessed), base, AggregateEdges(g, tid, k + 1))
      decreases Left(gr, SetOf(m_alreadyProcessed) + {tid}), 3
    {
      var item := g.aggregates[k];
      assert item in g.aggregates;
      if item.0 == tid || item.1 == tid {
        var other := tid;
        if item.0 == tid {
          other := item.1;
        }
        if item.1 == tid {
          other := item.0;
        }
        var name := "$" + g.types[other].name;
        AggregateIsEdge(g, gr, tid, k, Edge(name, other));
        Visit(tid, name, other, base, AggregateEdges(g, tid, k));
      }
    }

    /** The first loop of DoGather. */
    method GatherAttributes(tid: TypeId)
      requires Describes(gr, g) && tid < |g.types| && tid !in SetOf(m_alreadyProcessed)
      requires OnPath(gr, m_alreadyProcessed, m_currentPath, tid)
      modifies this
      ensures Visited(tid, old(m_currentPath), old(m_alreadyProcessed), old(m_output),
                      AttributeEdges(g, tid, |g.types[tid].attributes|))
      decreases Left(gr, SetOf(m_alreadyProcessed) + {tid}), 4
    {
      Regroup(m_output, [], []);
      for i := 0 to |g.types[tid].attributes|
        invariant Visited(tid, old(m_currentPath), old(m_alreadyProcessed), old(m_output), AttributeEdges(g, tid, i))
      {
        GatherAttribute(tid, i, old(m_output));
      }
    }

    /** The second loop of DoGather. */
    method GatherChildren(tid: TypeId)
      requires Describes(gr, g) && tid < |g.types| && tid !in SetOf(m_alreadyProcessed)
      requires OnPath(gr, m_alreadyProcessed, m_currentPath, tid)
      modifies this
      ensures Visited(tid, old(m_currentPath), old(m_alreadyProcessed), old(m_output), ChildEdges(g, tid, |g.types|))
      decreases Left(gr, SetOf(m_alreadyProcessed) + {tid}), 4
    {
      Regroup(m_output, [], []);
      for j := 0 to |g.types|
        invariant Visited(tid, old(m_currentPath), old(m_alreadyProcessed), old(m_output), ChildEdges(g, tid, j))
      {
        GatherChild(tid, j, old(m_output));
      }
    }

    /** The third loop of DoGather. */
    method GatherAggregates(tid: TypeId)
      requires Describes(gr, g) && tid < |g.types| && tid !in SetOf(m_alreadyProcessed)
      requires OnPath(gr, m_alreadyProcessed, m_currentPath, tid)
      modifies this
      ensures Visited(tid, old(m_currentPath), old(m_alreadyProcessed), old(m_output),
                      AggregateEdges(g, tid, |g.aggregates|))
      decreases Left(gr, SetOf(m_alreadyProcessed) + {tid}), 4
    {
      Regroup(m_output, [], []);
      for k := 0 to |g.aggregates|
        invariant Visited(tid, old(m_currentPath), old(m_alreadyProcessed), old(m_output), AggregateEdges(g, tid, k))
      {
        GatherAggregate(tid, k, old(m_output));
      }
    }

    /** At every call the two stacks describe the same path, and both are restored on return. */
    method DoGather(tid: TypeId)
      requires Describes(gr, g) && tid < |g.types|
      requires OnPath(gr, m_alreadyProcessed, m_currentPath, tid)
      modifies this
      ensures m_currentPath == old(m_currentPath) && m_alreadyProcessed == old(m_alreadyProcessed)
      ensures m_output == old(m_output) + Gathered(gr, tid, m_currentPath, SetOf(m_alreadyProcessed))
      decreases Left(gr, SetOf(m_alreadyProcessed)), 1
    {
      var processed := HasAlreadyBeenProcessed(tid);
      if processed {
        Regroup(m_output, [], []);
        return;
      }
      ghost var path, seen := m_currentPath, SetOf(m_alreadyProcessed);
      LeftDrops(gr, seen, tid);
      GatheredEdges(g, gr, tid, path, seen);
      Collect(m_output, [(tid, PathString(path))],
              GatheredBy(gr, AttributeEdges(g, tid, |g.types[tid].attributes|), path, seen + {tid}),
              GatheredBy(gr, ChildEdges(g, tid, |g.types|), path, seen + {tid}),
              GatheredBy(gr, AggregateEdges(g, tid, |g.aggregates|), path, seen + {tid}));
      RecordOutput(tid);
      GatherAttributes(tid);
      GatherChildren(tid);
      GatherAggregates(tid);
    }

    /** The call of Uniquefy in the source sorts a copy of m_output and leaves m_output as it is, with
        every entry that the walk records twice. */
    method Gather(tid: TypeId)
      requires Describes(gr, g) && tid < |g.types| && m_currentPath == [] && m_alreadyProcessed == []
      modifies this
      ensures m_currentPath == [] && m_alreadyProcessed == []
      ensures m_output == old(m_output) + Gathered(gr, tid, [], {})
      ensures exists ws, out :: ListsSimpleWalks(gr, tid, {}, ws) && EntriesOf(gr, tid, [], ws, out)
                                && m_output == old(m_output) + out
    {
      assert SetOf([]) == {};
      DoGather(tid);
      WalksAreSimple(gr, tid, {});
      GatheredWalks(gr, tid, [], {});
    }

    method Get(tid: TypeId) returns (paths: seq<string>)
      ensures paths == PathsTo(m_output, tid)
    {
      paths := [];
      for i := 0 to |m_output|
        invariant paths == PathsTo(m_output[..i], tid)
      {
        assert m_output[..i + 1][..i] == m_output[..i];
        if m_output[i].0 == tid {
          paths := paths + [m_output[i].1];
        }
      }
      assert m_output[..|m_output|] == m_output;
    }
  }

  lemma GatheredEdges(g: Registry, gr: Graph, tid: TypeId, path: seq<string>, seen: set<TypeId>)
    requires Describes(gr, g) && tid < |g.types| && tid !in seen
    ensures var a, b, c := AttributeEdges(g, tid, |g.types[tid].attributes|), ChildEdges(g, tid, |g.types|),
                           AggregateEdges(g, tid, |g.aggregates|);
            && Targets(gr, a) && Targets(gr, b) && Targets(gr, c)
            && Gathered(gr, tid, path, seen)
               == [(tid, PathString(path))] + ((GatheredBy(gr, a, path, seen + {tid})
                  + GatheredBy(gr, b, path, seen + {tid})) + GatheredBy(gr, c, path, seen + {tid}))
  {
    var a, b, c := AttributeEdges(g, tid, |g.types[tid].attributes|), ChildEdges(g, tid, |g.types|),
                   AggregateEdges(g, tid, |g.aggregates|);
    AttributeTargets(g, tid, |g.types[tid].attributes|);
    ChildTargets(g, tid, |g.types|);
    AggregateTargets(g, tid, |g.aggregates|);
    assert gr.edges[tid] == Edges(g, tid);
    GatheredParts(gr, tid, a, b, c, path, seen);
  }

  lemma GatheredParts(gr: Graph, tid: TypeId, a: seq<Edge>, b: seq<Edge>, c: seq<Edge>, path: seq<string>, seen: set<TypeId>)
    requires gr.Valid() && tid < |gr.edges| && tid !in seen
    requires Targets(gr, a) && Targets(gr, b) && Targets(gr, c) && gr.edges[tid] == a + b + c
    ensures Gathered(gr, tid, path, seen)
         == [(tid, PathString(path))] + ((GatheredBy(gr, a, path, seen + {tid})
            + GatheredBy(gr, b, path, seen + {tid})) + GatheredBy(gr, c, path, seen + {tid}))
  {
    GatheredConcat(gr, a, b, path, seen + {tid});
    GatheredConcat(gr, a + b, c, path, seen + {tid});
  }

  /** The paths of the entries for one type, in order. */
  function PathsTo(out: seq<(TypeId, string)>, tid: TypeId): seq<string> {
    if out == [] then []
    else PathsTo(out[..|out| - 1], tid) + if out[|out| - 1].0 == tid then [out[|out| - 1].1] else []
  }
}
