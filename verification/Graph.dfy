/** The part of the graph the runner asks about: what lies downstream of a node. */
module Graph {
  import opened Common

  type NodeId = string

  datatype PortRef = PortRef(node: NodeId, port: string)

  datatype Edge = Edge(from: PortRef, to: PortRef)

  predicate Feeds(edges: seq<Edge>, a: NodeId, b: NodeId) {
    exists e :: e in edges && e.from.node == a && e.to.node == b
  }

  ghost predicate IsPath(edges: seq<Edge>, path: seq<NodeId>) {
    forall i :: 0 <= i < |path| - 1 ==> Feeds(edges, path[i], path[i + 1])
  }

  /** There is a path of at least one edge. */
  ghost predicate Downstream(edges: seq<Edge>, a: NodeId, b: NodeId) {
    exists path :: |path| >= 2 && path[0] == a && Last(path) == b && IsPath(edges, path)
  }

  lemma OneEdgeDownstream(edges: seq<Edge>, a: NodeId, b: NodeId)
    requires Feeds(edges, a, b)
    ensures Downstream(edges, a, b)
  {
    assert IsPath(edges, [a, b]);
  }

  lemma FurtherDownstream(edges: seq<Edge>, a: NodeId, b: NodeId, c: NodeId)
    requires Downstream(edges, a, b) && Feeds(edges, b, c)
    ensures Downstream(edges, a, c)
  {
    var path :| |path| >= 2 && path[0] == a && Last(path) == b && IsPath(edges, path);
    var longer := path + [c];
    forall i | 0 <= i < |longer| - 1 ensures Feeds(edges, longer[i], longer[i + 1]) {
    }
    assert IsPath(edges, longer);
  }

  ghost predicate ClosedFrom(edges: seq<Edge>, start: NodeId, seen: set<NodeId>) {
    forall e :: e in edges && (e.from.node == start || e.from.node in seen) ==> e.to.node in seen
  }

  /** Whatever contains the successors of its members and of the start contains everything downstream. */
  lemma {:induction false} ClosedHoldsPath(edges: seq<Edge>, start: NodeId, seen: set<NodeId>, path: seq<NodeId>)
    requires ClosedFrom(edges, start, seen)
    requires |path| >= 2 && path[0] == start && IsPath(edges, path)
    ensures Last(path) in seen
    decreases |path|
  {
    var n := |path| - 2;
    assert Feeds(edges, path[n], path[n + 1]);
    if n > 0 {
      var shorter := Front(path);
      forall i | 0 <= i < |shorter| - 1 ensures Feeds(edges, shorter[i], shorter[i + 1]) {
        assert shorter[i] == path[i] && shorter[i + 1] == path[i + 1];
      }
      ClosedHoldsPath(edges, start, seen, shorter);
    }
  }

  function Targets(edges: seq<Edge>): set<NodeId> {
    set e | e in edges :: e.to.node
  }

  /** Everything between the loop's work list and its result: nodes already seen, and for each node
      expanded so far its successors among them. */
  ghost predicate Expanding(edges: seq<Edge>, start: NodeId, seen: set<NodeId>, stack: seq<NodeId>) {
    && seen <= Targets(edges)
    && (forall n :: n in seen ==> Downstream(edges, start, n))
    && (forall n :: n in stack ==> n == start || n in seen)
  }

  ghost predicate Expanded(edges: seq<Edge>, seen: set<NodeId>, n: NodeId) {
    forall e :: e in edges && e.from.node == n ==> e.to.node in seen
  }

  lemma SeenIsDownstream(edges: seq<Edge>, start: NodeId, seen: set<NodeId>)
    requires Expanding(edges, start, seen, [])
    requires forall n :: n == start || n in seen ==> Expanded(edges, seen, n)
    ensures forall n :: n in seen <==> Downstream(edges, start, n)
  {
    forall e | e in edges && (e.from.node == start || e.from.node in seen) ensures e.to.node in seen {
      assert Expanded(edges, seen, e.from.node);
    }
    forall n | Downstream(edges, start, n) ensures n in seen {
      var path :| |path| >= 2 && path[0] == start && Last(path) == n && IsPath(edges, path);
      ClosedHoldsPath(edges, start, seen, path);
    }
  }

  lemma NewlySeen(edges: seq<Edge>, start: NodeId, current: NodeId, e: Edge)
    requires e in edges && e.from.node == current
    requires current == start || Downstream(edges, start, current)
    ensures Downstream(edges, start, e.to.node)
  {
    assert Feeds(edges, current, e.to.node);
    if current == start {
      OneEdgeDownstream(edges, start, e.to.node);
    } else {
      FurtherDownstream(edges, start, current, e.to.node);
    }
  }

  /** Every node seen is still on the work list or has all its successors seen. */
  ghost predicate Settled(edges: seq<Edge>, start: NodeId, seen: set<NodeId>, stack: seq<NodeId>) {
    forall n :: (n == start || n in seen) && n !in stack ==> Expanded(edges, seen, n)
  }

  lemma StaysSettled(edges: seq<Edge>, start: NodeId, current: NodeId, seen0: set<NodeId>, rest: seq<NodeId>,
                     seen: set<NodeId>, stack: seq<NodeId>)
    requires Settled(edges, start, seen0, rest + [current])
    requires seen0 <= seen && Expanded(edges, seen, current)
    requires forall n :: n in rest || (n in seen && n !in seen0) ==> n in stack
    ensures Settled(edges, start, seen, stack)
  {
    forall n | (n == start || n in seen) && n !in stack ensures Expanded(edges, seen, n) {
      if n != current {
        assert n !in rest + [current];
        assert Expanded(edges, seen0, n);
      }
    }
  }

  /** The edges leaving one node: what they lead to is seen from now on and nothing else, and exactly what was not
      seen before is still to be expanded. */
  method Expand(edges: seq<Edge>, ghost start: NodeId, current: NodeId, seen0: set<NodeId>, stack0: seq<NodeId>)
    returns (seen: set<NodeId>, stack: seq<NodeId>)
    requires Expanding(edges, start, seen0, stack0) && (current == start || current in seen0)
    ensures seen0 <= seen && Expanding(edges, start, seen, stack) && Expanded(edges, seen, current)
    ensures forall n :: n in seen <==> n in seen0 || Feeds(edges, current, n)
    ensures forall n :: n in stack <==> n in stack0 || (n in seen && n !in seen0)
    ensures seen == seen0 ==> stack == stack0
  {
    seen, stack := seen0, stack0;
    var i := 0;
    while i < |edges|
      invariant 0 <= i <= |edges|
      invariant seen0 <= seen && Expanding(edges, start, seen, stack)
      invariant forall n :: n in stack <==> n in stack0 || (n in seen && n !in seen0)
      invariant forall n :: n in seen ==> n in seen0 || Feeds(edges, current, n)
      invariant forall k :: 0 <= k < i && edges[k].from.node == current ==> edges[k].to.node in seen
      invariant seen == seen0 ==> stack == stack0
    {
      var e := edges[i];
      if e.from.node == current && e.to.node !in seen {
        NewlySeen(edges, start, current, e);
        seen := seen + {e.to.node};
        stack := stack + [e.to.node];
      }
      i := i + 1;
    }
  }

  /** After that, what was settled stays so, and either nothing new was seen or less is left to see. */
  lemma ExpandingFurther(edges: seq<Edge>, start: NodeId, current: NodeId, seen0: set<NodeId>, rest: seq<NodeId>,
                         seen: set<NodeId>, stack: seq<NodeId>)
    requires Settled(edges, start, seen0, rest + [current])
    requires seen0 <= seen <= Targets(edges) && Expanded(edges, seen, current)
    requires forall n :: n in rest || (n in seen && n !in seen0) ==> n in stack
    ensures Settled(edges, start, seen, stack)
    ensures seen == seen0 || |Targets(edges) - seen| < |Targets(edges) - seen0|
  {
    StaysSettled(edges, start, current, seen0, rest, seen, stack);
    if seen != seen0 {
      FewerLeft(Targets(edges), seen0, seen);
    }
  }

  /** Stops on every graph, cycles included, with exactly the nodes downstream of `start`. That includes
      `start` itself when it lies on a cycle. */
  method Descendants(edges: seq<Edge>, start: NodeId) returns (seen: set<NodeId>)
    ensures forall n :: n in seen <==> Downstream(edges, start, n)
  {
    seen := {};
    var stack := [start];
    while stack != []
      invariant Expanding(edges, start, seen, stack)
      invariant Settled(edges, start, seen, stack)
      decreases |Targets(edges) - seen|, |stack|
    {
      var current, rest := Last(stack), Front(stack);
      assert stack == rest + [current];
      var more, longer := Expand(edges, start, current, seen, rest);
      ExpandingFurther(edges, start, current, seen, rest, more, longer);
      seen, stack := more, longer;
    }
    SeenIsDownstream(edges, start, seen);
  }

  lemma FewerLeft(all: set<NodeId>, before: set<NodeId>, after: set<NodeId>)
    requires before < after <= all
    ensures |all - after| < |all - before|
  {
    var n :| n in after && n !in before;
    assert all - after <= (all - before) - {n};
    SubsetIsNoLarger(all - after, (all - before) - {n});
  }

  /** When a node fails, the nodes downstream of it are marked skipped. Marking is complete: nothing
      outside the result takes an input from the node or from anything in the result. */
  lemma NothingOutsideDependsOnIt(edges: seq<Edge>, start: NodeId, seen: set<NodeId>, e: Edge)
    requires forall n :: n in seen <==> Downstream(edges, start, n)
    requires e in edges && e.to.node !in seen
    ensures e.from.node != start && e.from.node !in seen
  {
    assert Feeds(edges, e.from.node, e.to.node);
    if e.from.node == start {
      OneEdgeDownstream(edges, start, e.to.node);
    } else if e.from.node in seen {
      FurtherDownstream(edges, start, e.from.node, e.to.node);
    }
  }

  // -- the start among its own descendants -------------------------------------------------------------------

  /** A node is downstream of itself exactly when something it feeds is the node again or leads back to it. */
  lemma StartIsDownstreamExactly(edges: seq<Edge>, start: NodeId)
    ensures Downstream(edges, start, start)
            <==> exists next :: Feeds(edges, start, next) && (next == start || Downstream(edges, next, start))
  {
    if Downstream(edges, start, start) {
      var path :| |path| >= 2 && path[0] == start && Last(path) == start && IsPath(edges, path);
      assert Feeds(edges, path[0], path[1]);
      if |path| > 2 {
        var rest := path[1..];
        forall i | 0 <= i < |rest| - 1 ensures Feeds(edges, rest[i], rest[i + 1]) {
          assert rest[i] == path[i + 1] && rest[i + 1] == path[i + 2];
        }
        assert IsPath(edges, rest);
      }
    }
    if next :| Feeds(edges, start, next) && (next == start || Downstream(edges, next, start)) {
      if next == start {
        OneEdgeDownstream(edges, start, start);
      } else {
        BehindOneEdge(edges, start, next, start);
      }
    }
  }

  lemma BehindOneEdge(edges: seq<Edge>, a: NodeId, b: NodeId, c: NodeId)
    requires Feeds(edges, a, b) && Downstream(edges, b, c)
    ensures Downstream(edges, a, c)
  {
    var path :| |path| >= 2 && path[0] == b && Last(path) == c && IsPath(edges, path);
    var longer := [a] + path;
    forall i | 0 <= i < |longer| - 1 ensures Feeds(edges, longer[i], longer[i + 1]) {
      if i > 0 {
        assert longer[i] == path[i - 1] && longer[i + 1] == path[i];
      }
    }
    assert IsPath(edges, longer);
  }

  /** Two nodes that feed each other are both downstream of either, the one asked about included, although its
      own description leaves it out. */
  lemma CycleHoldsItsStart(there: Edge, back: Edge, seen: set<NodeId>)
    requires there.to.node == back.from.node && back.to.node == there.from.node
    requires forall n :: n in seen <==> Downstream([there, back], there.from.node, n)
    ensures seen == {there.from.node, there.to.node}
  {
    var edges, a, b := [there, back], there.from.node, there.to.node;
    assert there in edges && back in edges;
    assert Feeds(edges, a, b) && Feeds(edges, b, a);
    OneEdgeDownstream(edges, a, b);
    FurtherDownstream(edges, a, b, a);
    assert ClosedFrom(edges, a, {a, b});
    forall n | n in seen ensures n in {a, b} {
      var path :| |path| >= 2 && path[0] == a && Last(path) == n && IsPath(edges, path);
      ClosedHoldsPath(edges, a, {a, b}, path);
    }
  }
}
