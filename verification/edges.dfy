/** Edge derivation: every node's outgoing transitions are flattened into
    edge records whose target is looked up by id in the node lookup, and the
    records whose lookup failed are dropped. */
module EdgeList {
  import opened Canvas

  /** An edge record before filtering: the lookup may have failed. */
  datatype RawEdge = RawEdge(source: Node, target: Option<Node>, symbol: string)

  /** Indexing the node lookup: a missing id yields no node. */
  function Lookup(nodeMap: map<string, Node>, id: string): (r: Option<Node>)
    ensures r.Some? <==> id in nodeMap
    ensures r.Some? ==> r.value == nodeMap[id]
  {
    if id in nodeMap then Some(nodeMap[id]) else None
  }

  /** The record one transition of `src` turns into. */
  function RawOf(src: Node, t: Transition, nodeMap: map<string, Node>): RawEdge
  {
    RawEdge(src, Lookup(nodeMap, t.targetid), t.symbol)
  }

  /** The records of one node's transitions, in transition order. */
  function RawOfNode(src: Node, ts: seq<Transition>, nodeMap: map<string, Node>): (r: seq<RawEdge>)
    ensures |r| == |ts|
    ensures forall k :: 0 <= k < |ts| ==> r[k] == RawOf(src, ts[k], nodeMap)
  {
    seq(|ts|, k requires 0 <= k < |ts| => RawOf(src, ts[k], nodeMap))
  }

  /** Number of transitions over all nodes. */
  function TotalTransitions(nodes: seq<Node>): nat
  {
    if |nodes| == 0 then 0
    else TotalTransitions(nodes[..|nodes| - 1]) + |nodes[|nodes| - 1].transitions|
  }

  /** The flattened, unfiltered records, in node-then-transition order. */
  function RawEdges(nodes: seq<Node>, nodeMap: map<string, Node>): (r: seq<RawEdge>)
    ensures |r| == TotalTransitions(nodes)
    decreases |nodes|
  {
    if |nodes| == 0 then []
    else
      var last := nodes[|nodes| - 1];
      RawEdges(nodes[..|nodes| - 1], nodeMap) + RawOfNode(last, last.transitions, nodeMap)
  }

  /** Each flattened record comes from some transition of some node, and
      every transition of every node gives one. */
  lemma {:induction false} RawEdgesMembership(nodes: seq<Node>, nodeMap: map<string, Node>, q: RawEdge)
    ensures q in RawEdges(nodes, nodeMap) <==>
      exists i, k :: 0 <= i < |nodes| && 0 <= k < |nodes[i].transitions|
                  && q == RawOf(nodes[i], nodes[i].transitions[k], nodeMap)
    decreases |nodes|
  {
    if |nodes| > 0 {
      var init := nodes[..|nodes| - 1];
      var last := nodes[|nodes| - 1];
      var own := RawOfNode(last, last.transitions, nodeMap);
      RawEdgesMembership(init, nodeMap, q);
      assert RawEdges(nodes, nodeMap) == RawEdges(init, nodeMap) + own;
      if q in RawEdges(nodes, nodeMap) {
        if q in RawEdges(init, nodeMap) {
          var i, k :| 0 <= i < |init| && 0 <= k < |init[i].transitions|
                   && q == RawOf(init[i], init[i].transitions[k], nodeMap);
          assert nodes[i] == init[i];
        } else {
          var k :| 0 <= k < |last.transitions| && own[k] == q;
          assert q == RawOf(nodes[|nodes| - 1], nodes[|nodes| - 1].transitions[k], nodeMap);
        }
      }
      if exists i, k :: 0 <= i < |nodes| && 0 <= k < |nodes[i].transitions|
                     && q == RawOf(nodes[i], nodes[i].transitions[k], nodeMap) {
        var i, k :| 0 <= i < |nodes| && 0 <= k < |nodes[i].transitions|
                 && q == RawOf(nodes[i], nodes[i].transitions[k], nodeMap);
        if i < |init| {
          assert init[i] == nodes[i];
          assert q in RawEdges(init, nodeMap);
        } else {
          assert own[k] == q;
        }
      }
    }
  }

  /** The edge a record stands for, when its lookup succeeded. */
  predicate Yields(q: RawEdge, e: Edge)
  {
    q.target == Some(e.target) && q.source == e.source && q.symbol == e.symbol
  }

  /** Drops the records whose target is missing, keeping the order. */
  function KeepResolved(rs: seq<RawEdge>): (r: seq<Edge>)
    ensures |r| <= |rs|
    ensures |r| == |rs| <==> forall j :: 0 <= j < |rs| ==> rs[j].target.Some?
    ensures forall e :: e in r <==> exists j :: 0 <= j < |rs| && Yields(rs[j], e)
    decreases |rs|
  {
    if |rs| == 0 then []
    else
      var init := rs[..|rs| - 1];
      var q := rs[|rs| - 1];
      var rest := KeepResolved(init);
      assert forall j :: 0 <= j < |init| ==> init[j] == rs[j];
      if q.target.Some? then
        var e := Edge(q.source, q.target.value, q.symbol);
        assert Yields(rs[|rs| - 1], e);
        rest + [e]
      else
        assert !(forall j :: 0 <= j < |rs| ==> rs[j].target.Some?) by {
          assert !rs[|rs| - 1].target.Some?;
        }
        rest
  }

  /** The edge list of the canvas: flatten, then filter. */
  function Edges(nodes: seq<Node>, nodeMap: map<string, Node>): seq<Edge>
  {
    KeepResolved(RawEdges(nodes, nodeMap))
  }

  /** Every transition's target id is in the lookup. */
  predicate AllResolvable(nodes: seq<Node>, nodeMap: map<string, Node>)
  {
    forall i, k :: 0 <= i < |nodes| && 0 <= k < |nodes[i].transitions| ==>
      nodes[i].transitions[k].targetid in nodeMap
  }

  lemma {:induction false} KeepResolvedAppend(a: seq<RawEdge>, b: seq<RawEdge>)
    ensures KeepResolved(a + b) == KeepResolved(a) + KeepResolved(b)
    decreases |b|
  {
    if |b| == 0 {
      assert a + b == a;
    } else {
      var b' := b[..|b| - 1];
      assert (a + b)[..|a + b| - 1] == a + b';
      assert (a + b)[|a + b| - 1] == b[|b| - 1];
      KeepResolvedAppend(a, b');
    }
  }

  lemma {:induction false} RawEdgesAppend(n1: seq<Node>, n2: seq<Node>, nodeMap: map<string, Node>)
    ensures RawEdges(n1 + n2, nodeMap) == RawEdges(n1, nodeMap) + RawEdges(n2, nodeMap)
    decreases |n2|
  {
    if |n2| == 0 {
      assert n1 + n2 == n1;
    } else {
      var n2' := n2[..|n2| - 1];
      assert (n1 + n2)[..|n1 + n2| - 1] == n1 + n2';
      assert (n1 + n2)[|n1 + n2| - 1] == n2[|n2| - 1];
      RawEdgesAppend(n1, n2', nodeMap);
    }
  }

  /** Edges keep node order: the edges of a concatenation of node lists are
      the edges of the first list followed by those of the second. */
  lemma EdgesAppend(n1: seq<Node>, n2: seq<Node>, nodeMap: map<string, Node>)
    ensures Edges(n1 + n2, nodeMap) == Edges(n1, nodeMap) + Edges(n2, nodeMap)
  {
    RawEdgesAppend(n1, n2, nodeMap);
    KeepResolvedAppend(RawEdges(n1, nodeMap), RawEdges(n2, nodeMap));
  }

  /** The edges of a single node are those of its own transitions. */
  lemma SingleNodeEdges(n: Node, nodeMap: map<string, Node>)
    ensures Edges([n], nodeMap) == KeepResolved(RawOfNode(n, n.transitions, nodeMap))
  {
    assert [n][..0] == [];
    assert RawEdges([n][..0], nodeMap) == [];
    var own := RawOfNode(n, n.transitions, nodeMap);
    assert RawEdges([n], nodeMap) == [] + own;
    assert [] + own == own;
    assert Edges([n], nodeMap) == KeepResolved(RawEdges([n], nodeMap));
  }

  /** Edges keep transition order within a node: appending a transition
      appends its edge when its target id resolves, and nothing otherwise. */
  lemma TransitionsInOrder(n: Node, ts: seq<Transition>, t: Transition, nodeMap: map<string, Node>)
    ensures KeepResolved(RawOfNode(n, ts + [t], nodeMap))
         == KeepResolved(RawOfNode(n, ts, nodeMap))
            + (if t.targetid in nodeMap then [Edge(n, nodeMap[t.targetid], t.symbol)] else [])
  {
    var full := RawOfNode(n, ts + [t], nodeMap);
    assert full == RawOfNode(n, ts, nodeMap) + [RawOf(n, t, nodeMap)];
    KeepResolvedAppend(RawOfNode(n, ts, nodeMap), [RawOf(n, t, nodeMap)]);
    assert [RawOf(n, t, nodeMap)][..0] == [];
  }

  /** An edge is derived exactly when some node has a transition whose target
      id is in the lookup, and the edge joins that node to the looked-up node
      under the transition's symbol. */
  lemma EdgesMembership(nodes: seq<Node>, nodeMap: map<string, Node>, e: Edge)
    ensures e in Edges(nodes, nodeMap) <==>
      exists i, k :: 0 <= i < |nodes| && 0 <= k < |nodes[i].transitions|
                  && nodes[i].transitions[k].targetid in nodeMap
                  && e == Edge(nodes[i], nodeMap[nodes[i].transitions[k].targetid], nodes[i].transitions[k].symbol)
  {
    var rs := RawEdges(nodes, nodeMap);
    if e in Edges(nodes, nodeMap) {
      var j :| 0 <= j < |rs| && Yields(rs[j], e);
      assert rs[j] in rs;
      RawEdgesMembership(nodes, nodeMap, rs[j]);
      var i, k :| 0 <= i < |nodes| && 0 <= k < |nodes[i].transitions|
               && rs[j] == RawOf(nodes[i], nodes[i].transitions[k], nodeMap);
      assert nodes[i].transitions[k].targetid in nodeMap;
    }
    if exists i, k :: 0 <= i < |nodes| && 0 <= k < |nodes[i].transitions|
                  && nodes[i].transitions[k].targetid in nodeMap
                  && e == Edge(nodes[i], nodeMap[nodes[i].transitions[k].targetid], nodes[i].transitions[k].symbol) {
      var i, k :| 0 <= i < |nodes| && 0 <= k < |nodes[i].transitions|
               && nodes[i].transitions[k].targetid in nodeMap
               && e == Edge(nodes[i], nodeMap[nodes[i].transitions[k].targetid], nodes[i].transitions[k].symbol);
      var q := RawOf(nodes[i], nodes[i].transitions[k], nodeMap);
      RawEdgesMembership(nodes, nodeMap, q);
      assert q in rs;
      var j :| 0 <= j < |rs| && rs[j] == q;
      assert Yields(rs[j], e);
    }
  }

  /** Every derived edge starts at a supplied node and ends at a node of the
      lookup; nothing dangles. */
  lemma EdgesResolved(nodes: seq<Node>, nodeMap: map<string, Node>, e: Edge)
    requires e in Edges(nodes, nodeMap)
    ensures e.source in nodes
    ensures e.target in nodeMap.Values
  {
    EdgesMembership(nodes, nodeMap, e);
    var i, k :| 0 <= i < |nodes| && 0 <= k < |nodes[i].transitions|
             && nodes[i].transitions[k].targetid in nodeMap
             && e == Edge(nodes[i], nodeMap[nodes[i].transitions[k].targetid], nodes[i].transitions[k].symbol);
  }

  /** The edge list is never longer than the transition count, and is exactly
      as long when every target id resolves. */
  lemma EdgesCount(nodes: seq<Node>, nodeMap: map<string, Node>)
    ensures |Edges(nodes, nodeMap)| <= TotalTransitions(nodes)
    ensures |Edges(nodes, nodeMap)| == TotalTransitions(nodes) <==> AllResolvable(nodes, nodeMap)
  {
    var rs := RawEdges(nodes, nodeMap);
    if AllResolvable(nodes, nodeMap) {
      forall j | 0 <= j < |rs| ensures rs[j].target.Some? {
        assert rs[j] in rs;
        RawEdgesMembership(nodes, nodeMap, rs[j]);
        var i, k :| 0 <= i < |nodes| && 0 <= k < |nodes[i].transitions|
                 && rs[j] == RawOf(nodes[i], nodes[i].transitions[k], nodeMap);
      }
    } else {
      var i, k :| 0 <= i < |nodes| && 0 <= k < |nodes[i].transitions|
               && nodes[i].transitions[k].targetid !in nodeMap;
      var q := RawOf(nodes[i], nodes[i].transitions[k], nodeMap);
      RawEdgesMembership(nodes, nodeMap, q);
      assert q in rs;
      var j :| 0 <= j < |rs| && rs[j] == q;
      assert !rs[j].target.Some?;
    }
  }

  /** The inner pass over one node's transitions: an edge for each
      transition whose target id resolves, in transition order. */
  method NodeEdges(n: Node, nodeMap: map<string, Node>) returns (own: seq<Edge>)
    ensures own == KeepResolved(RawOfNode(n, n.transitions, nodeMap))
    ensures |own| <= |n.transitions|
  {
    own := [];
    var k := 0;
    while k < |n.transitions|
      invariant 0 <= k <= |n.transitions|
      invariant own == KeepResolved(RawOfNode(n, n.transitions[..k], nodeMap))
    {
      var t := n.transitions[k];
      assert n.transitions[..k + 1] == n.transitions[..k] + [t];
      TransitionsInOrder(n, n.transitions[..k], t, nodeMap);
      if t.targetid in nodeMap {
        own := own + [Edge(n, nodeMap[t.targetid], t.symbol)];
      }
      k := k + 1;
    }
    assert n.transitions[..k] == n.transitions;
  }

  /** Single pass over nodes and transitions, appending an edge for each
      transition whose target id resolves; it builds the same list as the
      flatten-then-filter pipeline. */
  method DeriveEdges(nodes: seq<Node>, nodeMap: map<string, Node>) returns (edges: seq<Edge>)
    ensures edges == Edges(nodes, nodeMap)
    ensures |edges| <= TotalTransitions(nodes)
  {
    edges := [];
    var i := 0;
    while i < |nodes|
      invariant 0 <= i <= |nodes|
      invariant edges == Edges(nodes[..i], nodeMap)
    {
      var own := NodeEdges(nodes[i], nodeMap);
      assert nodes[..i + 1] == nodes[..i] + [nodes[i]];
      EdgesAppend(nodes[..i], [nodes[i]], nodeMap);
      SingleNodeEdges(nodes[i], nodeMap);
      edges := edges + own;
      i := i + 1;
    }
    assert nodes[..i] == nodes;
    EdgesCount(nodes, nodeMap);
  }
}
