/** Worked render passes over concrete automata. */
module Scenarios {
  import opened Canvas
  import opened EdgeList
  import opened EdgeClass

  lemma TwoNodeEdges(a: Node, b: Node, nodeMap: map<string, Node>)
    requires |a.transitions| == 1 && |b.transitions| == 1
    requires a.transitions[0].targetid in nodeMap && b.transitions[0].targetid in nodeMap
    ensures Edges([a, b], nodeMap)
         == [Edge(a, nodeMap[a.transitions[0].targetid], a.transitions[0].symbol),
             Edge(b, nodeMap[b.transitions[0].targetid], b.transitions[0].symbol)]
  {
    var ea := Edge(a, nodeMap[a.transitions[0].targetid], a.transitions[0].symbol);
    var eb := Edge(b, nodeMap[b.transitions[0].targetid], b.transitions[0].symbol);
    var na, nb := [a], [b];
    assert Edges(na, nodeMap) == [ea] by { OneTransitionEdges(a, nodeMap); }
    assert Edges(nb, nodeMap) == [eb] by { OneTransitionEdges(b, nodeMap); }
    assert Edges([a, b], nodeMap) == Edges(na, nodeMap) + Edges(nb, nodeMap) by {
      EdgesAppend(na, nb, nodeMap);
      assert na + nb == [a, b];
    }
    assert [ea] + [eb] == [ea, eb];
  }

  lemma MutualEdges(q0: Node, q1: Node)
    requires q0 == Node("q0", 0.0, 0.0, [Transition("q1", "a")])
    requires q1 == Node("q1", 100.0, 0.0, [Transition("q0", "b")])
    ensures Edges([q0, q1], map["q0" := q0, "q1" := q1]) == [Edge(q0, q1, "a"), Edge(q1, q0, "b")]
  {
    var nodeMap := map["q0" := q0, "q1" := q1];
    assert nodeMap["q1"] == q1 && nodeMap["q0"] == q0;
    TwoNodeEdges(q0, q1, nodeMap);
  }

  /** Two states joined both ways, q0 -a-> q1 and q1 -b-> q0: both edges are
      reverse-paired and drawn curved, neither as a straight arrow. */
  lemma MutualTransitionsCurved(h: Option<Highlight>)
    ensures var q0 := Node("q0", 0.0, 0.0, [Transition("q1", "a")]);
      var q1 := Node("q1", 100.0, 0.0, [Transition("q0", "b")]);
      var plan := RenderPlan([q0, q1], map["q0" := q0, "q1" := q1], h);
      |plan| == 2
      && plan[0].shape.Regular? && plan[0].shape.points == CurvedPoints && StrokeCurved(plan[0].shape.stroke)
      && plan[1].shape.Regular? && plan[1].shape.points == CurvedPoints && StrokeCurved(plan[1].shape.stroke)
  {
    var q0 := Node("q0", 0.0, 0.0, [Transition("q1", "a")]);
    var q1 := Node("q1", 100.0, 0.0, [Transition("q0", "b")]);
    MutualEdges(q0, q1);
    var es := [Edge(q0, q1, "a"), Edge(q1, q0, "b")];
    MutualPairCurved(es, 0, 1, h);
    var plan := RenderPlan([q0, q1], map["q0" := q0, "q1" := q1], h);
    assert plan[0] == DrawOf(es, 0, h);
    assert plan[1] == DrawOf(es, 1, h);
  }

  /** One state with a loop q0 -a-> q0: drawn on the loop path only. */
  lemma SingleLoop(h: Option<Highlight>)
    ensures var q0 := Node("q0", 0.0, 0.0, [Transition("q0", "a")]);
      var plan := RenderPlan([q0], map["q0" := q0], h);
      |plan| == 1 && plan[0].shape.Loop?
  {
    var q0 := Node("q0", 0.0, 0.0, [Transition("q0", "a")]);
    var nodeMap := map["q0" := q0];
    OneTransitionEdges(q0, nodeMap);
    var es := [Edge(q0, q0, "a")];
    assert Edges([q0], nodeMap) == es;
    SelfLoopPrecedence(es, 0, h);
    var plan := RenderPlan([q0], nodeMap, h);
    assert plan[0] == DrawOf(es, 0, h);
  }

  lemma OneTransitionEdges(n: Node, nodeMap: map<string, Node>)
    requires |n.transitions| == 1
    ensures var t := n.transitions[0];
      Edges([n], nodeMap) == if t.targetid in nodeMap then [Edge(n, nodeMap[t.targetid], t.symbol)] else []
  {
    SingleNodeEdges(n, nodeMap);
    assert n.transitions == [] + [n.transitions[0]];
    TransitionsInOrder(n, [], n.transitions[0], nodeMap);
    assert RawOfNode(n, [], nodeMap) == [];
  }

  lemma NoTransitionEdges(n: Node, nodeMap: map<string, Node>)
    requires n.transitions == []
    ensures Edges([n], nodeMap) == []
  {
    SingleNodeEdges(n, nodeMap);
    assert RawOfNode(n, [], nodeMap) == [];
  }

  lemma LoneTransitionEdges(q0: Node, q1: Node)
    requires q0 == Node("q0", 0.0, 0.0, [Transition("q1", "a")])
    requires q1 == Node("q1", 100.0, 0.0, [])
    ensures Edges([q0, q1], map["q0" := q0, "q1" := q1]) == [Edge(q0, q1, "a")]
  {
    var nodeMap := map["q0" := q0, "q1" := q1];
    assert Edges([q0], nodeMap) == [Edge(q0, q1, "a")] by { OneTransitionEdges(q0, nodeMap); }
    assert Edges([q1], nodeMap) == [] by { NoTransitionEdges(q1, nodeMap); }
    assert Edges([q0, q1], nodeMap) == Edges([q0], nodeMap) + Edges([q1], nodeMap) by {
      EdgesAppend([q0], [q1], nodeMap);
      assert [q0] + [q1] == [q0, q1];
    }
  }

  /** A single q0 -a-> q1 with no way back is a plain straight arrow when
      nothing is highlighted. */
  lemma LoneTransitionStraight()
    ensures var q0 := Node("q0", 0.0, 0.0, [Transition("q1", "a")]);
      var q1 := Node("q1", 100.0, 0.0, []);
      var plan := RenderPlan([q0, q1], map["q0" := q0, "q1" := q1], None);
      |plan| == 1 && plan[0].shape == Regular(StraightPoints, PlainArrow)
  {
    var q0 := Node("q0", 0.0, 0.0, [Transition("q1", "a")]);
    var q1 := Node("q1", 100.0, 0.0, []);
    LoneTransitionEdges(q0, q1);
    var es := [Edge(q0, q1, "a")];
    LoneEdgeNotReverse(es[0]);
    assert !IsSelfLoop(es[0]);
    assert DrawOf(es, 0, None).shape == Regular(StraightPoints, PlainArrow);
  }

  /** A transition to an id that no node carries is dropped without error. */
  lemma DanglingTransitionDropped()
    ensures var q0 := Node("q0", 0.0, 0.0, [Transition("q9", "a")]);
      Edges([q0], map["q0" := q0]) == []
  {
    var q0 := Node("q0", 0.0, 0.0, [Transition("q9", "a")]);
    OneTransitionEdges(q0, map["q0" := q0]);
  }

  /** Two loops on the same state are reverse-paired with each other, yet both
      still take the loop path. */
  lemma TwinLoopsStayLoops(h: Option<Highlight>)
    ensures var q0 := Node("q0", 0.0, 0.0, [Transition("q0", "a"), Transition("q0", "b")]);
      var es := Edges([q0], map["q0" := q0]);
      |es| == 2 && IsReverse(es, 0) && IsReverse(es, 1)
      && DrawOf(es, 0, h).shape.Loop? && DrawOf(es, 1, h).shape.Loop?
  {
    var q0 := Node("q0", 0.0, 0.0, [Transition("q0", "a"), Transition("q0", "b")]);
    var nodeMap := map["q0" := q0];
    SingleNodeEdges(q0, nodeMap);
    TransitionsInOrder(q0, [], Transition("q0", "a"), nodeMap);
    assert [Transition("q0", "a"), Transition("q0", "b")] == [Transition("q0", "a")] + [Transition("q0", "b")];
    TransitionsInOrder(q0, [Transition("q0", "a")], Transition("q0", "b"), nodeMap);
    var es := Edges([q0], nodeMap);
    assert es == [Edge(q0, q0, "a"), Edge(q0, q0, "b")];
    assert Swapped(es[1], es[0]);
    assert Swapped(es[0], es[1]);
  }
}
