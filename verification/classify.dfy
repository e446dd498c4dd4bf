/** Edge classification for drawing: an edge is a self-loop when its source
    and target ids agree, and reverse-paired when some other edge of the list
    (another position; positions stand for the objects of the edge list) runs
    the opposite way. The classification picks the drawing path, and one
    predicate decides whether an edge is the highlighted transition. */
module EdgeClass {
  import opened Canvas
  import opened EdgeList

  /** `other` runs from the target of `e` back to its source (ids only). */
  predicate Swapped(other: Edge, e: Edge)
  {
    other.source.id == e.target.id && other.target.id == e.source.id
  }

  /** The scan `edges.some(...)` for edge `i`, from position `from` on. */
  function SomeReverse(edges: seq<Edge>, i: nat, from: nat): (r: bool)
    requires i < |edges| && from <= |edges|
    ensures r <==> exists j :: from <= j < |edges| && j != i && Swapped(edges[j], edges[i])
    decreases |edges| - from
  {
    if from == |edges| then false
    else (Swapped(edges[from], edges[i]) && from != i) || SomeReverse(edges, i, from + 1)
  }

  /** Whether edge `i` is reverse-paired. */
  function IsReverse(edges: seq<Edge>, i: nat): (r: bool)
    requires i < |edges|
    ensures r <==> exists j :: 0 <= j < |edges| && j != i && Swapped(edges[j], edges[i])
  {
    SomeReverse(edges, i, 0)
  }

  /** An edge is a self-loop exactly when, by ids, it runs opposite to
      itself. */
  function IsSelfLoop(e: Edge): (b: bool)
    ensures b <==> Swapped(e, e)
  {
    e.source.id == e.target.id
  }

  /** The highlight predicate used for self-loops and regular edges alike:
      a descriptor with a transition part whose target id and label match the
      edge, issued from the edge's source. */
  function IsHighlighted(h: Option<Highlight>, e: Edge): (b: bool)
    ensures b <==> h == Some(Highlight(Some(Transition(e.target.id, e.symbol)), e.source.id))
  {
    h.Some? && h.value.d.Some?
    && h.value.d.value.targetid == e.target.id
    && h.value.d.value.symbol == e.symbol
    && h.value.target == e.source.id
  }

  /** Which end-point computation feeds a regular edge. */
  datatype PointsKind = CurvedPoints | StraightPoints

  /** How a regular edge is stroked: dashed with a moving marker (along a
      curve or a line), a plain curve with a hand-drawn head, or a plain
      arrow. */
  datatype EdgeStroke = Animated(curved: bool) | PlainCurve | PlainArrow

  datatype Shape =
    | Loop(highlighted: bool)
    | Regular(points: PointsKind, stroke: EdgeStroke)

  datatype EdgeDraw = EdgeDraw(edge: Edge, shape: Shape)

  predicate StrokeCurved(s: EdgeStroke)
  {
    match s
    case Animated(c) => c
    case PlainCurve => true
    case PlainArrow => false
  }

  predicate ShapeHighlighted(s: Shape)
  {
    match s
    case Loop(hl) => hl
    case Regular(_, st) => st.Animated?
  }

  /** The drawing decision for edge `i`, in the order the canvas takes it:
      reverse flag first, then the self-loop test, then for a regular edge the
      points (curved iff reverse) and the stroke (highlighted or plain). */
  function DrawOf(edges: seq<Edge>, i: nat, h: Option<Highlight>): (r: EdgeDraw)
    requires i < |edges|
    ensures r.edge == edges[i]
    ensures r.shape.Loop? <==> IsSelfLoop(edges[i])
    ensures r.shape.Regular? ==> (r.shape.points == CurvedPoints <==> IsReverse(edges, i))
    ensures r.shape.Regular? ==> (StrokeCurved(r.shape.stroke) <==> IsReverse(edges, i))
    ensures ShapeHighlighted(r.shape) <==> IsHighlighted(h, edges[i])
  {
    var e := edges[i];
    var isReverse := IsReverse(edges, i);
    if IsSelfLoop(e) then
      EdgeDraw(e, Loop(IsHighlighted(h, e)))
    else
      var points := if isReverse then CurvedPoints else StraightPoints;
      var stroke :=
        if IsHighlighted(h, e) then Animated(isReverse)
        else if isReverse then PlainCurve
        else PlainArrow;
      EdgeDraw(e, Regular(points, stroke))
  }

  /** The per-edge drawing decisions of one render pass. */
  function RenderPlan(nodes: seq<Node>, nodeMap: map<string, Node>, h: Option<Highlight>): (plan: seq<EdgeDraw>)
    ensures |plan| == |Edges(nodes, nodeMap)|
    ensures forall i :: 0 <= i < |plan| ==> plan[i].edge == Edges(nodes, nodeMap)[i]
    ensures forall i :: 0 <= i < |plan| ==> (plan[i].shape.Loop? <==> IsSelfLoop(plan[i].edge))
    ensures forall i :: 0 <= i < |plan| && plan[i].shape.Regular? ==>
      (plan[i].shape.points == CurvedPoints <==> IsReverse(Edges(nodes, nodeMap), i))
      && (StrokeCurved(plan[i].shape.stroke) <==> IsReverse(Edges(nodes, nodeMap), i))
    ensures forall i :: 0 <= i < |plan| ==> (ShapeHighlighted(plan[i].shape) <==> IsHighlighted(h, plan[i].edge))
  {
    var es := Edges(nodes, nodeMap);
    seq(|es|, i requires 0 <= i < |es| => DrawOf(es, i, h))
  }

  /** Reverse pairing is symmetric: the edge that pairs with `i` runs the
      other way and is itself reverse-paired, so paired edges never come
      alone. */
  lemma ReverseSymmetric(edges: seq<Edge>, i: nat)
    requires i < |edges|
    requires IsReverse(edges, i)
    ensures exists j :: 0 <= j < |edges| && j != i && Swapped(edges[j], edges[i]) && IsReverse(edges, j)
  {
    var j :| 0 <= j < |edges| && j != i && Swapped(edges[j], edges[i]);
    assert Swapped(edges[i], edges[j]);
    assert IsReverse(edges, j);
  }

  /** Between two distinct states A and B, an edge A->B is reverse-paired
      exactly when the list also holds an edge B->A. */
  lemma ReverseIffOpposite(edges: seq<Edge>, i: nat)
    requires i < |edges|
    requires !IsSelfLoop(edges[i])
    ensures IsReverse(edges, i) <==> exists j :: 0 <= j < |edges| && Swapped(edges[j], edges[i])
  {
    if j :| 0 <= j < |edges| && Swapped(edges[j], edges[i]) {
      assert j != i;
    }
  }

  /** An edge is never its own reverse: alone, even a self-loop is not
      reverse-paired. */
  lemma LoneEdgeNotReverse(e: Edge)
    ensures !IsReverse([e], 0)
  {
  }

  /** Adding edges never takes a pairing away. */
  lemma ReverseStable(edges: seq<Edge>, more: seq<Edge>, i: nat)
    requires i < |edges|
    requires IsReverse(edges, i)
    ensures IsReverse(edges + more, i)
  {
    var j :| 0 <= j < |edges| && j != i && Swapped(edges[j], edges[i]);
    assert (edges + more)[j] == edges[j];
    assert (edges + more)[i] == edges[i];
  }

  /** Self-loop precedence: an edge whose source and target ids agree takes
      the loop path whatever its reverse flag, and is highlighted by the
      common predicate. */
  lemma SelfLoopPrecedence(edges: seq<Edge>, i: nat, h: Option<Highlight>)
    requires i < |edges|
    requires IsSelfLoop(edges[i])
    ensures DrawOf(edges, i, h).shape == Loop(IsHighlighted(h, edges[i]))
  {
  }

  /** Two distinct states joined both ways: both edges are curved, neither is
      a straight arrow. */
  lemma MutualPairCurved(edges: seq<Edge>, i: nat, j: nat, h: Option<Highlight>)
    requires i < |edges| && j < |edges|
    requires !IsSelfLoop(edges[i])
    requires Swapped(edges[j], edges[i])
    ensures DrawOf(edges, i, h).shape.Regular? && DrawOf(edges, i, h).shape.points == CurvedPoints
    ensures DrawOf(edges, j, h).shape.Regular? && DrawOf(edges, j, h).shape.points == CurvedPoints
  {
    assert i != j;
    assert Swapped(edges[i], edges[j]);
    assert IsReverse(edges, i);
    assert IsReverse(edges, j);
  }

  /** Every highlighted edge is a parallel copy of one transition: any two
      highlighted edges agree on source id, target id and label. */
  lemma HighlightedParallel(h: Option<Highlight>, e1: Edge, e2: Edge)
    requires IsHighlighted(h, e1) && IsHighlighted(h, e2)
    ensures e1.source.id == e2.source.id && e1.target.id == e2.target.id && e1.symbol == e2.symbol
  {
  }

  /** With a consistent lookup, the edge derived from transition `t` of a node
      is highlighted exactly when the descriptor names `t` and that node. */
  lemma HighlightNamesTransition(nodes: seq<Node>, nodeMap: map<string, Node>, h: Option<Highlight>, i: nat, k: nat)
    requires ConsistentLookup(nodeMap)
    requires i < |nodes| && k < |nodes[i].transitions|
    requires nodes[i].transitions[k].targetid in nodeMap
    ensures var t := nodes[i].transitions[k];
      (IsHighlighted(h, Edge(nodes[i], nodeMap[t.targetid], t.symbol)) <==> h == Some(Highlight(Some(t), nodes[i].id)))
  {
  }

  /** Without a descriptor, or without its transition part, no edge is
      drawn highlighted. */
  lemma NoDescriptorNoHighlight(nodes: seq<Node>, nodeMap: map<string, Node>, h: Option<Highlight>)
    requires h.None? || h.value.d.None?
    ensures forall i :: 0 <= i < |RenderPlan(nodes, nodeMap, h)| ==>
      !ShapeHighlighted(RenderPlan(nodes, nodeMap, h)[i].shape)
  {
  }
}
