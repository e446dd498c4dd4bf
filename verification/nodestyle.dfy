/** How a state is drawn: the fill, stroke and stroke width of its circle,
    the inner circle of a final state, the entry arrow of the start state,
    the colour of its id label and the "?" badge. */
module NodeStyle {
  import opened Canvas

  /** The colours the canvas uses for nodes, by role. */
  datatype Colour = White | Black | SelectionFill | SelectionStroke | Green | Red

  datatype Look = Look(
    fill: Colour,
    stroke: Colour,
    strokeWidth: nat,
    innerCircle: bool,
    startArrow: Option<Colour>,
    labelColour: Colour,
    badge: bool)

  /** `o` holds a node carrying the id of `n`. */
  predicate IsNode(o: Option<Node>, n: Node)
  {
    o.Some? && o.value.id == n.id
  }

  /** Fill of the node circle: a selection, when there is one, decides alone;
      otherwise the current node is green when final and red when not. */
  function Fill(n: Node, selected: Option<Node>, curr: Option<Node>, finals: set<string>): (c: Colour)
    ensures c == SelectionFill <==> IsNode(selected, n)
    ensures (c == Green || c == Red) <==> selected.None? && IsNode(curr, n)
    ensures c == Green ==> n.id in finals
    ensures c == Red ==> n.id !in finals
    ensures c != Black && c != SelectionStroke
  {
    if selected.Some? then
      (if selected.value.id == n.id then SelectionFill else White)
    else if IsNode(curr, n) then
      (if curr.value.id in finals then Green else Red)
    else White
  }

  /** The stroke marks the selected node, the same node the fill marks; the
      current node gets no stroke of its own. */
  function Stroke(n: Node, selected: Option<Node>): (c: Colour)
    ensures c == SelectionStroke <==> IsNode(selected, n)
    ensures c != SelectionStroke ==> c == Black
  {
    if IsNode(selected, n) then SelectionStroke else Black
  }

  /** The wider stroke goes with the selection stroke. */
  function StrokeWidth(n: Node, selected: Option<Node>): (w: nat)
    ensures w == 2 <==> Stroke(n, selected) == SelectionStroke
    ensures w != 2 ==> w == 1
  {
    if IsNode(selected, n) then 2 else 1
  }

  /** The label colour as the canvas computes it: white on the current node,
      regardless of the fill that node gets. */
  function LabelColourAsWritten(n: Node, curr: Option<Node>): (c: Colour)
    ensures c == White <==> IsNode(curr, n)
    ensures c == White || c == Black
  {
    if curr.Some? then (if curr.value.id == n.id then White else Black) else Black
  }

  /** The label colour with the readability the white label is meant to
      give: white on the current node only when its fill is not white. */
  function LabelColour(n: Node, selected: Option<Node>, curr: Option<Node>, finals: set<string>): (c: Colour)
    ensures c != Fill(n, selected, curr, finals)
    ensures c == White ==> IsNode(curr, n)
    ensures c == White || c == Black
  {
    if IsNode(curr, n) && Fill(n, selected, curr, finals) != White then White else Black
  }

  /** The whole look of one node, label colour as the canvas computes it. */
  function NodeLook(n: Node, selected: Option<Node>, curr: Option<Node>, finals: set<string>, showQuestion: bool): (l: Look)
    ensures l.labelColour == White <==> IsNode(curr, n)
    ensures l.badge ==> l.labelColour == White
    ensures l.fill == SelectionFill <==> l.stroke == SelectionStroke
    ensures l.stroke == SelectionStroke <==> l.strokeWidth == 2
  {
    Look(
      Fill(n, selected, curr, finals),
      Stroke(n, selected),
      StrokeWidth(n, selected),
      n.id in finals,
      if n.id == StartId then Some(if IsNode(curr, n) then Red else Black) else None,
      LabelColourAsWritten(n, curr),
      showQuestion && IsNode(curr, n))
  }

  /** With a selection, only the selected node gets the selection fill,
      stroke and width 2; every other node, the current one included, is
      white with a black stroke of width 1. */
  lemma SelectionWins(n: Node, selected: Option<Node>, curr: Option<Node>, finals: set<string>, q: bool)
    requires selected.Some?
    ensures var l := NodeLook(n, selected, curr, finals, q);
      if selected.value.id == n.id then
        l.fill == SelectionFill && l.stroke == SelectionStroke && l.strokeWidth == 2
      else
        l.fill == White && l.stroke == Black && l.strokeWidth == 1
  {
  }

  /** Without a selection, the current node is green when final and red when
      not, every other node is white, and all strokes are black of width 1. */
  lemma CurrentColouring(n: Node, curr: Option<Node>, finals: set<string>, q: bool)
    ensures var l := NodeLook(n, None, curr, finals, q);
      && (l.fill == Green <==> IsNode(curr, n) && n.id in finals)
      && (l.fill == Red <==> IsNode(curr, n) && n.id !in finals)
      && (l.fill == White <==> !IsNode(curr, n))
      && l.stroke == Black && l.strokeWidth == 1
  {
  }

  /** The inner circle marks exactly the final states, the entry arrow exactly
      the start state (red while it is current), and the badge only the
      current node while the question is shown. */
  lemma Decorations(n: Node, selected: Option<Node>, curr: Option<Node>, finals: set<string>, q: bool)
    ensures var l := NodeLook(n, selected, curr, finals, q);
      && (l.innerCircle <==> n.id in finals)
      && (l.startArrow.Some? <==> n.id == StartId)
      && (l.startArrow == Some(Red) <==> n.id == StartId && IsNode(curr, n))
      && (l.badge <==> q && IsNode(curr, n))
  {
  }

  /** With distinct ids, at most one node of the canvas is filled in a colour
      other than white. */
  lemma AtMostOneColoured(nodes: seq<Node>, selected: Option<Node>, curr: Option<Node>, finals: set<string>, i: nat, j: nat)
    requires UniqueIds(nodes)
    requires i < |nodes| && j < |nodes|
    requires Fill(nodes[i], selected, curr, finals) != White
    requires Fill(nodes[j], selected, curr, finals) != White
    ensures i == j
  {
    assert nodes[i].id == nodes[j].id;
  }

  /** As written, the label of the current node is white even when a
      selection elsewhere leaves that node's fill white: its id is then
      drawn white on white. */
  lemma AsWrittenLabelUnreadable()
    ensures var cur := Node("q0", 0.0, 0.0, []);
      var sel := Node("q1", 100.0, 0.0, []);
      var l := NodeLook(cur, Some(sel), Some(cur), {}, false);
      l.fill == White && l.labelColour == White
  {
  }

  /** As written, a node's label has the colour of its fill exactly when the
      node is current while another node is selected. */
  lemma AsWrittenUnreadableExactly(n: Node, selected: Option<Node>, curr: Option<Node>, finals: set<string>, q: bool)
    ensures var l := NodeLook(n, selected, curr, finals, q);
      l.labelColour == l.fill <==> IsNode(curr, n) && selected.Some? && !IsNode(selected, n)
  {
  }

  /** The label colour never equals the fill, so every id stays readable;
      where the two definitions differ, it is exactly the white-on-white
      case. */
  lemma LabelReadable(n: Node, selected: Option<Node>, curr: Option<Node>, finals: set<string>)
    ensures LabelColour(n, selected, curr, finals) != Fill(n, selected, curr, finals)
    ensures LabelColour(n, selected, curr, finals) != LabelColourAsWritten(n, curr)
        <==> (LabelColourAsWritten(n, curr) == White && Fill(n, selected, curr, finals) == White)
  {
  }
}
