# Automaton canvas: edge classification, highlighting, node styling and animation

This project models the decision logic of the canvas that draws a finite
automaton: the states (nodes) with their outgoing transitions, the edges
derived from them, how each edge is drawn (self-loop, curved or straight arc,
plain or highlighted), how each state is coloured, how the highlight marker is
animated, and the exact arithmetic that places the marker and the labels.

- `canvas.dfy` (`Canvas`): nodes, transitions, edges, the highlight
  descriptor. The transition field the canvas calls `label` is `symbol` here,
  since `label` is a Dafny keyword.
- `edges.dfy` (`EdgeList`): the edge list, built as the canvas builds it
  (flatten every node's transitions, look the target id up in the node lookup,
  drop the records whose lookup fails), and a single-pass method proved to
  build the same list.
- `classify.dfy` (`EdgeClass`): reverse pairing, the self-loop test, the
  highlight predicate, and the per-edge drawing decision. The identity test
  between edge objects is modelled by the edge's position in the list.
- `scenarios.dfy` (`Scenarios`): concrete render passes (a mutual pair, a lone
  arrow, a single loop, twin loops, a dangling transition).
- `geometry.dfy` (`Geometry`): linear and quadratic-Bezier interpolation of the
  marker, the curve-label midpoint, the label plate, the curve strength and the
  control-point offset it yields, the self-loop placement. Coordinates are
  `real`; the distance between two centres is an input, and self-loop angles
  are written in multiples of pi.
- `animation.dfy` (`Animation`): the per-frame progress step and the values
  one effect run delivers.
- `nodestyle.dfy` (`NodeStyle`): fill, stroke and width of a node, its inner
  circle, entry arrow, label colour and "?" badge.

Behaviour worth knowing, as the code has it:

- The progress counter is local to one effect run and starts at 0 on every
  change of the highlight descriptor; it does not resume from its last value.
- The counter resets only when it exceeds 1. The model computes over exact
  reals, where the counter takes the value 1 itself (frame 50) and a cycle
  lasts 51 frames: progress after n frames is (n mod 51)/50. In the program's
  double-precision arithmetic the sum after 49 frames is slightly above 0.98,
  so the 50th addition already exceeds 1 and resets: the value 1 is never
  delivered and a cycle lasts 50 frames, close to (n * 0.02) mod 1.
- The run depends on the descriptor only: it keeps going when no edge matches
  the descriptor (`Animation.ActiveWithoutEdge`).
- The reverse flag is computed for every edge, self-loops included (two loops
  on one state are reverse-paired with each other); the self-loop branch then
  ignores it.
- The self-loop arc runs from -2 pi to 18/19 pi, a span above a full turn, so
  the marker goes round the loop more than once per cycle.
- The self-loop (radius 20) is centred 40 above its node, while the node circle
  has radius 30: the loop's lowest point is 10 units inside the node circle;
  the two circles cross 26.25 above the node centre, so the loop's bottom 6.25
  units lie under the node.

## Model

| member | source | states |
|---|---|---|
| EdgeList.Lookup | src/app/demo/components/NodeCanvas.tsx:355 | the lookup yields a node exactly when the target id is a key of the node map, and then the node stored under it |
| EdgeList.RawEdges | src/app/demo/components/NodeCanvas.tsx:352-357 | the flattened records number exactly the transitions of all nodes |
| EdgeList.RawEdgesMembership | src/app/demo/components/NodeCanvas.tsx:352-357 | a record is in the flattened list iff it comes from some transition of some node, with its target looked up |
| EdgeList.KeepResolved | src/app/demo/components/NodeCanvas.tsx:358 | filtering keeps exactly the records whose lookup succeeded, is never longer than its input, and is as long exactly when no lookup failed |
| EdgeList.Edges | src/app/demo/components/NodeCanvas.tsx:352-358 | the edge list: the flattened records with the unresolved ones filtered out; its contents are characterised by EdgeList.EdgesMembership, its order by EdgeList.EdgesAppend and EdgeList.TransitionsInOrder, its length by EdgeList.EdgesCount |
| EdgeList.EdgesMembership | src/app/demo/components/NodeCanvas.tsx:352-358 | an edge is derived iff some node has a transition whose target id is in the lookup, joining that node to the looked-up node under the transition's label |
| EdgeList.EdgesResolved | src/app/demo/components/NodeCanvas.tsx:355-358 | every derived edge starts at a supplied node and ends at a node of the lookup |
| EdgeList.EdgesCount | src/app/demo/components/NodeCanvas.tsx:352-358 | the edge list is never longer than the transition count, and equally long iff every target id resolves |
| EdgeList.EdgesAppend | src/app/demo/components/NodeCanvas.tsx:352 | edges follow node order: the edges of two concatenated node lists are the first list's edges then the second's |
| EdgeList.TransitionsInOrder | src/app/demo/components/NodeCanvas.tsx:353-358 | within a node, edges follow transition order: a further transition adds its edge at the end iff its target resolves |
| EdgeList.SingleNodeEdges | src/app/demo/components/NodeCanvas.tsx:352-353 | the edges of one node are those of its own transitions |
| EdgeList.NodeEdges | src/app/demo/components/NodeCanvas.tsx:353-358 | a loop over one node's transitions yields exactly that node's filtered edges, at most one per transition |
| EdgeList.DeriveEdges | src/app/demo/components/NodeCanvas.tsx:352-358 | a single pass over nodes and transitions builds the same list as flatten-then-filter |
| EdgeClass.SomeReverse | src/app/demo/components/NodeCanvas.tsx:367-372 | the scan is true iff an edge at another position runs from this edge's target id to its source id |
| EdgeClass.IsReverse | src/app/demo/components/NodeCanvas.tsx:367-372 | an edge is reverse-paired iff an edge at another position of the list runs from its target id to its source id |
| EdgeClass.IsSelfLoop | src/app/demo/components/NodeCanvas.tsx:375 | an edge is a self-loop iff, by ids, it runs opposite to itself |
| EdgeClass.IsHighlighted | src/app/demo/components/NodeCanvas.tsx:376-379 | an edge is highlighted iff the descriptor is exactly its own transition (target id and label) issued from its source id; the regular-edge test at lines 407-410 is the same predicate |
| EdgeClass.DrawOf | src/app/demo/components/NodeCanvas.tsx:366-481 | an edge takes the loop path iff it is a self-loop; otherwise its points and its stroke are curved iff it is reverse-paired; either way it is drawn highlighted iff the highlight predicate holds |
| EdgeClass.ReverseSymmetric | src/app/demo/components/NodeCanvas.tsx:367-372 | the edge pairing with a reverse-paired edge runs the other way and is itself reverse-paired |
| EdgeClass.ReverseIffOpposite | src/app/demo/components/NodeCanvas.tsx:367-372 | for distinct source and target, an edge is reverse-paired iff an opposite edge exists anywhere in the list |
| EdgeClass.LoneEdgeNotReverse | src/app/demo/components/NodeCanvas.tsx:371 | an edge is not its own reverse: a lone edge, even a loop, is not reverse-paired |
| EdgeClass.ReverseStable | src/app/demo/components/NodeCanvas.tsx:367-372 | adding edges never removes a pairing |
| EdgeClass.SelfLoopPrecedence | src/app/demo/components/NodeCanvas.tsx:375-381 | an edge with equal source and target ids takes the loop path whatever its reverse flag |
| EdgeClass.MutualPairCurved | src/app/demo/components/NodeCanvas.tsx:367-405 | two distinct states joined both ways: both edges get curved points |
| EdgeClass.HighlightedParallel | src/app/demo/components/NodeCanvas.tsx:407-410 | all highlighted edges agree on source id, target id and label |
| EdgeClass.HighlightNamesTransition | src/app/demo/components/NodeCanvas.tsx:407-410 | with a consistent lookup, a derived edge is highlighted iff the descriptor names its transition and its source node |
| EdgeClass.NoDescriptorNoHighlight | src/app/demo/components/NodeCanvas.tsx:376-379 | without a descriptor or its transition part, nothing is highlighted |
| EdgeClass.RenderPlan | src/app/demo/components/NodeCanvas.tsx:366-481 | one drawing decision per derived edge, in edge order: each entry takes the loop path iff its edge is a self-loop, a regular entry has curved points and a curved stroke iff its edge is reverse-paired in the whole list, and an entry is drawn highlighted iff the highlight predicate holds of its edge |
| Scenarios.MutualTransitionsCurved | src/app/demo/components/NodeCanvas.tsx:352-421 | q0 -a-> q1 and q1 -b-> q0 are both drawn curved |
| Scenarios.SingleLoop | src/app/demo/components/NodeCanvas.tsx:352-381 | a single q0 -a-> q0 is drawn on the loop path |
| Scenarios.LoneTransitionStraight | src/app/demo/components/NodeCanvas.tsx:352-405 | a lone q0 -a-> q1 is a plain straight arrow |
| Scenarios.DanglingTransitionDropped | src/app/demo/components/NodeCanvas.tsx:358 | a transition to an unknown id yields no edge |
| Scenarios.TwinLoopsStayLoops | src/app/demo/components/NodeCanvas.tsx:367-381 | two loops on one state are reverse-paired yet both take the loop path |
| Geometry.Lerp | src/app/demo/components/NodeCanvas.tsx:233-235 | the straight marker is at the start at progress 0 and at the end at 1 |
| Geometry.Bezier | src/app/demo/components/NodeCanvas.tsx:218-231 | the curved marker is at the start point at progress 0 and at the end point at 1 |
| Geometry.QuadBetween | src/app/demo/components/NodeCanvas.tsx:228-231 | each Bezier coordinate for progress in [0,1] lies between the least and greatest of its three defining values |
| Geometry.BezierInBox | src/app/demo/components/NodeCanvas.tsx:218-231 | for progress in [0,1] the curved marker stays in the bounding box of start, control and end |
| Geometry.BezierFlatIsLerp | src/app/demo/components/NodeCanvas.tsx:218-236 | with the control point at the chord's midpoint the Bezier marker equals the linear one |
| Geometry.Marker | src/app/demo/components/NodeCanvas.tsx:218-236 | the marker of either path is at its start at 0 and its end at 1 |
| Geometry.LabelMidpoint | src/app/demo/components/NodeCanvas.tsx:343-349 | the curve-label midpoint is the Bezier at t = 1/2 moved by (-3, -8) |
| Geometry.LabelPlate | src/app/demo/components/NodeCanvas.tsx:485-495 | the backing plate is 7 per character plus 10 wide and 20 high and strictly contains the label text anchor |
| Geometry.LabelAnchor | src/app/demo/components/NodeCanvas.tsx:501-509 | the label text anchor is the path point at progress 1/2 moved left 3 per character, plus 3 left and 8 up on a curve, or 7.5 up on a line |
| Geometry.CurveStrength | src/app/demo/components/NodeCanvas.tsx:117-120 | the strength is the larger of 6 and a sixtieth of the distance |
| Geometry.CurveStrengthMonotone | src/app/demo/components/NodeCanvas.tsx:117-120 | the strength never decreases as the distance grows |
| Geometry.CurveOffset | src/app/demo/components/NodeCanvas.tsx:84-91 | the control-point offset is a sixth of the distance up to 360 and 60 beyond, never above 60 |
| Geometry.CurveOffsetMonotone | src/app/demo/components/NodeCanvas.tsx:84-91 | the offset never decreases as the distance grows |
| Geometry.LoopCentre | src/app/demo/components/NodeCanvas.tsx:256-263 | the loop centre is straight above the node; the loop's lowest point lies inside the node circle (radius 30, line 581) above its centre, and the loop's top rises above that circle |
| Geometry.LoopMarkerAngle | src/app/demo/components/NodeCanvas.tsx:317-318 | the loop marker's angle is the start angle at 0, the end angle at 1, and between them in between |
| Geometry.LoopSweepExceedsTurn | src/app/demo/components/NodeCanvas.tsx:259-261 | the loop arc spans 56/19 pi, more than a full turn |
| Geometry.LoopLabel | src/app/demo/components/NodeCanvas.tsx:328-330 | the loop label sits above the top of the loop, left of the node centre |
| Animation.Active | src/app/demo/components/NodeCanvas.tsx:43 | a run is scheduled iff the descriptor could highlight an edge: an active descriptor highlights the edge it names, an inactive one highlights none |
| Animation.Advance | src/app/demo/components/NodeCanvas.tsx:48-50 | a step keeps progress in [0,1] and either increases it or resets it to 0 |
| Animation.Progress | src/app/demo/components/NodeCanvas.tsx:46-50 | progress of a run started at 0 stays in [0,1] |
| Animation.AdvanceOnGrid | src/app/demo/components/NodeCanvas.tsx:49-50 | over exact reals, from k/50 a step goes to (k+1)/50, and from 1 to 0 |
| Animation.ProgressClosedForm | src/app/demo/components/NodeCanvas.tsx:46-50 | over exact reals, after n frames the progress is (n mod 51)/50 |
| Animation.ProgressPeriodic | src/app/demo/components/NodeCanvas.tsx:46-50 | over exact reals, the progress repeats every 51 frames |
| Animation.ProgressCycle | src/app/demo/components/NodeCanvas.tsx:49-50 | over exact reals, progress reaches exactly 1 on frame 50 and resets on frame 51; otherwise each frame adds 0.02 |
| Animation.RunAnimation | src/app/demo/components/NodeCanvas.tsx:42-56 | no values without a descriptor and its transition part; otherwise, over exact reals, frame k delivers ((k+1) mod 51)/50 |
| Animation.HighlightedEdgeAnimates | src/app/demo/components/NodeCanvas.tsx:43 | a highlighted edge implies a scheduled run |
| Animation.ActiveWithoutEdge | src/app/demo/components/NodeCanvas.tsx:42-63 | a run is scheduled even when no edge matches the descriptor |
| NodeStyle.Fill | src/app/demo/components/NodeCanvas.tsx:582-588 | the selection fill marks exactly the selected node; green or red is used exactly on the current node when nothing is selected, green only for a final state; the fill is never black |
| NodeStyle.Stroke | src/app/demo/components/NodeCanvas.tsx:589-593 | the selection stroke marks exactly the selected node; every other node is stroked black |
| NodeStyle.StrokeWidth | src/app/demo/components/NodeCanvas.tsx:594 | the stroke is 2 wide exactly when it is the selection stroke, 1 otherwise |
| NodeStyle.NodeLook | src/app/demo/components/NodeCanvas.tsx:578-622 | as written, the label is white exactly on the current node, the badge only appears on a white-labelled node, and the selection fill, selection stroke and width 2 come together |
| NodeStyle.SelectionWins | src/app/demo/components/NodeCanvas.tsx:582-594 | with a selection only the selected node gets selection fill, stroke and width 2; all others, the current one included, are white, black, width 1 |
| NodeStyle.CurrentColouring | src/app/demo/components/NodeCanvas.tsx:582-594 | without a selection the current node is green iff final and red iff not, the rest white, strokes black of width 1 |
| NodeStyle.Decorations | src/app/demo/components/NodeCanvas.tsx:542-609 | inner circle iff final, entry arrow iff start state and red iff also current, badge iff question shown and current |
| NodeStyle.AtMostOneColoured | src/app/demo/components/NodeCanvas.tsx:582-588 | with distinct ids at most one node is filled in a colour other than white |
| NodeStyle.LabelColourAsWritten | src/app/demo/components/NodeCanvas.tsx:616 | as written, the id label is white exactly on the current node and black on every other |
| NodeStyle.AsWrittenLabelUnreadable | src/app/demo/components/NodeCanvas.tsx:582-616 | as written, with q1 selected and q0 current, the look of q0 has a white fill and a white label |
| NodeStyle.AsWrittenUnreadableExactly | src/app/demo/components/NodeCanvas.tsx:582-616 | as written, a node's label has its fill's colour exactly when the node is current while another node is selected |
| NodeStyle.LabelColour | src/app/demo/components/NodeCanvas.tsx:616 | the corrected label colour is white or black, white only on the current node, and never the colour of the fill |
| NodeStyle.LabelReadable | src/app/demo/components/NodeCanvas.tsx:616 | the corrected label colour never equals the fill, and differs from the written one exactly in the white-on-white case |

## Left out

- Straight and curved end points (`calculateArrowPoints`, the body of `calculateCurvedArrowPoints`): they need atan2, cos, sin and sqrt, which have no exact counterpart; the end points are inputs (`Geometry.EdgePoints`) and only the control-point offset is modelled.
- Arrowhead angles and the self-loop arrow's points: trigonometry as above.
- Drawing through the Konva scene graph: shapes, dashes, shadows, opacity, `perfectDrawEnabled`; colours are named by role, not by CSS string.
- Frame scheduling (`requestAnimationFrame`, `cancelAnimationFrame`, effect teardown) and the React state holding the last delivered value: browser plumbing; a run is the sequence of delivered values.
- Floating point: progress and geometry are exact reals, not IEEE doubles; rounding is not modelled.
- Animation.ProgressClosedForm: holds over exact reals only; in doubles the 50th frame resets to 0, so the program's progress after n frames is not (n mod 51)/50.
- Animation.ProgressPeriodic: the period 51 holds over exact reals only; in doubles the progress repeats every 50 frames.
- Animation.ProgressCycle: the value 1 on frame 50 holds over exact reals only; in doubles frame 50 delivers 0 and 1 is never reached.
- Animation.RunAnimation: the delivered values ((k+1) mod 51)/50 are the exact-real ones; in doubles they drift from that from frame 50 on.
- Animation.AdvanceOnGrid: the step from k/50 to (k+1)/50 is exact-real; in doubles the repeated sums carry rounding error.
- Pointer handlers (click, tap, mouse down/up, drag move): they only forward to the caller.
- The node-id label's x offset and the React keys: cosmetic.
- The background grid: `Grid` is not part of this model.
- The Google sign-in route (`src/app/api/auth/google/route.ts`): network calls into an identity service not shown.
- The node lookup is a map from ids; JavaScript object keys inherited from the prototype are not modelled.

## Findings

| source | as written | input that shows it | evidently intended | confidence | as-written member | corrected member |
|---|---|---|---|---|---|---|
| src/app/demo/components/NodeCanvas.tsx:616 | the id label of the current node is white whatever its fill | q1 selected, q0 current: q0 is filled white and its id is drawn white on white | white text only on a current node whose fill is coloured, black otherwise | medium; not executed | NodeStyle.LabelColourAsWritten, NodeStyle.AsWrittenLabelUnreadable, NodeStyle.AsWrittenUnreadableExactly | NodeStyle.LabelColour, NodeStyle.LabelReadable |
