/** The data the automaton canvas reads on every render pass: states (nodes)
    with their outgoing transitions, the derived drawable edges, and the
    descriptor of the highlighted transition. Coordinates are canvas numbers,
    modelled as `real`. */
module Canvas {

  datatype Option<+T> = None | Some(value: T)

  /** An outgoing transition as stored on its owning node: the id of the
      target state and the symbol it reads. The source is the owning node. */
  datatype Transition = Transition(targetid: string, symbol: string)

  /** One automaton state as placed on the canvas. */
  datatype Node = Node(id: string, x: real, y: real, transitions: seq<Transition>)

  /** A drawable edge: the owning node, the node its target id resolved to
      through the node lookup, and the transition's label. */
  datatype Edge = Edge(source: Node, target: Node, symbol: string)

  /** The highlighted transition: `d` names the transition by target id and
      symbol (it may be missing), `target` is the id of the state the
      transition leaves. */
  datatype Highlight = Highlight(d: Option<Transition>, target: string)

  /** The id of the state that carries the entry arrow. */
  const StartId: string := "q0"

  /** Node ids are pairwise distinct. */
  predicate UniqueIds(nodes: seq<Node>)
  {
    forall i, j :: 0 <= i < |nodes| && 0 <= j < |nodes| && i != j ==> nodes[i].id != nodes[j].id
  }

  /** The lookup maps every id to the node carrying that id. */
  predicate ConsistentLookup(nodeMap: map<string, Node>)
  {
    forall k :: k in nodeMap ==> nodeMap[k].id == k
  }
}
