/** `MarkovChain`: owns the nodes and edges, tracks the current position and
    moves it along a weighted outgoing edge. */
module Chain {
  import opened Base
  import opened Iter
  import opened Actions
  import opened Nodes
  import opened Edges
  import opened WeightedChoice

  /** `MarkovChainError`. `StuckError`, `EdgeDoesNotExistError` and
      `ActionDoesNotExistError` are declared by the source but never returned. */
  datatype MarkovChainError =
    | StuckError
    | NodeDoesNotExistError
    | EdgeDoesNotExistError
    | ActionDoesNotExistError
    | NodeHasNoEdgesError
    | TransitionFailedError

  /** The closures the source passes to `find`, `any`, `filter` and `retain`. */
  function HasId(id: u32): Node -> bool
  {
    (n: Node) => n.id == id
  }

  function HasOtherId(id: u32): Node -> bool
  {
    (n: Node) => n.id != id
  }

  function Connects(from: u32, to: u32): Edge -> bool
  {
    (e: Edge) => e.from == from && e.to == to
  }

  function ConnectsOther(from: u32, to: u32): Edge -> bool
  {
    (e: Edge) => !(e.from == from && e.to == to)
  }

  function Leaves(id: u32): Edge -> bool
  {
    (e: Edge) => e.from == id
  }

  function Enters(id: u32): Edge -> bool
  {
    (e: Edge) => e.to == id
  }

  function ActionHasId(id: u32): Action -> bool
  {
    (a: Action) => a.id == id
  }

  class MarkovChain {
    var nodes: seq<Node>
    var edges: seq<Edge>
    var currentNode: Option<u32>

    /** `MarkovChain::new`: absent sequences become empty; no current node. */
    constructor (initialNodes: Option<seq<Node>>, initialEdges: Option<seq<Edge>>)
      ensures nodes == (if initialNodes.Some? then initialNodes.value else [])
      ensures edges == (if initialEdges.Some? then initialEdges.value else [])
      ensures currentNode == None
    {
      nodes := if initialNodes.Some? then initialNodes.value else [];
      edges := if initialEdges.Some? then initialEdges.value else [];
      currentNode := None;
    }

    // ---------------------------------------------------------------- lookups

    /** `get_node`: the first node with this id. */
    function GetNode(id: u32): (r: Option<Node>)
      reads this`nodes
      ensures r.Some? <==> exists i :: 0 <= i < |nodes| && nodes[i].id == id
      ensures r.Some? ==> r.value.id == id
      ensures r.Some? ==> exists i :: 0 <= i < |nodes| && nodes[i] == r.value
                                      && forall j :: 0 <= j < i ==> nodes[j].id != id
    {
      Find(nodes, HasId(id))
    }

    /** `get_edge`: the first edge from `from` to `to`. */
    function GetEdge(from: u32, to: u32): (r: Option<Edge>)
      reads this`edges
      ensures r.Some? <==> exists i :: 0 <= i < |edges| && edges[i].from == from && edges[i].to == to
      ensures r.Some? ==> r.value.from == from && r.value.to == to
      ensures r.Some? ==> exists i :: 0 <= i < |edges| && edges[i] == r.value
                                      && forall j :: 0 <= j < i ==> !(edges[j].from == from && edges[j].to == to)
    {
      Find(edges, Connects(from, to))
    }

    /** `node_exists`. */
    function NodeExists(id: u32): (b: bool)
      reads this`nodes
      ensures b <==> exists i :: 0 <= i < |nodes| && nodes[i].id == id
      ensures b <==> GetNode(id).Some?
    {
      Any(nodes, HasId(id))
    }

    /** `edge_exists`. */
    function EdgeExists(from: u32, to: u32): (b: bool)
      reads this`edges
      ensures b <==> exists i :: 0 <= i < |edges| && edges[i].from == from && edges[i].to == to
      ensures b <==> GetEdge(from, to).Some?
    {
      Any(edges, Connects(from, to))
    }

    /** `get_node_actions`: the actions of the first node with this id. */
    function GetNodeActions(id: u32): (r: Option<seq<Action>>)
      reads this`nodes
      ensures r.Some? <==> NodeExists(id)
      ensures r.Some? ==> exists i :: 0 <= i < |nodes| && nodes[i].id == id && nodes[i].actions == r.value
                                      && forall j :: 0 <= j < i ==> nodes[j].id != id
    {
      match GetNode(id)
      case Some(n) => Some(n.actions)
      case None => None
    }

    /** `get_node_action`: an action with this id, searched for only among
        the actions of the first node with `nodeId`. */
    function GetNodeAction(nodeId: u32, actionId: u32): (r: Option<Action>)
      reads this`nodes
      ensures r.Some? ==> r.value.id == actionId
      ensures r.Some? <==> GetNodeActions(nodeId).Some?
                           && exists i :: 0 <= i < |GetNodeActions(nodeId).value|
                                          && GetNodeActions(nodeId).value[i].id == actionId
      ensures r.Some? ==> exists i :: 0 <= i < |GetNodeActions(nodeId).value|
                                      && GetNodeActions(nodeId).value[i] == r.value
                                      && forall j :: 0 <= j < i ==> GetNodeActions(nodeId).value[j].id != actionId
    {
      match GetNode(nodeId)
      case Some(n) => Find(n.actions, ActionHasId(actionId))
      case None => None
    }

    /** `get_edge_from`: `Some(id)` when some edge leaves `id`. */
    function GetEdgeFrom(id: u32): (r: Option<u32>)
      reads this`edges
      ensures r.Some? <==> exists i :: 0 <= i < |edges| && edges[i].from == id
      ensures r.Some? ==> r.value == id
    {
      match Find(edges, Leaves(id))
      case Some(e) => Some(e.from)
      case None => None
    }

    /** `get_edge_to`: `Some(id)` when some edge enters `id`. */
    function GetEdgeTo(id: u32): (r: Option<u32>)
      reads this`edges
      ensures r.Some? <==> exists i :: 0 <= i < |edges| && edges[i].to == id
      ensures r.Some? ==> r.value == id
    {
      match Find(edges, Enters(id))
      case Some(e) => Some(e.to)
      case None => None
    }

    /** `get_node_edges`: an error for an unknown node, otherwise the edges
        leaving it in stored order. */
    function GetNodeEdges(id: u32): (r: Result<seq<Edge>, MarkovChainError>)
      reads this`nodes, this`edges
      ensures r.Err? <==> !NodeExists(id)
      ensures r.Err? ==> r.error == NodeDoesNotExistError
      ensures r.Ok? ==> r.value == Filter(edges, Leaves(id))
      ensures r.Ok? ==> forall i :: 0 <= i < |r.value| ==> r.value[i].from == id && r.value[i] in edges
      ensures r.Ok? ==> forall i :: 0 <= i < |edges| && edges[i].from == id ==> edges[i] in r.value
      ensures r.Ok? ==> (|r.value| == 0 <==> GetEdgeFrom(id).None?)
    {
      if !NodeExists(id) then Err(NodeDoesNotExistError)
      else
        var out := Filter(edges, Leaves(id));
        assert |out| > 0 ==> out[0] in edges && Leaves(id)(out[0]);
        Ok(out)
    }

    /** `get_current_node`. */
    function GetCurrentNode(): (r: Option<u32>)
      reads this`currentNode
      ensures r == currentNode
    {
      currentNode
    }

    // --------------------------------------------------------------- mutators

    /** `add_node`: appends; the node is found by its id unless an earlier
        node already has that id. */
    method AddNode(node: Node)
      modifies this`nodes
      ensures nodes == old(nodes) + [node]
      ensures !old(NodeExists(node.id)) ==> GetNode(node.id) == Some(node)
      ensures forall id :: old(NodeExists(id)) ==> GetNode(id) == old(GetNode(id))
    {
      nodes := nodes + [node];
      forall id {
        FindAppend(old(nodes), [node], HasId(id));
      }
    }

    /** `add_nodes`: appends the slice in order. */
    method AddNodes(newNodes: seq<Node>)
      modifies this`nodes
      ensures nodes == old(nodes) + newNodes
      ensures forall id :: GetNode(id) == if old(NodeExists(id)) then old(GetNode(id)) else Find(newNodes, HasId(id))
    {
      nodes := nodes + newNodes;
      forall id {
        FindAppend(old(nodes), newNodes, HasId(id));
      }
    }

    /** `add_edge`: appends; the edge is found by its endpoints unless an
        earlier edge already joins them. */
    method AddEdge(edge: Edge)
      modifies this`edges
      ensures edges == old(edges) + [edge]
      ensures !old(EdgeExists(edge.from, edge.to)) ==> GetEdge(edge.from, edge.to) == Some(edge)
      ensures forall from, to :: old(EdgeExists(from, to)) ==> GetEdge(from, to) == old(GetEdge(from, to))
    {
      edges := edges + [edge];
      forall from, to {
        FindAppend(old(edges), [edge], Connects(from, to));
      }
    }

    /** `remove_node`: keeps, in order, exactly the nodes with another id;
        edges and the current node are untouched, so the current node may
        now name a node that is gone. */
    method RemoveNode(id: u32)
      modifies this`nodes
      ensures nodes == Filter(old(nodes), HasOtherId(id))
      ensures GetNode(id).None? && !NodeExists(id)
      ensures forall other :: other != id ==> GetNode(other) == old(GetNode(other))
      ensures !old(NodeExists(id)) ==> nodes == old(nodes)
    {
      nodes := Filter(nodes, HasOtherId(id));
      forall other | other != id {
        FindFilter(old(nodes), HasId(other), HasOtherId(id));
      }
      if !old(NodeExists(id)) {
        FilterKeepsAll(old(nodes), HasOtherId(id));
      }
    }

    /** `remove_edge`: keeps, in order, exactly the edges not joining `from`
        to `to`. */
    method RemoveEdge(from: u32, to: u32)
      modifies this`edges
      ensures edges == Filter(old(edges), ConnectsOther(from, to))
      ensures GetEdge(from, to).None? && !EdgeExists(from, to)
      ensures forall f, t :: (f != from || t != to) ==> GetEdge(f, t) == old(GetEdge(f, t))
      ensures !old(EdgeExists(from, to)) ==> edges == old(edges)
    {
      edges := Filter(edges, ConnectsOther(from, to));
      forall f, t | f != from || t != to {
        FindFilter(old(edges), Connects(f, t), ConnectsOther(from, to));
      }
      if !old(EdgeExists(from, to)) {
        FilterKeepsAll(old(edges), ConnectsOther(from, to));
      }
    }

    /** `add_node_actions`: appends to the actions of the first node with
        this id; a silent no-op when there is none. */
    method AddNodeActions(id: u32, actions: seq<Action>)
      modifies this`nodes
      ensures |nodes| == |old(nodes)|
      ensures forall i :: 0 <= i < |nodes| ==> nodes[i].id == old(nodes)[i].id
      ensures forall i :: 0 <= i < |nodes| && i != Position(old(nodes), HasId(id)) ==> nodes[i] == old(nodes)[i]
      ensures old(GetNodeActions(id)).Some? ==> GetNodeActions(id) == Some(old(GetNodeActions(id)).value + actions)
      ensures old(GetNodeActions(id)).None? ==> nodes == old(nodes)
    {
      var k := Position(nodes, HasId(id));
      if k < |nodes| {
        nodes := nodes[k := Node(nodes[k].id, nodes[k].actions + actions)];
        PositionCongruent(old(nodes), nodes, HasId(id));
      }
    }

    // --------------------------------------------------------------- position

    /** `set_current_node`: succeeds exactly for an existing id; on failure
        nothing changes. */
    method SetCurrentNode(id: u32) returns (res: Result<(), MarkovChainError>)
      modifies this`currentNode
      ensures res.Ok? <==> NodeExists(id)
      ensures res.Ok? ==> currentNode == Some(id)
      ensures res.Err? ==> res.error == NodeDoesNotExistError && currentNode == old(currentNode)
    {
      if GetNode(id).Some? {
        currentNode := Some(id);
        res := Ok(());
      } else {
        res := Err(NodeDoesNotExistError);
      }
    }

    // ------------------------------------------------------------- transition

    /** The draw `next` makes is reached only when there is a current node with
        outgoing edges; `gen_range(0.0..total)` then needs a non-empty range
        and returns a value in it. */
    predicate DrawInRange(r: real)
      reads this
    {
      match currentNode
      case None => true
      case Some(id) =>
        match GetNodeEdges(id)
        case Err(_) => true
        case Ok(es) => |es| > 0 ==> 0.0 <= r < Total(es)
    }

    /** What `next` does when its draw returns `r`: the node it moves to, or
        the error it reports. */
    function Step(r: real): (res: Result<u32, MarkovChainError>)
      reads this
      ensures currentNode.None? ==> res == Err(NodeDoesNotExistError)
      ensures res.Ok? ==> currentNode.Some? && NodeExists(currentNode.value)
                          && GetEdgeFrom(currentNode.value).Some?
      ensures res.Err? ==> res.error != StuckError && res.error != EdgeDoesNotExistError
                           && res.error != ActionDoesNotExistError
    {
      match currentNode
      case None => Err(NodeDoesNotExistError)
      case Some(id) =>
        match GetNodeEdges(id)
        case Err(_) => Err(NodeHasNoEdgesError)
        case Ok(es) =>
          if |es| == 0 then Err(NodeHasNoEdgesError)
          else if Select(es, r) < |es| then Ok(es[Select(es, r)].to)
          else Err(TransitionFailedError)
    }

    /** `next`, with the random draw passed in as `r`. */
    method Next(r: real) returns (res: Result<(), MarkovChainError>)
      requires DrawInRange(r)
      modifies this`currentNode
      ensures old(Step(r)).Ok? ==> res == Ok(()) && currentNode == Some(old(Step(r)).value)
      ensures old(Step(r)).Err? ==> res == Err(old(Step(r)).error) && currentNode == old(currentNode)
    {
      if currentNode.None? {
        return Err(NodeDoesNotExistError);
      }
      var currentId := currentNode.value;
      var outgoing := GetNodeEdges(currentId);
      if outgoing.Err? {
        return Err(NodeHasNoEdgesError);
      }
      var es := outgoing.value;
      if |es| == 0 {
        return Err(NodeHasNoEdgesError);
      }

      var totalWeight := SumWeights(es);
      // r stands for `rng.gen_range(0.0..totalWeight)`
      assert 0.0 <= r < totalWeight;
      var k := Walk(es, r);
      if k < |es| {
        currentNode := Some(es[k].to);
        return Ok(());
      }
      return Err(TransitionFailedError);
    }
  }

  /** `next` without a current node fails with `NodeDoesNotExistError`. With a
      current node that is gone (left stale by `remove_node`) or has no
      outgoing edge it fails with `NodeHasNoEdgesError`, although
      `get_node_edges` reports the stale node as `NodeDoesNotExistError`. */
  lemma NextErrors(c: MarkovChain, r: real)
    ensures c.currentNode.None? ==> c.Step(r) == Err(NodeDoesNotExistError)
    ensures c.Step(r) == Err(NodeHasNoEdgesError) <==>
              c.currentNode.Some? && (!c.NodeExists(c.currentNode.value) || c.GetEdgeFrom(c.currentNode.value).None?)
    ensures c.currentNode.Some? && !c.NodeExists(c.currentNode.value) ==>
              c.GetNodeEdges(c.currentNode.value) == Err(NodeDoesNotExistError)
  {
  }

  /** With exact weights `TransitionFailedError` cannot occur: for a draw in
      range, `next` moves exactly when the current node exists and some edge
      leaves it. */
  lemma NextSucceeds(c: MarkovChain, r: real)
    requires c.DrawInRange(r)
    ensures c.Step(r) != Err(TransitionFailedError)
    ensures c.Step(r).Ok? <==> c.currentNode.Some? && c.NodeExists(c.currentNode.value)
                               && c.GetEdgeFrom(c.currentNode.value).Some?
  {
    if c.currentNode.Some? && c.NodeExists(c.currentNode.value) {
      var es := c.GetNodeEdges(c.currentNode.value).value;
      if |es| > 0 {
        SelectInRange(es, r);
      }
    }
  }

  /** A successful `next` follows a stored edge leaving the current node: the
      first outgoing edge, in stored order, whose prefix weight sum through
      it exceeds the draw. */
  lemma NextFollowsEdge(c: MarkovChain, r: real)
    requires c.Step(r).Ok?
    ensures c.currentNode.Some? && c.GetNodeEdges(c.currentNode.value).Ok?
    ensures var es := c.GetNodeEdges(c.currentNode.value).value;
            exists k :: 0 <= k < |es| && es[k].to == c.Step(r).value
                        && r < PrefixSum(es, k + 1)
                        && forall j :: 0 < j <= k ==> PrefixSum(es, j) <= r
    ensures exists i :: 0 <= i < |c.edges| && c.edges[i].from == c.currentNode.value
                        && c.edges[i].to == c.Step(r).value
  {
    var es := c.GetNodeEdges(c.currentNode.value).value;
    var k := Select(es, r);
    SelectFirstPrefixAbove(es, r);
    assert es[k] in c.edges;
  }
}
