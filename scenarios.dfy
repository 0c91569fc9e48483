/** The unit tests of `markov_chain.rs`, as clients of the model: each
    method builds a chain through the public operations only and its
    postcondition states what the test asserts. The draw of `next` is a
    parameter, so the statistical test becomes an exact statement about
    which draws reach which node. */
module Scenarios {
  import opened Base
  import opened Iter
  import opened Nodes
  import opened Edges
  import opened WeightedChoice
  import opened Chain

  /** `create_test_nodes`: nodes 1, 2 and 3 without actions. */
  function TestNodes(): (ns: seq<Node>)
    ensures |ns| == 3
    ensures forall i :: 0 <= i < |ns| ==> ns[i] == NewNode(i + 1, None)
  {
    [Node(1, []), Node(2, []), Node(3, [])]
  }

  /** `create_test_edges`: 1 -> 2, 1 -> 3 and 2 -> 3, each of weight 1. */
  function TestEdges(): (es: seq<Edge>)
    ensures |es| == 3
    ensures forall i :: 0 <= i < |es| ==> es[i].weight == 1.0 && es[i].from < es[i].to
    ensures forall i, j :: 0 <= i < j < |es| ==> (es[i].from, es[i].to) != (es[j].from, es[j].to)
  {
    [Edge(1, 2, 1.0), Edge(1, 3, 1.0), Edge(2, 3, 1.0)]
  }

  /** The edges leaving node 1 in the test graph. */
  lemma TestEdgesFromOne()
    ensures Filter(TestEdges(), Leaves(1)) == [Edge(1, 2, 1.0), Edge(1, 3, 1.0)]
  {
  }

  /** Node 1 is in the test graph. */
  lemma TestNodesHaveOne()
    ensures Any(TestNodes(), HasId(1))
  {
  }

  /** Walking node 1's edges: total weight 2, draws below 1 pick the first. */
  lemma WalkFromOne(r: real)
    requires 0.0 <= r < 2.0
    ensures Total([Edge(1, 2, 1.0), Edge(1, 3, 1.0)]) == 2.0
    ensures Select([Edge(1, 2, 1.0), Edge(1, 3, 1.0)], r) == if r < 1.0 then 0 else 1
  {
  }

  /** Node 4 is not. */
  lemma TestNodesLackFour()
    ensures !Any(TestNodes(), HasId(4))
  {
  }

  /** `test_add_node`. */
  method TestAddNode() returns (found: Option<Node>)
    ensures found == Some(Node(1, []))
  {
    var mc := new MarkovChain(None, None);
    mc.AddNode(Node(1, []));
    found := mc.GetNode(1);
  }

  /** `test_add_nodes`. */
  method TestAddNodes() returns (first: Option<Node>, second: Option<Node>, third: Option<Node>)
    ensures first == Some(TestNodes()[0])
    ensures second == Some(TestNodes()[1])
    ensures third == Some(TestNodes()[2])
  {
    var mc := new MarkovChain(None, None);
    mc.AddNodes(TestNodes());
    first := mc.GetNode(1);
    second := mc.GetNode(2);
    third := mc.GetNode(3);
  }

  /** `test_remove_node`. */
  method TestRemoveNode() returns (found: Option<Node>)
    ensures found == None
  {
    var mc := new MarkovChain(Some(TestNodes()), None);
    mc.RemoveNode(1);
    found := mc.GetNode(1);
  }

  /** `test_add_edge`. */
  method TestAddEdge() returns (found: Option<Edge>)
    ensures found == Some(Edge(1, 2, 1.0))
  {
    var mc := new MarkovChain(None, None);
    mc.AddEdge(Edge(1, 2, 1.0));
    found := mc.GetEdge(1, 2);
  }

  /** `test_remove_edge`. */
  method TestRemoveEdge() returns (found: Option<Edge>)
    ensures found == None
  {
    var mc := new MarkovChain(None, Some(TestEdges()));
    mc.RemoveEdge(1, 2);
    found := mc.GetEdge(1, 2);
  }

  /** `test_set_current_node`: node 1 is accepted, node 4 is refused and the
      current node stays 1. */
  method TestSetCurrentNode() returns (accepted: Result<(), MarkovChainError>,
                                       refused: Result<(), MarkovChainError>,
                                       current: Option<u32>)
    ensures accepted.Ok?
    ensures refused == Err(NodeDoesNotExistError)
    ensures current == Some(1)
  {
    var mc := new MarkovChain(Some(TestNodes()), None);
    TestNodesHaveOne();
    TestNodesLackFour();
    accepted := mc.SetCurrentNode(1);
    refused := mc.SetCurrentNode(4);
    current := mc.GetCurrentNode();
  }

  /** `test_get_node_edges`: exactly the two edges leaving node 1, in order. */
  method TestGetNodeEdges() returns (out: Result<seq<Edge>, MarkovChainError>)
    ensures out == Ok([Edge(1, 2, 1.0), Edge(1, 3, 1.0)])
  {
    var mc := new MarkovChain(Some(TestNodes()), Some(TestEdges()));
    TestNodesHaveOne();
    TestEdgesFromOne();
    out := mc.GetNodeEdges(1);
  }

  /** `test_next` and `test_next_edge_distribution`: without a current node
      `next` fails; from node 1 every draw in [0, 2) succeeds, the draws in
      [0, 1) reaching node 2 and those in [1, 2) node 3. */
  method TestNext(r: real) returns (before: Result<(), MarkovChainError>,
                                    after: Result<(), MarkovChainError>,
                                    landed: Option<u32>)
    requires 0.0 <= r < 2.0
    ensures before == Err(NodeDoesNotExistError)
    ensures after.Ok?
    ensures landed == Some(if r < 1.0 then 2 else 3)
  {
    var mc := new MarkovChain(Some(TestNodes()), Some(TestEdges()));
    before := mc.Next(r);
    TestNodesHaveOne();
    TestEdgesFromOne();
    var started := mc.SetCurrentNode(1);
    var out := [Edge(1, 2, 1.0), Edge(1, 3, 1.0)];
    assert mc.GetNodeEdges(1) == Ok(out);
    WalkFromOne(r);
    assert mc.DrawInRange(r);
    assert mc.Step(r) == Ok(if r < 1.0 then 2 else 3);
    after := mc.Next(r);
    landed := mc.GetCurrentNode();
  }
}
