/** `Node`: an identified vertex owning an ordered list of actions. */
module Nodes {
  import opened Base
  import opened Actions

  /** `Node { id, actions }`; equality is the derived, field-wise one. */
  datatype Node = Node(id: u32, actions: seq<Action>)

  /** `Node::new`: absent actions become the empty list; given actions are
      stored as they are, in order. */
  function NewNode(id: u32, actions: Option<seq<Action>>): (n: Node)
    ensures n.id == id
    ensures actions.None? ==> n.actions == []
    ensures actions.Some? ==> n.actions == actions.value
  {
    match actions
    case Some(a) => Node(id, a)
    case None => Node(id, [])
  }

  /** Every node is what `Node::new` builds from its own fields. */
  lemma NewNodeRebuilds(n: Node)
    ensures NewNode(n.id, Some(n.actions)) == n
  {
  }

  /** Leaving the actions out is the same as passing an empty list. */
  lemma NewNodeDefault(id: u32)
    ensures NewNode(id, None) == NewNode(id, Some([]))
  {
  }

  /** Derived `PartialEq`: two nodes are equal exactly when their ids and
      their action lists (element by element) are. */
  lemma NodeEquality(a: Node, b: Node)
    ensures a == b <==> a.id == b.id && |a.actions| == |b.actions|
                        && forall i :: 0 <= i < |a.actions| ==> a.actions[i] == b.actions[i]
  {
  }
}
