# markov-generator in Dafny

A model of the in-memory Markov chain engine of `markov-generator`: a
weighted directed graph whose nodes carry lists of actions (identified JSON
payloads) and whose edges carry transition weights, plus `next`, which moves
a current position along an outgoing edge chosen with probability
proportional to its weight.

Files and modules:

- `base.dfy` (`Base`): `Option`, `Result` and the `u32` identifier type.
- `iter.dfy` (`Iter`): the iterator adapters every lookup and removal is
  built from (`find`, `any`, `filter` + `collect`, `Vec::retain`), as
  functions on sequences with their properties, plus `Position`, the index
  at which `iter_mut().find` stops in `add_node_actions`.
- `action.dfy` (`Actions`), `node.dfy` (`Nodes`), `edge.dfy` (`Edges`): the
  value types with their `new` constructors, derived equality and, for
  edges, the derived lexicographic ordering.
- `weighted_choice.dfy` (`WeightedChoice`): the two loops of `next`
  (`SumWeights` and `Walk`) proved against the specification functions
  `Total` and `Select`, and lemmas about the choice: which draws pick which
  edge, and that an in-range draw always picks one.
- `markov_chain.dfy` (`Chain`): `MarkovChainError` and the class
  `MarkovChain` with fields `nodes`, `edges` and `currentNode`. The
  mutators are methods whose frames name only the field they change
  (`modifies this`nodes` and so on) and whose postconditions give the new
  field as a function of the old one. The lookups are functions whose
  `reads` frames name only the fields they search. `GetCurrentNode`
  returns `currentNode`. `Step(r)` specifies what `next` does when its
  random draw returns `r`: the node it moves to, or the error it reports.
  `Next` is proved against `Step`.
- `scenarios.dfy` (`Scenarios`): the unit tests of `markov_chain.rs`
  written as client methods. They call only the public operations.

The random draw `rng.gen_range(0.0..total_weight)` is the parameter `r` of
`Next`. Its precondition `DrawInRange(r)` asks `0 <= r < total` only when
the draw is actually reached, that is, when there is a current node, it
exists and it has outgoing edges. Weights are exact reals. With exact
reals the `TransitionFailedError` branch of `next` is unreachable for any
in-range draw, whatever the signs of the weights (`NextSucceeds`,
`SelectInRange`). The branch is still modelled, because the source keeps
it for floating-point rounding.

Three consequences of the code:

- Lookups return the first match, so after `add_node(n)`, `get_node(n.id)`
  is `n` only when no earlier node has that id (`AddNode` states both
  cases).
- `remove_node` never clears `currentNode`, so the current id can name a
  node that is gone. `next` then reports `NodeHasNoEdgesError`, while
  `get_node_edges` for that id reports `NodeDoesNotExistError`
  (`NextErrors`).
- `next` succeeds for any in-range draw whatever the signs of the weights.
  Non-negative weights are needed only for each edge to be chosen with
  probability weight / total (`SelectInterval`).

## Model

| member | source | states |
|---|---|---|
| `Iter.Position` | markov-generator/src/markov_chain/markov_chain.rs:63 | the index returned has no earlier match, and it is a match unless it is the length |
| `Iter.PositionCongruent` | markov-generator/src/markov_chain/markov_chain.rs:63 | two equally long sequences on which the predicate agrees pointwise have the same first-match index |
| `Iter.PositionAppend` | markov-generator/src/markov_chain/markov_chain.rs:52-54 | the first match in `s + t` is the first match in `s` if there is one, else `|s|` plus the first match in `t` |
| `Iter.Find` | markov-generator/src/markov_chain/markov_chain.rs:52-54 | `find` yields a value iff some element matches; the value matches and sits at an index with no earlier match |
| `Iter.FindAppend` | markov-generator/src/markov_chain/markov_chain.rs:31-41 | `find` on a concatenation looks in the second part only when the first part has no match |
| `Iter.FindFilter` | markov-generator/src/markov_chain/markov_chain.rs:43-50 | filtering by a predicate implied by the search predicate does not change what `find` returns |
| `Iter.Any` | markov-generator/src/markov_chain/markov_chain.rs:111-119 | `any` holds iff some element satisfies the predicate |
| `Iter.Filter` | markov-generator/src/markov_chain/markov_chain.rs:101-106 | the result is no longer than the input, every element of it satisfies the predicate and occurs in the input, and every input element satisfying it is kept |
| `Iter.FilterAppend` | markov-generator/src/markov_chain/markov_chain.rs:43-50 | filtering distributes over concatenation, so kept elements stay in their stored relative order |
| `Iter.FilterKeepsAll` | markov-generator/src/markov_chain/markov_chain.rs:43-50 | filtering a sequence whose every element passes changes nothing, so removing an absent key is a no-op |
| `Iter.FilterIdempotent` | markov-generator/src/markov_chain/markov_chain.rs:43-50 | filtering twice by the same predicate equals filtering once |
| `Actions.NewAction` | markov-generator/src/markov_chain/action.rs:20-27 | the id is stored unchanged; an absent value becomes `Null`; a given value is stored as is |
| `Actions.NewActionRebuilds` | markov-generator/src/markov_chain/action.rs:20-26 | every action equals `Action::new` applied to its own id and value |
| `Actions.NewActionDefault` | markov-generator/src/markov_chain/action.rs:21-24 | omitting the value is the same as passing `Null` |
| `Actions.ActionEquality` | markov-generator/src/markov_chain/action.rs:5-9 | two actions are equal iff their ids and values are equal |
| `Nodes.NewNode` | markov-generator/src/markov_chain/node.rs:11-21 | the id is stored unchanged; absent actions become the empty list; given actions are stored in order |
| `Nodes.NewNodeRebuilds` | markov-generator/src/markov_chain/node.rs:17-20 | every node equals `Node::new` applied to its own id and actions |
| `Nodes.NewNodeDefault` | markov-generator/src/markov_chain/node.rs:12-15 | omitting the actions is the same as passing an empty list |
| `Nodes.NodeEquality` | markov-generator/src/markov_chain/node.rs:4-8 | two nodes are equal iff their ids are equal and their action lists agree element by element |
| `Edges.NewEdge` | markov-generator/src/markov_chain/edge.rs:11-13 | `from`, `to` and `weight` are stored verbatim |
| `Edges.NewEdgeAcceptsAll` | markov-generator/src/markov_chain/edge.rs:11-13 | no validation: every edge, with any weight and any ids, is what `Edge::new` builds from its fields |
| `Edges.EdgeEquality` | markov-generator/src/markov_chain/edge.rs:3-8 | two edges are equal iff `from`, `to` and `weight` are equal |
| `Edges.CompareLexicographic` | markov-generator/src/markov_chain/edge.rs:3-8 | the derived order compares `from` first, then `to`, then `weight` |
| `Edges.Compare` | markov-generator/src/markov_chain/edge.rs:3-8 | the derived `partial_cmp`: it reports `Equal` iff the edges are equal |
| `Edges.CompareAntisymmetric` | markov-generator/src/markov_chain/edge.rs:3-8 | `a < b` iff `b > a` |
| `Edges.LtTransitive` | markov-generator/src/markov_chain/edge.rs:3-8 | `<` on edges is transitive |
| `Edges.LtTotal` | markov-generator/src/markov_chain/edge.rs:3-8 | with exact weights any two edges are equal or ordered one way |
| `WeightedChoice.Total` | markov-generator/src/markov_chain/markov_chain.rs:151-154 | the sum of the weights: zero for no edges, and non-negative when every weight is |
| `WeightedChoice.Select` | markov-generator/src/markov_chain/markov_chain.rs:157-165 | the walk returns an index within the edge list, or its length when it falls off the end |
| `WeightedChoice.TotalCons` | markov-generator/src/markov_chain/markov_chain.rs:151-154 | summing left to right equals the head weight plus the sum of the rest |
| `WeightedChoice.PrefixStep` | markov-generator/src/markov_chain/markov_chain.rs:152-154 | extending a prefix by one edge adds that edge's weight to its sum |
| `WeightedChoice.PrefixMonotone` | markov-generator/src/markov_chain/markov_chain.rs:151-154 | with non-negative weights longer prefixes have larger or equal sums |
| `WeightedChoice.SelectFrom` | markov-generator/src/markov_chain/markov_chain.rs:157-163 | one step of the walk: take edge `i` if the remaining draw is below its weight, otherwise subtract that weight and go on at `i + 1` |
| `WeightedChoice.SelectFirstPrefixAbove` | markov-generator/src/markov_chain/markov_chain.rs:157-163 | the picked edge is the first whose prefix sum through it exceeds the draw; all shorter prefix sums are at most the draw |
| `WeightedChoice.SelectInRange` | markov-generator/src/markov_chain/markov_chain.rs:156-165 | for a draw in `[0, total)` the walk always picks an edge, for weights of any sign |
| `WeightedChoice.SelectInterval` | markov-generator/src/markov_chain/markov_chain.rs:151-163 | with non-negative weights edge `k` is picked exactly for draws in `[prefix(k), prefix(k+1))`, an interval as long as its weight |
| `WeightedChoice.SumWeights` | markov-generator/src/markov_chain/markov_chain.rs:151-154 | the accumulation loop returns the total weight |
| `WeightedChoice.Walk` | markov-generator/src/markov_chain/markov_chain.rs:157-165 | the subtraction loop returns the index the walk specification picks, or the length when it falls off the end |
| `Chain.MarkovChain.constructor` | markov-generator/src/markov_chain/markov_chain.rs:23-29 | nodes and edges are the given sequences, or empty when absent; no current node |
| `Chain.MarkovChain.GetNode` | markov-generator/src/markov_chain/markov_chain.rs:52-54 | a node is returned iff one has the id; it has the id and no earlier node has it |
| `Chain.MarkovChain.GetEdge` | markov-generator/src/markov_chain/markov_chain.rs:56-60 | an edge is returned iff one joins the two ids; it joins them and no earlier edge does |
| `Chain.MarkovChain.NodeExists` | markov-generator/src/markov_chain/markov_chain.rs:111-113 | true iff some node has the id, iff `GetNode` finds one |
| `Chain.MarkovChain.EdgeExists` | markov-generator/src/markov_chain/markov_chain.rs:115-119 | true iff some edge joins the two ids, iff `GetEdge` finds one |
| `Chain.MarkovChain.GetNodeActions` | markov-generator/src/markov_chain/markov_chain.rs:68-73 | present iff the node exists; the actions are those of the first node with the id |
| `Chain.MarkovChain.GetNodeAction` | markov-generator/src/markov_chain/markov_chain.rs:75-80 | found iff the first node with the id has an action with the action id; the first such action of that node is returned |
| `Chain.MarkovChain.GetEdgeFrom` | markov-generator/src/markov_chain/markov_chain.rs:82-87 | present iff some edge leaves the id, and then it is the id itself |
| `Chain.MarkovChain.GetEdgeTo` | markov-generator/src/markov_chain/markov_chain.rs:89-94 | present iff some edge enters the id, and then it is the id itself |
| `Chain.MarkovChain.GetNodeEdges` | markov-generator/src/markov_chain/markov_chain.rs:96-109 | `NodeDoesNotExistError` iff no node has the id; otherwise the stored-order filter of the edges leaving it, holding every such edge and nothing else; empty iff no edge leaves it |
| `Chain.MarkovChain.GetCurrentNode` | markov-generator/src/markov_chain/markov_chain.rs:130-132 | returns the current position as stored, `None` included |
| `Chain.MarkovChain.AddNode` | markov-generator/src/markov_chain/markov_chain.rs:31-33 | appends the node and changes nothing else; `GetNode` on its id now returns it unless an earlier node had the id; earlier lookups are unchanged |
| `Chain.MarkovChain.AddNodes` | markov-generator/src/markov_chain/markov_chain.rs:35-37 | appends the slice in order; a lookup is unchanged for existing ids and otherwise finds the first match among the new nodes |
| `Chain.MarkovChain.AddEdge` | markov-generator/src/markov_chain/markov_chain.rs:39-41 | appends the edge and changes nothing else; `GetEdge` on its endpoints now returns it unless an earlier edge joined them |
| `Chain.MarkovChain.RemoveNode` | markov-generator/src/markov_chain/markov_chain.rs:43-45 | keeps exactly the nodes with another id, in order; afterwards the id is not found, lookups of other ids are unchanged, edges and the current node are untouched; a no-op for an absent id |
| `Chain.MarkovChain.RemoveEdge` | markov-generator/src/markov_chain/markov_chain.rs:47-50 | keeps exactly the edges not joining the pair, in order; afterwards the pair is not found, other pairs are unchanged; a no-op for an absent pair |
| `Chain.MarkovChain.AddNodeActions` | markov-generator/src/markov_chain/markov_chain.rs:62-66 | appends the actions to the first node with the id and to no other node, keeping every id; a silent no-op when no node has the id |
| `Chain.MarkovChain.SetCurrentNode` | markov-generator/src/markov_chain/markov_chain.rs:121-128 | succeeds iff the node exists, and then the current node is the id; on failure `NodeDoesNotExistError` and nothing changes; nodes and edges never change |
| `Chain.MarkovChain.Step` | markov-generator/src/markov_chain/markov_chain.rs:134-166 | what `next` does for a draw: `NodeDoesNotExistError` without a current node; success only from an existing node with an outgoing edge; never `StuckError`, `EdgeDoesNotExistError` or `ActionDoesNotExistError` |
| `Chain.MarkovChain.Next` | markov-generator/src/markov_chain/markov_chain.rs:134-166 | moves to the node `Step` names and reports success, or reports `Step`'s error and leaves the current node as it was; only the current node can change |
| `Chain.NextErrors` | markov-generator/src/markov_chain/markov_chain.rs:136-149 | no current node gives `NodeDoesNotExistError`; `NodeHasNoEdgesError` iff the current node is missing or has no outgoing edge, although `get_node_edges` reports a missing node as `NodeDoesNotExistError` |
| `Chain.NextSucceeds` | markov-generator/src/markov_chain/markov_chain.rs:147-165 | for an in-range draw `TransitionFailedError` never occurs, and `next` succeeds iff the current node exists and some edge leaves it |
| `Chain.NextFollowsEdge` | markov-generator/src/markov_chain/markov_chain.rs:151-163 | on success the new node is the target of the first outgoing edge whose prefix weight sum exceeds the draw, and a stored edge leads there from the current node |
| `Scenarios.TestNodes` | markov-generator/src/markov_chain/markov_chain.rs:173-188 | three nodes, the i-th being `Node::new(i + 1, None)` |
| `Scenarios.TestEdges` | markov-generator/src/markov_chain/markov_chain.rs:190-208 | three edges of weight 1, each from a lower to a higher id, no two joining the same pair |
| `Scenarios.TestAddNode` | markov-generator/src/markov_chain/markov_chain.rs:210-219 | after adding node 1 to an empty chain, `get_node(1)` returns it |
| `Scenarios.TestAddNodes` | markov-generator/src/markov_chain/markov_chain.rs:221-229 | after adding the three test nodes, each id finds its node |
| `Scenarios.TestRemoveNode` | markov-generator/src/markov_chain/markov_chain.rs:231-236 | after removing node 1 it is not found |
| `Scenarios.TestAddEdge` | markov-generator/src/markov_chain/markov_chain.rs:238-248 | after adding edge 1 -> 2 to an empty chain, `get_edge(1, 2)` returns it |
| `Scenarios.TestRemoveEdge` | markov-generator/src/markov_chain/markov_chain.rs:250-255 | after removing 1 -> 2 it is not found |
| `Scenarios.TestSetCurrentNode` | markov-generator/src/markov_chain/markov_chain.rs:257-271 | node 1 is accepted, node 4 refused with `NodeDoesNotExistError`, and the current node stays 1 |
| `Scenarios.TestGetNodeEdges` | markov-generator/src/markov_chain/markov_chain.rs:282-297 | node 1's outgoing edges are exactly 1 -> 2 and 1 -> 3, in that order |
| `Scenarios.TestNext` | markov-generator/src/markov_chain/markov_chain.rs:273-324 | `next` fails without a current node; from node 1 every draw in `[0, 2)` succeeds, and draws below 1 reach node 2 while the others reach node 3 (half the range each) |

## Left out

- Serialization: the serde `Serialize`/`Deserialize` derives, the JSON
  layout of the chain and `Action::from_str` with its `ParseError`. They are
  delegated to `serde_json`, a foreign library.
- The random source `rand::thread_rng` / `gen_range`: the draw is the
  parameter `r` of `Next`. `gen_range` panics on an empty range, when the
  outgoing weights sum to zero or less; `Next` requires the range to be
  non-empty instead of modelling the panic.
- `f32` weights: modelled as exact reals, so NaN, infinities, rounding in
  the sum and in the subtraction walk, and the IEEE equality of the derived
  `PartialEq`/`PartialOrd` (`NaN != NaN`, `-0.0 == 0.0`, incomparable pairs)
  are not captured. `TransitionFailedError` arises only from such rounding.
- `serde_json::Value`: numbers are exact integers or reals, not
  `u64`/`i64`/`f64` with their ranges. Objects are maps, so key order is
  not modelled.
- The distribution test at markov-generator/src/markov_chain/markov_chain.rs:299-324
  is statistical. Its exact counterpart is `SelectInterval`, which says edge `k`
  is picked for a set of draws as long as its weight, and `TestNext`.
- References: the getters return `&Node`, `&Edge`, `&Vec<Action>` and
  `&Action`. The model returns the values.
- `Next`: the two loops of `next` are written as the methods `SumWeights` and
  `Walk`, which `Next` calls, instead of being inlined in its body.
- `StuckError`, `EdgeDoesNotExistError`, `ActionDoesNotExistError`: declared
  in `MarkovChainError`, but no operation returns them, in the source or the
  model.
- `main.rs` (builds a sample chain and prints its JSON) and `mod.rs`
  (re-exports) are not part of this model.
