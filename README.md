# delphy dataflow core, modelled in Dafny

delphy computes values over a graph of nodes. A node is one of four kinds:
- a number;
- a vector of numbers;
- a formula over the outputs of its input nodes;
- an SQL query, which is not implemented yet.

Evaluating a node first evaluates its inputs, in order. Each input's output is
normalised to a vector. The node then works position by position over the
*broadcast length*, the length of the longest input vector:
- a shorter input repeats its last value at the positions past its end;
- a formula node binds each input under the name `id<N>`, where N is the
  input's id, and evaluates the formula once per position.

The list of outputs is then collapsed:
- no output at all is an error;
- exactly one output is a number;
- two or more outputs are a vector.

A constant node forces the broadcast length to 1. A number node therefore
outputs itself. A vector node outputs its elements, collapsed in the same way.

The same algorithm appears three times in the repository:
- `Node::eval` in `src/core.rs`, over reference-counted nodes that a `Tree`
  builder wires up from node and edge definitions;
- `Node::eval` in `src/node.rs`, the same code as a standalone module;
- `Node::compute` in `src/lib.rs`, over an owned tree of nodes with symbolic
  values. That file also has a parser entry point, `from_formula`, and
  conversions of an output to a number or to a vector.

The Dafny modules:
- `Outcomes`: `Option` and `Result`.
- `Names`: the decimal rendering of ids and the binding names `id<N>`, proved
  injective.
- `Broadcast`: the part that all three evaluators share:
  - normalisation, the broadcast length and the per-position bindings;
  - the output step of each node kind and the collapse;
  - an imperative `Combine` that runs the output loop.
- `GraphBuild`: `Tree::new`, in two versions. The tree is an arena:
  - each node is a slot;
  - a slot's inputs are slot numbers;
  - a map sends each key to its slot.

  The two versions:
  - `BuildAsWritten` is the code as written. Every node keeps the id 0 that
    `from_formula` gives it, and each wired node is put back under that id.
    As a result, `Tree::new` fails on its own test input (see "## Findings").
  - `BuildSpec` is the evidently intended build. Each node is given the id of
    its definition. `TreeNew` runs the two loops of `Tree::new` imperatively,
    with this one difference, and is proved equal to `BuildSpec`.

  The lemmas about the shape of the built tree and about the edge rejections
  describe `BuildSpec`. The rows below say "Id-stamped build" where that
  applies. Ids play no part in the definition loop, which
  `GraphBuild.LoadNodesAgree` proves. So the definition-phase rejections and
  the skipping of duplicates hold of the code as written too
  (`GraphBuild.AsWrittenRejectsDefinition`, `GraphBuild.AsWrittenIgnoresDuplicate`).
- `GraphEval`: `Node::eval` of `src/core.rs` and `src/node.rs` over that arena.
  It is an imperative method proved against a recursive specification, with
  lemmas for every node kind and for the repository's test scenario.
- `Owned`: `Node::compute`, `from_formula` and the two conversions of
  `src/lib.rs`, over an owned tree datatype.

Values, formulas and the formula evaluator are kept abstract:
- a value is a type parameter `V`;
- a formula is a type parameter `F`;
- formula evaluation is a parameter `evalF: (F, map<string, V>) -> Option<V>`.
  It is given the bindings and returns `None` when the evaluation fails.

Formula parsing is a parameter `parse: string -> Option<F>`. Unpacking a
symbolic value to a float is a parameter `unpack: V -> Option<R>`.

The kind check of `Tree::new` is made only for the first definition of an id. A later definition with an already-known id
is skipped before its kind is looked at. So a duplicate with an unsupported
kind does not fail the build (`GraphBuild.BuildIgnoresDuplicate`).

## Model

| member | source | states |
|---|---|---|
| Names.NatDecimalInjective | src/core.rs:80 | Distinct naturals have distinct decimal renderings. |
| Names.IdNameInjective | src/core.rs:80 | Two ids get the same binding name `id<N>` exactly when they are equal. So two inputs share a binding only when they have the same id. |
| Names.SmallIdNames | src/node.rs:66 | The ids 0 to 3 are bound as "id0" to "id3", the names the test formulas use. |
| Broadcast.Collapse | src/core.rs:124-128 | Collapsing fails exactly on no output, with the no-output error. One output gives a number and two or more give a vector. Normalising the result gives back the outputs, and the result is canonical. |
| Broadcast.CollapseNormalize | src/core.rs:75-78 | A canonical output collapses back to itself after it is normalised to a vector. |
| Broadcast.MaxLen | src/node.rs:57-65 | The broadcast length is at least every input's length. It is attained by some input when there are inputs, and it is 0 when there are none. |
| Broadcast.MaxLenSnoc | src/node.rs:65 | Adding one input takes the broadcast length to the larger of the old length and the new input's length. |
| Broadcast.BindingsKeys | src/node.rs:82-98 | The context for a position binds exactly the input names. |
| Broadcast.BindingsAt | src/node.rs:90-97 | An input name that no later input repeats is bound to the input's value at the position, or to its last value once the input is exhausted. |
| Broadcast.BindingsSpec | src/core.rs:96-112 | The context binds exactly the input names, and the last input with each name is bound to its value at that position. |
| Broadcast.BindingsOne | src/core.rs:96-112 | A single input is bound under its name alone. |
| Broadcast.BindingsTwo | src/core.rs:96-112 | Two inputs are bound under their names, and the second input wins when the names coincide. |
| Broadcast.Bindings | src/core.rs:96-112 | Every input name is bound in the context, and the last input is bound to its value at the position. |
| Broadcast.BindAt | src/core.rs:96-112 | The binding loop, run imperatively, builds exactly the specified context for the position. |
| Broadcast.PositionsShape | src/core.rs:90-122 | The output loop never fails for a constant node. It fails for a query node as soon as it runs, and otherwise only as a failed evaluation. A number or formula node collects one value per round, and a vector node its whole vector per round. |
| Broadcast.PositionsSticky | src/core.rs:114-116 | Once the evaluation at one position fails, the output loop fails with that error. |
| Broadcast.FormulaPositionsOkIff | src/node.rs:77-108 | The formula loop over n positions succeeds exactly when the formula evaluates at every position. Otherwise it fails as a failed evaluation. |
| Broadcast.FormulaPositionsValues | src/node.rs:100-104 | When the formula loop succeeds, it outputs the formula's value at each position, in order. |
| Broadcast.StepNumber | src/node.rs:70-79 | A number node outputs itself, whatever its inputs are. |
| Broadcast.StepNumberArray | src/node.rs:71-80 | A vector node outputs its elements collapsed: an error when there are none, a number for one, a vector otherwise. |
| Broadcast.StepFormula | src/core.rs:90-128 | A formula node succeeds exactly when the broadcast length is positive and the formula evaluates at every position. Otherwise it fails with no output (length 0) or as a failed evaluation. On success it outputs one value per position, equal to the formula evaluated with that position's bindings. |
| Broadcast.StepFormulaTwo | src/core.rs:90-128 | A formula node with broadcast length 2 whose two evaluations succeed outputs the vector of the two results. |
| Broadcast.StepQuery | src/core.rs:120 | A query node fails as unimplemented when it has any position to fill, and with no output otherwise. |
| Broadcast.Combine | src/core.rs:84-128 | The output loop, run imperatively over the normalised input values, returns the output step's specification. |
| GraphBuild.AddDef | src/core.rs:140-146 | One definition round keeps the tree when the id is known. It fails exactly when the id is new and the definition is not an acceptable formula: "invalid node type" for a kind other than 0, and a parse failure otherwise. |
| GraphBuild.AddDefShape | src/core.rs:139-147 | One definition round keeps the loop's shape: one input-less formula node per key, each carrying a defined id when ids are stamped and 0 as written. |
| GraphBuild.LoadNodes | src/core.rs:139-148 | The definition loop, in both versions, yields keys that are exactly the defined ids, with one input-less formula node per key. As written every node has id 0, and stamped every node carries a defined id. |
| GraphBuild.AddEdge | src/core.rs:151-166 | One edge round fails exactly when its consumer is unknown, its input is unknown, or the two are the same node. It fails with "node not found" for an unknown consumer and "input node not found" otherwise. On success every node keeps its id and kind. |
| GraphBuild.AddEdgeRekeys | src/core.rs:152-165 | A successful edge appends the input's slot to the consumer's list and leaves other lists alone. It puts the consumer back under the id it carries, which need not be the key it was taken from. |
| GraphBuild.Wire | src/core.rs:151-166 | The edge loop, in both versions, keeps the number of arena slots and each slot's id and kind. As written, the map can lose nodes (`GraphBuild.AsWrittenDropsNode`). |
| GraphBuild.WireKeys | src/core.rs:152-165 | Every key the edge loop leaves in the map was a key before, or is the id that some allocated node carries. |
| GraphBuild.BuildAsWritten | src/core.rs:137-171 | `Tree::new` as written: a built tree has one arena slot per defined id, and every node has id 0. The keys of the map it returns are defined ids or 0. |
| GraphBuild.BuildSpec | src/core.rs:137-171 | Id-stamped build: a built tree has one node per defined id, and every node carries a defined id. |
| GraphBuild.LoadNodesSticky | src/core.rs:141-143 | Once a definition fails, the definition loop fails with that error. |
| GraphBuild.FirstDefSnoc | src/core.rs:140 | An appended definition is kept exactly when no earlier definition has its id. |
| GraphBuild.LoadStep | src/core.rs:139-148 | Id-stamped build: one round of the definition loop skips an already-known id. Otherwise it fails on a kind other than formula, or on a formula that does not parse. Otherwise it adds one input-less formula node keyed by the id. |
| GraphBuild.DefsValidSnoc | src/core.rs:140-144 | The definitions stay valid after one more exactly when they were valid and the new one is a duplicate or acceptable. |
| GraphBuild.LoadNodesSpec | src/core.rs:139-148 | Id-stamped build: the definition loop succeeds exactly when every first definition of an id is an acceptable formula. It then holds one input-less node per defined id, carrying that id and the parsed formula of the id's first definition. |
| GraphBuild.InputIdsSnoc | src/core.rs:161-162 | An edge extends the input list of its consumer only. |
| GraphBuild.WiredStart | src/core.rs:151 | Id-stamped build: before any edge, every input list is as loaded. |
| GraphBuild.ReplaceKeepsKeyed | src/core.rs:165 | Id-stamped build: putting a node back into its own slot with its own id keeps the map consistent with the slots. |
| GraphBuild.WireStepGood | src/core.rs:151-166 | Id-stamped build: an edge whose ends are both defined and distinct appends its input's slot to its consumer's input list and keeps the keys. |
| GraphBuild.WireStep | src/core.rs:151-166 | Id-stamped build: one edge succeeds exactly when both of its ends are defined and distinct. It fails with "node not found" when the consumer is unknown and with "input node not found" otherwise. |
| GraphBuild.WireSpec | src/core.rs:151-166 | Id-stamped build: the edge loop succeeds exactly when every edge is good. It then keeps every key and every node's kind and id, and appends to each node the slots of its edges' inputs, in edge order. |
| GraphBuild.WireSticky | src/core.rs:152-158 | Once an edge fails, the edge loop fails with that error. |
| GraphBuild.WireFirstBad | src/core.rs:151-158 | Id-stamped build: the first bad edge decides the edge loop's error. |
| GraphBuild.PrefixValid | src/core.rs:139-144 | When every kept definition before k is acceptable, the first k definitions are valid. |
| GraphBuild.BuildRejectsDefinition | src/core.rs:141-143 | Id-stamped build: the first kept definition that is not an acceptable formula fails the build. An unsupported kind fails it as an invalid node type, and a formula that does not parse fails it as a parse failure. |
| GraphBuild.BuildIgnoresDuplicate | src/core.rs:140 | Id-stamped build: appending a definition whose id is already defined changes nothing, whatever its kind or formula. |
| GraphBuild.LoadRejectsDefinition | src/core.rs:139-147 | Id-stamped build: the definition loop fails on the first kept definition that is not an acceptable formula, with "invalid node type" for an unsupported kind and a parse failure otherwise. |
| GraphBuild.LoadFailsAt | src/core.rs:139-147 | Id-stamped build: stopped just after that definition, the definition loop has already failed with its error. |
| GraphBuild.LoadNodesAgree | src/core.rs:139-148 | The definition loop as written and with ids stamped succeeds on the same definitions, fails with the same error, and builds the same map. |
| GraphBuild.AsWrittenRejectsDefinition | src/core.rs:139-147 | `Tree::new` as written fails on the first kept definition that is not an acceptable formula, with "invalid node type" for an unsupported kind and a parse failure otherwise, whatever the edges. |
| GraphBuild.AsWrittenIgnoresDuplicate | src/core.rs:140 | `Tree::new` as written: appending a definition whose id is already defined changes nothing, whatever its kind or formula. |
| GraphBuild.BuildRejectsEdge | src/core.rs:151-158 | Id-stamped build: with valid definitions, the first edge that is not good fails the build with "node not found" (unknown consumer) or "input node not found" (unknown input or a self-edge). |
| GraphBuild.BuildRejectsSelfEdge | src/core.rs:152-157 | Id-stamped build: an edge from a node to itself fails with "input node not found", because the consumer has been taken out of the map. |
| GraphBuild.BuildShape | src/core.rs:137-171 | Id-stamped build: the build succeeds exactly when the definitions are valid and every edge is good. Its tree then has one key per defined id. The node under each key carries that id and the formula of the id's first definition. Its inputs are the nodes named by the edges into it, in edge order. |
| GraphBuild.TreeNew | src/core.rs:137-171 | Id-stamped build: the two loops of `Tree::new`, run imperatively with early returns, with each node given the id of its definition, return exactly `BuildSpec`. |
| GraphBuild.AsWrittenTestLoad | src/core.rs:190-206 | As written, the builder test's definitions load as three formula nodes keyed 0, 1 and 2, all with id 0. |
| GraphBuild.AsWrittenTestTreeFails | src/core.rs:178-211 | As written, the builder test's input fails with "node not found". |
| GraphBuild.AsWrittenTestEdgesFail | src/core.rs:151-166 | On the as-written test tree, the first edge moves node 2 to key 0, and the second edge fails with "node not found". |
| GraphBuild.AsWrittenEdgeRekeys | src/core.rs:152-165 | On the as-written test tree, the single edge from node 1 into node 2 puts node 2 under key 0 and leaves the keys 0 and 1 only. |
| GraphBuild.AsWrittenDropsNode | src/core.rs:137-171 | As written, the test's definitions with the single edge from node 1 into node 2 build a map of two keys for three defined ids, and no key leads to node 0. |
| GraphBuild.StampedTestLoad | src/core.rs:190-206 | Id-stamped build: the builder test's definitions load as three formula nodes with ids 0, 1 and 2, each under its own key. |
| GraphBuild.StampedTestFirstEdge | src/core.rs:181-184 | Id-stamped build: the test's first edge gives node 2 the input node 0 and keeps it under key 2. |
| GraphBuild.StampedTestSecondEdge | src/core.rs:185-188 | Id-stamped build: the test's second edge gives node 2 the input node 1 after node 0. |
| GraphBuild.StampedTestTree | src/core.rs:178-211 | Id-stamped build: the builder test's input builds, and node 2 has inputs node 0 then node 1. |
| GraphBuild.AsWrittenRejectsTestTree | src/core.rs:178-211 | With the nodes keyed by the id that `from_formula` gives them, the builder test's input fails with "node not found". With ids stamped, node 2 gets inputs node 0 then node 1. |
| GraphEval.EvalNode | src/core.rs:68-129 | A node that evaluates yields a canonical output: a number, or a vector of at least two values. |
| GraphEval.EvalInputs | src/core.rs:104-109 | Every normalised input value is non-empty, so the last value that a shorter input repeats always exists. |
| GraphEval.Eval | src/core.rs:68-129 | `Node::eval` run imperatively (the input loop, then the output loop) returns the recursive specification of the node's value. |
| GraphEval.EvalInputsSticky | src/core.rs:74 | Once an input fails, the input loop fails with that error. |
| GraphEval.EvalInputsOkIff | src/node.rs:59-68 | The input loop succeeds exactly when every input evaluates. |
| GraphEval.EvalInputsValues | src/node.rs:59-67 | When the input loop succeeds, it holds each input's output normalised to a vector, in input order. |
| GraphEval.EvalInputsOk | src/core.rs:73-82 | The input loop succeeds exactly when every input evaluates, and then holds each input's normalised output in order. |
| GraphEval.EvalFirstInputError | src/node.rs:59-60 | The first input that fails decides the node's result: its error. |
| GraphEval.EvalConstant | src/core.rs:84-94 | A number node whose inputs evaluate outputs itself. A vector node whose inputs evaluate outputs its elements collapsed. |
| GraphEval.LastWithById | src/core.rs:80 | An input's binding is overridden exactly when a later input has the same id. |
| GraphEval.BindingsById | src/node.rs:83-98 | A formula's context at a position binds "id" followed by each input's id, and nothing else. An input whose id no later input repeats is bound to its value at that position, or its last value once exhausted. |
| GraphEval.EvalFormula | src/core.rs:95-118 | A formula node whose inputs evaluate succeeds exactly when the broadcast length is positive and the formula evaluates at every position. It fails with no output or as a failed evaluation otherwise. On success it outputs the per-position values in order. |
| GraphEval.EvalFormulaWithoutInputs | src/core.rs:124-125 | A formula node without inputs fails with no output. |
| GraphEval.EvalQuery | src/node.rs:106 | A query node whose inputs evaluate fails: with no output when it has no inputs, and as unimplemented otherwise. |
| GraphEval.TestFormulaInputs | src/core.rs:215-220 | In the test tree, the formula node's inputs evaluate to the number and to the two-element vector. |
| GraphEval.TestFormulaFirst | src/core.rs:222-223 | The test's first formula, over a number and a two-element vector, is evaluated at two positions and outputs a two-element vector. |
| GraphEval.TestFormulaSecond | src/core.rs:225-230 | The test's second formula, over that vector, outputs a two-element vector. |
| GraphEval.TestFormula | src/node.rs:122-140 | With a formula evaluator that gives the test's values, the test tree is ranked. The first formula outputs the vector of its two results and the second formula the vector of its own two. |
| Owned.FromFormula | src/lib.rs:89-98 | Building a formula node fails exactly when the text does not parse, with "unable to parse expression". Otherwise it gives a node with id 0, no inputs and the parsed formula. |
| Owned.ComputeSpec | src/lib.rs:101-163 | A node that computes yields a canonical output. |
| Owned.ComputeInputs | src/lib.rs:138-143 | Every normalised input value is non-empty. |
| Owned.Compute | src/lib.rs:101-163 | `Node::compute` run imperatively returns the recursive specification of the node's value. |
| Owned.ComputeInputsSticky | src/lib.rs:107 | Once an input fails, the input loop fails with that error. |
| Owned.ComputeInputsOkIff | src/lib.rs:105-116 | The input loop succeeds exactly when every input computes. |
| Owned.ComputeInputsValues | src/lib.rs:106-115 | When the input loop succeeds, it holds each input's normalised output, in input order. |
| Owned.ComputeInputsOk | src/lib.rs:105-116 | The input loop succeeds exactly when every input computes, and then holds each input's normalised output in order. |
| Owned.ComputeFirstInputError | src/lib.rs:107 | The first input that fails decides the node's result: its error. |
| Owned.NoInputsAsEmpty | src/lib.rs:105 | A node without an input list computes exactly as the same node with an empty input list. |
| Owned.ComputeConstant | src/lib.rs:118-128 | A number node whose inputs compute outputs itself. A vector node whose inputs compute outputs its elements collapsed. |
| Owned.ComputeFormula | src/lib.rs:129-153 | A formula node whose inputs compute succeeds exactly when the broadcast length is positive and the formula evaluates at every position. It fails with no output or as a failed evaluation otherwise. On success it outputs the per-position values in order. |
| Owned.FreshFormulaHasNoOutput | src/lib.rs:158-159 | A node just built from a formula has no inputs and computes to the no-output error. |
| Owned.UnpackAll | src/lib.rs:55-58 | Unpacking a vector succeeds exactly when every element unpacks. It then gives the unpacked elements in order, and otherwise fails as "cannot unpack". |
| Owned.ToNumber | src/lib.rs:39-47 | Converting a vector to a number fails with "unable to convert vector to number". Converting a number succeeds exactly when its value unpacks. |
| Owned.ToNumbers | src/lib.rs:50-62 | Converting a number to a vector fails with "unable to convert number to vector". A vector converts exactly as its elements unpack, and the conversion keeps its length. |
| Owned.ConvertComputed | src/lib.rs:158-162 | For a computed output: a single value converts to a number exactly when it unpacks, and never to a vector. Two or more values never convert to a number, and convert to a vector exactly as their elements unpack. |
| Owned.ChainedFirstInputs | src/lib.rs:210-215 | In the test, the formula node's inputs compute to the number and to the two-element vector. |
| Owned.ChainedFirst | src/lib.rs:217-219 | The test's first formula outputs the vector of its two results. |
| Owned.ChainedSecond | src/lib.rs:221-227 | The test's second formula, whose input is the first formula node, outputs the vector of its two results. |
| Owned.ReadTwo | src/lib.rs:217-219 | A two-element output whose values unpack converts to the vector of the two unpacked values. |
| Owned.ChainedBroadcast | src/lib.rs:208-228 | With a formula evaluator that gives the test's values, both formula nodes compute to two-element vectors and convert to the unpacked pairs. |

## Left out

- Floating point is left out:
  - f64 arithmetic;
  - the rational conversions `f64_to_expression`, `vec_f64_to_expression`, `expression_to_f64` and `bigint_to_f64` (`src/lib.rs:166-202`);
  - the `TryFrom<f64>` and `TryFrom<Vec<f64>>` impls (`src/lib.rs:23-37`).

  Values are an abstract type. Unpacking is a partial parameter, and all of its errors are merged into one "cannot unpack" error.
- The formula parsers (evalexpr's `build_operator_tree`, savage's `Expression` parser) and the formula evaluators are parameters. Their grammar and arithmetic are not modelled.
- `from_float` and `from_float_vec` (`src/core.rs:43-57`, `src/node.rs:29-43`, `src/lib.rs:73-87`) are not separate functions. They only build an input-less constant node with id 0, and the model writes such nodes directly. The `src/lib.rs` versions can also fail in the float-to-rational conversion, which is left out with floating point.
- `Node::from_formula` of `src/core.rs:59-66` and `src/node.rs:45-52` panics when the text does not parse. The builder models that panic as the error `FormulaParsePanic`.
- The query kind (`todo!()` at `src/core.rs:120`, `src/node.rs:106`, `src/lib.rs:154`) panics when reached. The model turns the panic into the error `QueryNotImplemented`.
- Shared `Rc` handles and `RefCell` input lists are replaced by an arena of slots. Evaluation requires a ranking of the whole arena under which inputs rank below their consumers. This is stronger than the source needs. The source's re-entrant `borrow_mut` panics only on a cycle reachable from the node being evaluated, and it still evaluates a node while an unrelated cycle exists elsewhere in the tree. The model covers neither the panic nor nodes of an arena that contains any cycle.
- The arena keeps every node that was allocated. That includes a node that the as-written re-keying at `src/core.rs:165` drops from the map, which the source drops unless another node still holds it as an input. The model's slot counts are therefore counts of allocated nodes, not of the nodes the returned tree reaches (`GraphBuild.AsWrittenDropsNode`).
- `GraphEval.Eval` evaluates an input shared by several consumers once per use, as the source does. A shared input is one slot, so its input list is one list that every consumer sees, as through the shared handles. Only the `Rc` identity and the reference counts are left out.
- `src/database.rs` is not part of this model.
- The `usize` and `i32` ids are `int`. Ids are never computed with, so no overflow arises.
- `set_value` (`src/core.rs:111`, `src/node.rs:97`) fails only when a variable changes type. Every bound value is a float, so the model has no such error.
- The "indexing error" and "invalid node index" branches (`src/core.rs:98-102`, `src/node.rs:84-88`, `src/lib.rs:132-136`) are left out. The names and the values are pushed together, so both lists always have the same length (the `Ready` precondition), and those lookups cannot fail.
- The "empty value array" `expect` is left out for the same kind of reason. `GraphEval.EvalInputs` and `Owned.ComputeInputs` prove that every normalised input is non-empty.
- The `Tree`'s `HashMap` is a Dafny `map` from id to slot. The `Tree` has no evaluation entry point of its own, so the model evaluates slots.

## Findings

| source | as written | input that shows it | evidently intended | confidence | as-written member | corrected member |
|---|---|---|---|---|---|---|
| src/core.rs:165 | `Tree::new` puts each wired node back under `node.id`. `from_formula` (src/core.rs:59-66) sets that id to 0 for every node, so the first edge moves the consumer from its key to key 0. | The definitions and edges of `test_tree_new` (src/core.rs:178-211). The first edge re-keys node 2 under 0, and the second edge fails with "node not found". | Each node carries the id of its definition, so it goes back under the key it was taken from. | not executed | GraphBuild.BuildAsWritten, GraphBuild.AsWrittenRejectsTestTree | GraphBuild.BuildShape |
