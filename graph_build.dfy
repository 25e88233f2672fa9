/**
 * The graph builder (`Tree::new`) and the arena that stands for the
 * reference-counted nodes: every allocated node is a slot of `slots`, the
 * tree's hash map is `index` (key to slot), and a node's `inputs` are the
 * slots of the nodes pushed into its input list. Because inputs name slots,
 * a push into a node's list is seen by every consumer that holds that node,
 * as it is through the shared handles.
 */
module GraphBuild {
  import opened Outcomes
  import opened Broadcast

  /** One node definition of the transport form: `kind` 0 is a formula, whose text is `operation`. */
  datatype NodeDefinition = NodeDefinition(nodeId: nat, operation: string, kind: nat)

  /** One edge definition: the output of `inputId` is appended to the inputs of `nodeId`. */
  datatype EdgeDefinition = EdgeDefinition(nodeId: nat, inputId: nat)

  /** Why the builder failed. */
  datatype BuildError =
    | InvalidNodeType    // a kept definition has a kind other than 0
    | NodeNotFound       // an edge names a consumer that is not in the map
    | InputNodeNotFound  // an edge names an input that is not in the map once the consumer is taken out
    | FormulaParsePanic  // the formula text does not parse (the source unwraps the parse and aborts)

  /** One allocated node: its id, its kind and its ordered inputs, as slots of the arena. */
  datatype NodeRec<V, F> = NodeRec(id: int, kind: NodeKind<V, F>, inputs: seq<nat>)

  /** The nodes as allocated, and the tree's map from key to slot. */
  datatype Tree<V, F> = Tree(slots: seq<NodeRec<V, F>>, index: map<int, nat>)

  /** Every key and every input refers to an allocated slot. */
  predicate WellFormed<V, F>(t: Tree<V, F>) {
    && (forall k :: k in t.index ==> t.index[k] < |t.slots|)
    && (forall s, j :: 0 <= s < |t.slots| && 0 <= j < |t.slots[s].inputs| ==> t.slots[s].inputs[j] < |t.slots|)
  }

  /** Keys and slots correspond one to one, and each slot's node carries its own key as id. */
  predicate Keyed<V, F>(t: Tree<V, F>) {
    && (forall k :: k in t.index ==> t.index[k] < |t.slots| && t.slots[t.index[k]].id == k)
    && (forall s :: 0 <= s < |t.slots| ==> t.slots[s].id in t.index && t.index[t.slots[s].id] == s)
  }

  /** The ids the definitions mention. */
  function DefinedIds(defs: seq<NodeDefinition>): set<int> {
    set k | 0 <= k < |defs| :: defs[k].nodeId as int
  }

  /** Definition `k` is the first one with its id: the one the builder keeps. */
  predicate FirstDef(defs: seq<NodeDefinition>, k: int)
    requires 0 <= k < |defs|
  {
    forall j :: 0 <= j < k ==> defs[j].nodeId != defs[k].nodeId
  }

  /** A kept definition the builder accepts: a formula whose text parses. */
  predicate Acceptable<F>(d: NodeDefinition, parse: string -> Option<F>) {
    d.kind == 0 && parse(d.operation).Some?
  }

  /** Every kept definition is acceptable. */
  predicate DefsValid<F>(defs: seq<NodeDefinition>, parse: string -> Option<F>) {
    forall k :: 0 <= k < |defs| && FirstDef(defs, k) ==> Acceptable(defs[k], parse)
  }

  /**
   * One round of the definition loop. A known id is skipped before its kind is
   * looked at. `stampIds` says whether the new node carries the definition's id;
   * as written, `from_formula` gives every node the id 0.
   */
  function AddDef<V, F>(t: Tree<V, F>, d: NodeDefinition, parse: string -> Option<F>, stampIds: bool): (r: Result<Tree<V, F>, BuildError>)
    ensures d.nodeId in t.index ==> r == Ok(t)
    ensures r.Err? <==> d.nodeId !in t.index && !Acceptable(d, parse)
    ensures r.Err? ==> r.error == if d.kind != 0 then InvalidNodeType else FormulaParsePanic
  {
    if d.nodeId in t.index then Ok(t)
    else if d.kind != 0 then Err(InvalidNodeType)
    else
      match parse(d.operation)
      case None => Err(FormulaParsePanic)
      case Some(f) =>
        Ok(Tree(t.slots + [NodeRec(if stampIds then d.nodeId else 0, Formula(f), [])], t.index[d.nodeId := |t.slots|]))
  }

  /**
   * What the definition loop builds over the ids `ids`: one input-less formula
   * node per key, each carrying a defined id when ids are stamped and 0 otherwise.
   */
  predicate LoadShape<V, F>(t: Tree<V, F>, ids: set<int>, stampIds: bool) {
    && WellFormed(t)
    && t.index.Keys == ids && |t.slots| == |t.index|
    && forall s :: 0 <= s < |t.slots| ==>
         && t.slots[s].inputs == [] && t.slots[s].kind.Formula?
         && (if stampIds then t.slots[s].id in ids else t.slots[s].id == 0)
  }

  /** The ids of a definition list grow by the id of each appended definition. */
  lemma DefinedIdsSnoc(defs: seq<NodeDefinition>, d: NodeDefinition)
    ensures DefinedIds(defs + [d]) == DefinedIds(defs) + {d.nodeId as int}
  {
    var all := defs + [d];
    assert forall k :: 0 <= k < |defs| ==> all[k] == defs[k];
    assert all[|defs|] == d;
  }

  /** One round of the definition loop keeps the loop's shape. */
  lemma AddDefShape<V, F>(t: Tree<V, F>, ids: set<int>, d: NodeDefinition, parse: string -> Option<F>, stampIds: bool)
    requires LoadShape(t, ids, stampIds)
    ensures AddDef(t, d, parse, stampIds).Ok? ==> LoadShape(AddDef(t, d, parse, stampIds).value, ids + {d.nodeId as int}, stampIds)
  {
    if d.nodeId !in t.index && Acceptable(d, parse) {
      var t' := AddDef(t, d, parse, stampIds).value;
      assert |t'.index| == |t.index| + 1;
      forall s | 0 <= s < |t'.slots|
        ensures t'.slots[s].inputs == [] && t'.slots[s].kind.Formula?
        ensures if stampIds then t'.slots[s].id in ids + {d.nodeId as int} else t'.slots[s].id == 0
      {
        if s < |t.slots| {
          assert t'.slots[s] == t.slots[s];
        }
      }
    }
  }

  /** The definition loop over `defs`, in order, stopping at the first error. */
  function LoadNodes<V, F>(defs: seq<NodeDefinition>, parse: string -> Option<F>, stampIds: bool): (r: Result<Tree<V, F>, BuildError>)
    ensures r.Ok? ==> LoadShape(r.value, DefinedIds(defs), stampIds)
  {
    if |defs| == 0 then Ok(Tree([], map[]))
    else
      var n := |defs| - 1;
      match LoadNodes(defs[..n], parse, stampIds)
      case Err(e) => Err(e)
      case Ok(t) =>
        DefinedIdsSnoc(defs[..n], defs[n]);
        assert defs[..n] + [defs[n]] == defs;
        AddDefShape(t, DefinedIds(defs[..n]), defs[n], parse, stampIds);
        AddDef(t, defs[n], parse, stampIds)
  }

  /**
   * One round of the edge loop: take the consumer out of the map, look the
   * input up in what remains, push it, and put the consumer back under its
   * own id.
   */
  function AddEdge<V, F>(t: Tree<V, F>, e: EdgeDefinition): (r: Result<Tree<V, F>, BuildError>)
    requires WellFormed(t)
    ensures r.Ok? ==> WellFormed(r.value)
    ensures r.Err? <==> e.nodeId !in t.index || e.inputId == e.nodeId || e.inputId !in t.index
    ensures r.Err? ==> r.error == if e.nodeId !in t.index then NodeNotFound else InputNodeNotFound
    ensures r.Ok? ==> |r.value.slots| == |t.slots|
    ensures r.Ok? ==> forall s :: 0 <= s < |t.slots| ==> r.value.slots[s].id == t.slots[s].id && r.value.slots[s].kind == t.slots[s].kind
  {
    if e.nodeId !in t.index then Err(NodeNotFound)
    else
      var s := t.index[e.nodeId];
      var rest := t.index - {e.nodeId as int};
      if e.inputId !in rest then Err(InputNodeNotFound)
      else
        var node := t.slots[s];
        Ok(Tree(t.slots[s := node.(inputs := node.inputs + [rest[e.inputId]])], rest[node.id := s]))
  }

  /** The edge loop over `edges`, in order, stopping at the first error. */
  function Wire<V, F>(t: Tree<V, F>, edges: seq<EdgeDefinition>): (r: Result<Tree<V, F>, BuildError>)
    requires WellFormed(t)
    ensures r.Ok? ==> WellFormed(r.value) && |r.value.slots| == |t.slots|
    ensures r.Ok? ==> forall s :: 0 <= s < |t.slots| ==> r.value.slots[s].id == t.slots[s].id && r.value.slots[s].kind == t.slots[s].kind
  {
    if |edges| == 0 then Ok(t)
    else
      match Wire(t, edges[..|edges| - 1])
      case Err(e) => Err(e)
      case Ok(t') => AddEdge(t', edges[|edges| - 1])
  }

  /**
   * A successful edge appends the input's slot to the consumer's input list,
   * leaves every other list alone, and puts the consumer back under the id it
   * carries, which is not the key it was taken from when the two differ.
   */
  lemma AddEdgeRekeys<V, F>(t: Tree<V, F>, e: EdgeDefinition)
    requires WellFormed(t) && AddEdge(t, e).Ok?
    ensures var r := AddEdge(t, e).value; var s := t.index[e.nodeId];
      && (forall s' :: 0 <= s' < |t.slots| && s' != s ==> r.slots[s'].inputs == t.slots[s'].inputs)
      && r.slots[s].inputs == t.slots[s].inputs + [t.index[e.inputId]]
      && r.index == (t.index - {e.nodeId as int})[t.slots[s].id := s]
      && (t.slots[s].id != e.nodeId ==> e.nodeId !in r.index || r.index[e.nodeId] != s)
  {
  }

  /** The ids the allocated nodes carry. */
  function SlotIds<V, F>(t: Tree<V, F>): set<int> {
    set s | 0 <= s < |t.slots| :: t.slots[s].id
  }

  /**
   * The edge loop only takes keys out of the map and puts nodes back under
   * the ids they carry, so every key it leaves was a key before or is the id
   * of an allocated node.
   */
  lemma {:induction false} WireKeys<V, F>(t: Tree<V, F>, edges: seq<EdgeDefinition>)
    requires WellFormed(t)
    ensures Wire(t, edges).Ok? ==> Wire(t, edges).value.index.Keys <= t.index.Keys + SlotIds(t)
    decreases |edges|
  {
    if |edges| > 0 && Wire(t, edges).Ok? {
      var n := |edges| - 1;
      WireKeys(t, edges[..n]);
      var t' := Wire(t, edges[..n]).value;
      var s := t'.index[edges[n].nodeId];
      assert t'.slots[s].id in SlotIds(t) by {
        assert t'.slots[s].id == t.slots[s].id;
      }
      assert AddEdge(t', edges[n]).value.index.Keys <= t'.index.Keys + {t'.slots[s].id};
    }
  }

  /**
   * `Tree::new` as written: nodes keep the id 0 that `from_formula` gives them,
   * so the map it returns holds defined ids and possibly the key 0, under which
   * every wired node is put back.
   */
  function BuildAsWritten<V, F>(defs: seq<NodeDefinition>, edges: seq<EdgeDefinition>, parse: string -> Option<F>): (r: Result<Tree<V, F>, BuildError>)
    ensures r.Ok? ==> WellFormed(r.value) && |r.value.slots| == |DefinedIds(defs)|
    ensures r.Ok? ==> forall s :: 0 <= s < |r.value.slots| ==> r.value.slots[s].id == 0 && r.value.slots[s].kind.Formula?
    ensures r.Ok? ==> r.value.index.Keys <= DefinedIds(defs) + {0}
  {
    match LoadNodes(defs, parse, false)
    case Err(e) => Err(e)
    case Ok(t) =>
      WireKeys(t, edges);
      assert SlotIds(t) <= {0};
      Wire(t, edges)
  }

  /** `Tree::new` with each node given the id of its definition. */
  function BuildSpec<V, F>(defs: seq<NodeDefinition>, edges: seq<EdgeDefinition>, parse: string -> Option<F>): (r: Result<Tree<V, F>, BuildError>)
    ensures r.Ok? ==> WellFormed(r.value) && |r.value.slots| == |DefinedIds(defs)|
    ensures r.Ok? ==> forall s :: 0 <= s < |r.value.slots| ==> r.value.slots[s].id in DefinedIds(defs) && r.value.slots[s].kind.Formula?
  {
    match LoadNodes(defs, parse, true)
    case Err(e) => Err(e)
    case Ok(t) => Wire(t, edges)
  }

  /** The edges can be wired into a tree whose keys are `keys`: both ends known, and not a self-edge. */
  predicate GoodEdge(keys: set<int>, e: EdgeDefinition) {
    e.nodeId in keys && e.inputId in keys && e.nodeId != e.inputId
  }

  /** The input ids of the edges whose consumer is `k`, in edge order. */
  function InputIds(edges: seq<EdgeDefinition>, k: int): seq<int> {
    if |edges| == 0 then []
    else
      var n := |edges| - 1;
      InputIds(edges[..n], k) + (if edges[n].nodeId == k then [edges[n].inputId as int] else [])
  }

  /** `after` is `before` followed by the slots that `index` gives the ids `ids`. */
  predicate Appended(index: map<int, nat>, before: seq<nat>, after: seq<nat>, ids: seq<int>) {
    && |after| == |before| + |ids|
    && after[..|before|] == before
    && forall m :: 0 <= m < |ids| ==> ids[m] in index && after[|before| + m] == index[ids[m]]
  }

  /** Once a round of the definition loop fails, the loop fails with that error. */
  lemma {:induction false} LoadNodesSticky<V, F>(defs: seq<NodeDefinition>, i: nat, parse: string -> Option<F>, stampIds: bool)
    requires i <= |defs|
    requires LoadNodes<V, F>(defs[..i], parse, stampIds).Err?
    ensures LoadNodes<V, F>(defs, parse, stampIds) == LoadNodes<V, F>(defs[..i], parse, stampIds)
    decreases |defs|
  {
    if i < |defs| {
      var n := |defs| - 1;
      assert defs[..n][..i] == defs[..i];
      LoadNodesSticky<V, F>(defs[..n], i, parse, stampIds);
    } else {
      assert defs[..i] == defs;
    }
  }

  /** What the definition loop has built from `defs`, ids stamped: one input-less formula node per defined id. */
  ghost predicate Loaded<V, F>(t: Tree<V, F>, defs: seq<NodeDefinition>, parse: string -> Option<F>) {
    && Keyed(t)
    && t.index.Keys == DefinedIds(defs)
    && (forall s :: 0 <= s < |t.slots| ==> t.slots[s].inputs == [])
    && forall k :: 0 <= k < |defs| && FirstDef(defs, k) ==>
         && t.index[defs[k].nodeId] < |t.slots|
         && t.slots[t.index[defs[k].nodeId]].kind.Formula?
         && parse(defs[k].operation) == Some(t.slots[t.index[defs[k].nodeId]].kind.formula)
  }

  /** Appending a definition: it is kept exactly when no earlier definition has its id. */
  lemma FirstDefSnoc(defs: seq<NodeDefinition>, d: NodeDefinition)
    ensures FirstDef(defs + [d], |defs|) <==> d.nodeId !in DefinedIds(defs)
    ensures forall k :: 0 <= k < |defs| ==> (FirstDef(defs + [d], k) <==> FirstDef(defs, k))
    ensures DefinedIds(defs + [d]) == DefinedIds(defs) + {d.nodeId as int}
  {
    var all := defs + [d];
    assert forall k :: 0 <= k < |defs| ==> all[k] == defs[k];
    if d.nodeId in DefinedIds(defs) {
      var k :| 0 <= k < |defs| && defs[k].nodeId == d.nodeId;
      assert all[k].nodeId == all[|defs|].nodeId;
    }
    assert DefinedIds(all) == DefinedIds(defs) + {d.nodeId as int} by {
      forall x | x in DefinedIds(all) ensures x in DefinedIds(defs) + {d.nodeId as int} {
        var k :| 0 <= k < |all| && all[k].nodeId == x;
        if k < |defs| { assert defs[k].nodeId == x; }
      }
      forall x | x in DefinedIds(defs) ensures x in DefinedIds(all) {
        var k :| 0 <= k < |defs| && defs[k].nodeId == x;
        assert all[k].nodeId == x;
      }
      assert all[|defs|] == d;
    }
  }

  /** A definition whose id is already in the map leaves the tree as it is. */
  lemma LoadStepSkip<V, F>(t: Tree<V, F>, defs: seq<NodeDefinition>, d: NodeDefinition, parse: string -> Option<F>)
    requires Loaded(t, defs, parse) && d.nodeId in t.index
    ensures Loaded(t, defs + [d], parse)
  {
    FirstDefSnoc(defs, d);
    var all := defs + [d];
    forall k | 0 <= k < |all| && FirstDef(all, k)
      ensures t.index[all[k].nodeId] < |t.slots| && t.slots[t.index[all[k].nodeId]].kind.Formula?
      ensures parse(all[k].operation) == Some(t.slots[t.index[all[k].nodeId]].kind.formula)
    {
      assert k < |defs|;
      assert all[k] == defs[k] && FirstDef(defs, k);
    }
  }

  /** A definition with a new id and an acceptable formula adds one node, keyed by that id. */
  lemma LoadStepNew<V, F>(t: Tree<V, F>, defs: seq<NodeDefinition>, d: NodeDefinition, parse: string -> Option<F>)
    requires Loaded(t, defs, parse) && d.nodeId !in t.index && Acceptable(d, parse)
    ensures AddDef(t, d, parse, true).Ok? && Loaded(AddDef(t, d, parse, true).value, defs + [d], parse)
  {
    FirstDefSnoc(defs, d);
    var all := defs + [d];
    var node := NodeRec(d.nodeId, Formula(parse(d.operation).value), []);
    var t' := Tree(t.slots + [node], t.index[d.nodeId := |t.slots|]);
    assert AddDef(t, d, parse, true) == Ok(t');
    assert Keyed(t') by {
      forall s | 0 <= s < |t'.slots| ensures t'.slots[s].id in t'.index && t'.index[t'.slots[s].id] == s {
        if s < |t.slots| {
          assert t'.slots[s] == t.slots[s];
        }
      }
    }
    forall k | 0 <= k < |all| && FirstDef(all, k)
      ensures t'.index[all[k].nodeId] < |t'.slots| && t'.slots[t'.index[all[k].nodeId]].kind.Formula?
      ensures parse(all[k].operation) == Some(t'.slots[t'.index[all[k].nodeId]].kind.formula)
    {
      if k < |defs| {
        assert all[k] == defs[k] && FirstDef(defs, k);
        assert all[k].nodeId in DefinedIds(defs);
      }
    }
  }

  /** One round of the definition loop keeps the loop's invariant, and fails only on a new, unacceptable definition. */
  lemma LoadStep<V, F>(t: Tree<V, F>, defs: seq<NodeDefinition>, d: NodeDefinition, parse: string -> Option<F>)
    requires Loaded(t, defs, parse)
    ensures var r := AddDef(t, d, parse, true);
      && (r.Ok? <==> d.nodeId in DefinedIds(defs) || Acceptable(d, parse))
      && (r.Err? ==> r.error == if d.kind != 0 then InvalidNodeType else FormulaParsePanic)
      && (r.Ok? ==> Loaded(r.value, defs + [d], parse))
  {
    if d.nodeId in t.index {
      LoadStepSkip(t, defs, d, parse);
    } else if Acceptable(d, parse) {
      LoadStepNew(t, defs, d, parse);
    }
  }

  /** Appending a definition keeps the definitions valid exactly when it is skipped or acceptable. */
  lemma DefsValidSnoc<F>(defs: seq<NodeDefinition>, d: NodeDefinition, parse: string -> Option<F>)
    ensures DefsValid(defs + [d], parse) <==> DefsValid(defs, parse) && (d.nodeId in DefinedIds(defs) || Acceptable(d, parse))
  {
    FirstDefSnoc(defs, d);
    var all := defs + [d];
    assert forall k :: 0 <= k < |defs| ==> all[k] == defs[k];
    assert all[|defs|] == d;
  }

  /** The definition loop, ids stamped, succeeds exactly when every kept definition is acceptable. */
  lemma {:induction false} LoadNodesSpec<V, F>(defs: seq<NodeDefinition>, parse: string -> Option<F>)
    ensures var r := LoadNodes<V, F>(defs, parse, true);
      && (r.Ok? <==> DefsValid(defs, parse))
      && (r.Ok? ==> Loaded(r.value, defs, parse))
  {
    if |defs| > 0 {
      var n := |defs| - 1;
      var prefix := defs[..n];
      assert defs == prefix + [defs[n]];
      LoadNodesSpec<V, F>(prefix, parse);
      DefsValidSnoc(prefix, defs[n], parse);
      var pr := LoadNodes<V, F>(prefix, parse, true);
      if pr.Ok? {
        LoadStep(pr.value, prefix, defs[n], parse);
      }
    } else {
      var empty: Tree<V, F> := Tree([], map[]);
      assert Loaded(empty, defs, parse);
    }
  }

  /** Adding one edge to the edge list extends the input ids of its consumer only. */
  lemma {:induction false} InputIdsSnoc(edges: seq<EdgeDefinition>, e: EdgeDefinition, k: int)
    ensures InputIds(edges + [e], k) == InputIds(edges, k) + (if e.nodeId == k then [e.inputId as int] else [])
  {
    assert (edges + [e])[..|edges|] == edges;
  }

  /**
   * What the edge loop has made of `t0` after `edges`: the same keys and nodes,
   * each node's input list extended by the slots of its edges' inputs, in edge order.
   */
  ghost predicate Wired<V, F>(t0: Tree<V, F>, t: Tree<V, F>, edges: seq<EdgeDefinition>) {
    && t.index == t0.index
    && |t.slots| == |t0.slots|
    && Keyed(t)
    && forall k :: k in t0.index ==>
         && t0.index[k] < |t0.slots|
         && t.slots[t0.index[k]].id == t0.slots[t0.index[k]].id
         && t.slots[t0.index[k]].kind == t0.slots[t0.index[k]].kind
         && Appended(t0.index, t0.slots[t0.index[k]].inputs, t.slots[t0.index[k]].inputs, InputIds(edges, k))
  }

  /** The edge loop before any edge. */
  lemma {:induction false} WiredStart<V, F>(t0: Tree<V, F>)
    requires Keyed(t0)
    ensures Wired(t0, t0, [])
  {
    forall k | k in t0.index
      ensures Appended(t0.index, t0.slots[t0.index[k]].inputs, t0.slots[t0.index[k]].inputs, InputIds([], k))
    {
      var ins := t0.slots[t0.index[k]].inputs;
      assert ins[..|ins|] == ins;
    }
  }

  /** Replacing a node by one with the same id keeps the map from ids to slots a bijection. */
  lemma {:induction false} ReplaceKeepsKeyed<V, F>(t: Tree<V, F>, s: nat, node: NodeRec<V, F>)
    requires Keyed(t) && s < |t.slots| && node.id == t.slots[s].id
    ensures Keyed(Tree(t.slots[s := node], t.index))
  {
    var t' := Tree(t.slots[s := node], t.index);
    forall k | k in t'.index
      ensures t'.index[k] < |t'.slots| && t'.slots[t'.index[k]].id == k
    {
      assert t.slots[t.index[k]].id == k;
    }
    forall s' | 0 <= s' < |t'.slots|
      ensures t'.slots[s'].id in t'.index && t'.index[t'.slots[s'].id] == s'
    {
      assert t'.slots[s'].id == t.slots[s'].id;
    }
  }

  /** A good edge appends its input's slot to its consumer and puts the consumer back under its own key. */
  lemma {:induction false} WireStepGood<V, F>(t0: Tree<V, F>, t: Tree<V, F>, edges: seq<EdgeDefinition>, e: EdgeDefinition)
    requires Keyed(t0) && WellFormed(t) && Wired(t0, t, edges) && GoodEdge(t0.index.Keys, e)
    ensures AddEdge(t, e).Ok? && Wired(t0, AddEdge(t, e).value, edges + [e])
  {
    var s := t.index[e.nodeId];
    var rest := t.index - {e.nodeId as int};
    var node := t.slots[s];
    assert node.id == e.nodeId;
    var x := rest[e.inputId];
    assert x == t0.index[e.inputId];
    var node' := node.(inputs := node.inputs + [x]);
    var t' := Tree(t.slots[s := node'], rest[node.id := s]);
    assert AddEdge(t, e) == Ok(t');
    assert t'.index == t.index;
    ReplaceKeepsKeyed(t, s, node');
    forall k | k in t0.index
      ensures && t'.slots[t0.index[k]].id == t0.slots[t0.index[k]].id
              && t'.slots[t0.index[k]].kind == t0.slots[t0.index[k]].kind
              && Appended(t0.index, t0.slots[t0.index[k]].inputs, t'.slots[t0.index[k]].inputs, InputIds(edges + [e], k))
    {
      InputIdsSnoc(edges, e, k);
      var sk := t0.index[k];
      if k == e.nodeId {
        assert sk == s;
        var before := t0.slots[sk].inputs;
        var after := t.slots[sk].inputs;
        assert Appended(t0.index, before, after, InputIds(edges, k));
        assert (after + [x])[..|before|] == after[..|before|];
      } else {
        assert sk != s by {
          assert t.slots[sk].id == k;
        }
      }
    }
  }

  /**
   * One round of the edge loop: it fails exactly on an edge that is not good,
   * with "node not found" when the consumer is unknown and "input node not
   * found" otherwise (an unknown input, or the consumer itself, which has just
   * been taken out of the map).
   */
  lemma WireStep<V, F>(t0: Tree<V, F>, t: Tree<V, F>, edges: seq<EdgeDefinition>, e: EdgeDefinition)
    requires Keyed(t0) && WellFormed(t) && Wired(t0, t, edges)
    ensures var r := AddEdge(t, e);
      && (r.Ok? <==> GoodEdge(t0.index.Keys, e))
      && (r.Err? ==> r.error == if e.nodeId !in t0.index then NodeNotFound else InputNodeNotFound)
      && (r.Ok? ==> Wired(t0, r.value, edges + [e]))
  {
    if GoodEdge(t0.index.Keys, e) {
      WireStepGood(t0, t, edges, e);
    }
  }

  /** The edge loop on a keyed tree succeeds exactly when every edge is good, and then wires every edge. */
  lemma {:induction false} WireSpec<V, F>(t0: Tree<V, F>, edges: seq<EdgeDefinition>)
    requires Keyed(t0) && WellFormed(t0)
    ensures var r := Wire(t0, edges);
      && (r.Ok? <==> forall j :: 0 <= j < |edges| ==> GoodEdge(t0.index.Keys, edges[j]))
      && (r.Ok? ==> Wired(t0, r.value, edges))
  {
    if |edges| == 0 {
      WiredStart(t0);
    } else {
      var n := |edges| - 1;
      var prefix := edges[..n];
      assert edges == prefix + [edges[n]];
      WireSpec(t0, prefix);
      assert forall j :: 0 <= j < n ==> prefix[j] == edges[j];
      var pr := Wire(t0, prefix);
      if pr.Ok? {
        WireStep(t0, pr.value, prefix, edges[n]);
      } else {
        var j :| 0 <= j < n && !GoodEdge(t0.index.Keys, prefix[j]);
        assert !GoodEdge(t0.index.Keys, edges[j]);
      }
    }
  }

  /** Once a round of the edge loop fails, the loop fails with that error. */
  lemma {:induction false} WireSticky<V, F>(t: Tree<V, F>, edges: seq<EdgeDefinition>, i: nat)
    requires WellFormed(t) && i <= |edges|
    requires Wire(t, edges[..i]).Err?
    ensures Wire(t, edges) == Wire(t, edges[..i])
    decreases |edges|
  {
    if i < |edges| {
      var n := |edges| - 1;
      assert edges[..n][..i] == edges[..i];
      WireSticky(t, edges[..n], i);
    } else {
      assert edges[..i] == edges;
    }
  }

  /** The first edge that is not good decides the edge loop's error. */
  lemma WireFirstBad<V, F>(t0: Tree<V, F>, edges: seq<EdgeDefinition>, j: nat)
    requires Keyed(t0) && WellFormed(t0) && j < |edges|
    requires forall i :: 0 <= i < j ==> GoodEdge(t0.index.Keys, edges[i])
    requires !GoodEdge(t0.index.Keys, edges[j])
    ensures Wire(t0, edges) == Err(if edges[j].nodeId !in t0.index then NodeNotFound else InputNodeNotFound)
  {
    var prefix := edges[..j];
    WireSpec(t0, prefix);
    var t := Wire(t0, prefix).value;
    WireStep(t0, t, prefix, edges[j]);
    assert edges[..j + 1][..j] == prefix;
    assert Wire(t0, edges[..j + 1]) == AddEdge(t, edges[j]);
    WireSticky(t0, edges, j + 1);
  }

  /** When every kept definition before `k` is acceptable, the first `k` definitions are valid on their own. */
  lemma {:induction false} PrefixValid<F>(defs: seq<NodeDefinition>, k: nat, parse: string -> Option<F>)
    requires k <= |defs|
    requires forall j :: 0 <= j < k && FirstDef(defs, j) ==> Acceptable(defs[j], parse)
    ensures DefsValid(defs[..k], parse)
  {
    var prefix := defs[..k];
    forall j | 0 <= j < k && FirstDef(prefix, j)
      ensures Acceptable(prefix[j], parse)
    {
      assert FirstDef(defs, j) by {
        forall i | 0 <= i < j
          ensures defs[i].nodeId != defs[j].nodeId
        {
          assert prefix[i] == defs[i] && prefix[j] == defs[j];
        }
      }
    }
  }

  /**
   * A kept definition that is not a formula fails the build with "Invalid node
   * type" (one whose text does not parse aborts it), when every kept
   * definition before it is acceptable, whatever the edges.
   */
  lemma BuildRejectsDefinition<V, F>(defs: seq<NodeDefinition>, edges: seq<EdgeDefinition>, parse: string -> Option<F>, k: nat)
    requires k < |defs| && FirstDef(defs, k) && !Acceptable(defs[k], parse)
    requires forall j :: 0 <= j < k && FirstDef(defs, j) ==> Acceptable(defs[j], parse)
    ensures BuildSpec<V, F>(defs, edges, parse) == Err(if defs[k].kind != 0 then InvalidNodeType else FormulaParsePanic)
  {
    LoadRejectsDefinition<V, F>(defs, parse, k);
  }

  /** The stamped definition loop fails on the first kept definition that is not acceptable. */
  lemma LoadRejectsDefinition<V, F>(defs: seq<NodeDefinition>, parse: string -> Option<F>, k: nat)
    requires k < |defs| && FirstDef(defs, k) && !Acceptable(defs[k], parse)
    requires forall j :: 0 <= j < k && FirstDef(defs, j) ==> Acceptable(defs[j], parse)
    ensures LoadNodes<V, F>(defs, parse, true) == Err(if defs[k].kind != 0 then InvalidNodeType else FormulaParsePanic)
  {
    LoadFailsAt<V, F>(defs, parse, k);
    LoadNodesSticky<V, F>(defs, k + 1, parse, true);
  }

  /** The stamped definition loop, stopped just after that definition, has failed with its error. */
  lemma LoadFailsAt<V, F>(defs: seq<NodeDefinition>, parse: string -> Option<F>, k: nat)
    requires k < |defs| && FirstDef(defs, k) && !Acceptable(defs[k], parse)
    requires forall j :: 0 <= j < k && FirstDef(defs, j) ==> Acceptable(defs[j], parse)
    ensures LoadNodes<V, F>(defs[..k + 1], parse, true) == Err(if defs[k].kind != 0 then InvalidNodeType else FormulaParsePanic)
  {
    var prefix := defs[..k];
    PrefixValid(defs, k, parse);
    assert defs[k].nodeId !in DefinedIds(prefix);
    LoadNodesSpec<V, F>(prefix, parse);
    assert defs[..k + 1][..k] == prefix && defs[..k + 1][k] == defs[k];
  }

  /**
   * Ids play no part in the definition loop's decisions: with and without
   * stamping it succeeds on the same definitions, fails with the same error,
   * and builds the same map.
   */
  lemma {:induction false} LoadNodesAgree<V, F>(defs: seq<NodeDefinition>, parse: string -> Option<F>)
    ensures LoadNodes<V, F>(defs, parse, false).Ok? == LoadNodes<V, F>(defs, parse, true).Ok?
    ensures LoadNodes<V, F>(defs, parse, false).Err? ==>
      LoadNodes<V, F>(defs, parse, false).error == LoadNodes<V, F>(defs, parse, true).error
    ensures LoadNodes<V, F>(defs, parse, false).Ok? ==>
      LoadNodes<V, F>(defs, parse, false).value.index == LoadNodes<V, F>(defs, parse, true).value.index
    decreases |defs|
  {
    if |defs| > 0 {
      LoadNodesAgree<V, F>(defs[..|defs| - 1], parse);
    }
  }

  /**
   * As written, too, a kept definition that is not a formula fails the build
   * with "Invalid node type" (one whose text does not parse aborts it), when
   * every kept definition before it is acceptable, whatever the edges.
   */
  lemma AsWrittenRejectsDefinition<V, F>(defs: seq<NodeDefinition>, edges: seq<EdgeDefinition>, parse: string -> Option<F>, k: nat)
    requires k < |defs| && FirstDef(defs, k) && !Acceptable(defs[k], parse)
    requires forall j :: 0 <= j < k && FirstDef(defs, j) ==> Acceptable(defs[j], parse)
    ensures BuildAsWritten<V, F>(defs, edges, parse) == Err(if defs[k].kind != 0 then InvalidNodeType else FormulaParsePanic)
  {
    LoadRejectsDefinition<V, F>(defs, parse, k);
    LoadNodesAgree<V, F>(defs, parse);
  }

  /** As written, too, a definition whose id is already defined changes nothing, whatever its kind or text. */
  lemma AsWrittenIgnoresDuplicate<V, F>(defs: seq<NodeDefinition>, d: NodeDefinition, edges: seq<EdgeDefinition>, parse: string -> Option<F>)
    requires d.nodeId in DefinedIds(defs)
    ensures BuildAsWritten<V, F>(defs + [d], edges, parse) == BuildAsWritten<V, F>(defs, edges, parse)
  {
    assert (defs + [d])[..|defs|] == defs;
  }

  /** A definition whose id is already defined changes nothing, whatever its kind or text. */
  lemma BuildIgnoresDuplicate<V, F>(defs: seq<NodeDefinition>, d: NodeDefinition, edges: seq<EdgeDefinition>, parse: string -> Option<F>)
    requires d.nodeId in DefinedIds(defs)
    ensures BuildSpec<V, F>(defs + [d], edges, parse) == BuildSpec<V, F>(defs, edges, parse)
  {
    assert (defs + [d])[..|defs|] == defs;
    LoadNodesSpec<V, F>(defs, parse);
  }

  /**
   * With acceptable definitions, the first edge that is not good fails the
   * build: "node not found" when its consumer is not defined, "input node
   * not found" when its input is not defined or is the consumer itself.
   */
  lemma BuildRejectsEdge<V, F>(defs: seq<NodeDefinition>, edges: seq<EdgeDefinition>, parse: string -> Option<F>, j: nat)
    requires DefsValid(defs, parse) && j < |edges|
    requires forall i :: 0 <= i < j ==> GoodEdge(DefinedIds(defs), edges[i])
    requires !GoodEdge(DefinedIds(defs), edges[j])
    ensures BuildSpec<V, F>(defs, edges, parse) == Err(if edges[j].nodeId !in DefinedIds(defs) then NodeNotFound else InputNodeNotFound)
  {
    LoadNodesSpec<V, F>(defs, parse);
    WireFirstBad(LoadNodes<V, F>(defs, parse, true).value, edges, j);
  }

  /** A self-edge on a defined node fails with "input node not found", once the edges before it are good. */
  lemma BuildRejectsSelfEdge<V, F>(defs: seq<NodeDefinition>, edges: seq<EdgeDefinition>, parse: string -> Option<F>, j: nat)
    requires DefsValid(defs, parse) && j < |edges|
    requires forall i :: 0 <= i < j ==> GoodEdge(DefinedIds(defs), edges[i])
    requires edges[j].nodeId == edges[j].inputId && edges[j].nodeId in DefinedIds(defs)
    ensures BuildSpec<V, F>(defs, edges, parse) == Err(InputNodeNotFound)
  {
    BuildRejectsEdge<V, F>(defs, edges, parse, j);
  }

  /**
   * The build succeeds exactly when every kept definition is acceptable and
   * every edge is good. Its tree then has one key per defined id, and the node
   * under each key carries that id, the formula of the id's first definition,
   * and as inputs the nodes named by the edges into it, in edge order.
   */
  lemma BuildShape<V, F>(defs: seq<NodeDefinition>, edges: seq<EdgeDefinition>, parse: string -> Option<F>)
    ensures var r := BuildSpec<V, F>(defs, edges, parse);
      && (r.Ok? <==> DefsValid(defs, parse) && forall j :: 0 <= j < |edges| ==> GoodEdge(DefinedIds(defs), edges[j]))
      && (r.Ok? ==> r.value.index.Keys == DefinedIds(defs) && Keyed(r.value) && WellFormed(r.value))
      && (r.Ok? ==> forall k :: 0 <= k < |defs| && FirstDef(defs, k) ==>
            && defs[k].nodeId in r.value.index
            && var node := r.value.slots[r.value.index[defs[k].nodeId]];
            && node.id == defs[k].nodeId
            && node.kind.Formula? && parse(defs[k].operation) == Some(node.kind.formula)
            && Appended(r.value.index, [], node.inputs, InputIds(edges, defs[k].nodeId)))
  {
    LoadNodesSpec<V, F>(defs, parse);
    var l := LoadNodes<V, F>(defs, parse, true);
    if l.Ok? {
      var t0 := l.value;
      WireSpec(t0, edges);
      var r := Wire(t0, edges);
      if r.Ok? {
        forall k | 0 <= k < |defs| && FirstDef(defs, k)
          ensures defs[k].nodeId in r.value.index
        {
          assert defs[k].nodeId as int in DefinedIds(defs);
        }
      }
    }
  }

  /** `Tree::new`: the definition loop, then the edge loop, each node given the id of its definition. */
  method TreeNew<V, F>(defs: seq<NodeDefinition>, edges: seq<EdgeDefinition>, parse: string -> Option<F>)
    returns (r: Result<Tree<V, F>, BuildError>)
    ensures r == BuildSpec(defs, edges, parse)
  {
    var slots: seq<NodeRec<V, F>> := [];
    var index: map<int, nat> := map[];
    for i := 0 to |defs|
      invariant LoadNodes<V, F>(defs[..i], parse, true) == Ok(Tree(slots, index))
    {
      var d := defs[i];
      assert defs[..i + 1][..i] == defs[..i];
      if d.nodeId !in index {
        if d.kind != 0 {
          LoadNodesSticky<V, F>(defs, i + 1, parse, true);
          return Err(InvalidNodeType);
        }
        var formula := parse(d.operation);
        if formula.None? {
          LoadNodesSticky<V, F>(defs, i + 1, parse, true);
          return Err(FormulaParsePanic);
        }
        index := index[d.nodeId := |slots|];
        slots := slots + [NodeRec(d.nodeId, Formula(formula.value), [])];
      }
    }
    assert defs[..|defs|] == defs;
    ghost var loaded := Tree(slots, index);
    for i := 0 to |edges|
      invariant Wire(loaded, edges[..i]) == Ok(Tree(slots, index))
    {
      var e := edges[i];
      assert edges[..i + 1][..i] == edges[..i];
      if e.nodeId !in index {
        WireSticky(loaded, edges, i + 1);
        return Err(NodeNotFound);
      }
      var s := index[e.nodeId];
      index := index - {e.nodeId as int};
      if e.inputId !in index {
        WireSticky(loaded, edges, i + 1);
        return Err(InputNodeNotFound);
      }
      var node := slots[s];
      slots := slots[s := node.(inputs := node.inputs + [index[e.inputId]])];
      index := index[node.id := s];
    }
    assert edges[..|edges|] == edges;
    r := Ok(Tree(slots, index));
  }

  /** The node definitions of the repository's builder test: three formulas, ids 0, 1 and 2. */
  function TestDefs(): seq<NodeDefinition> {
    [NodeDefinition(0, "a + 1", 0), NodeDefinition(1, "b * 2", 0), NodeDefinition(2, "id0 + id1", 0)]
  }

  /** The edge definitions of that test: node 2 takes node 0, then node 1. */
  function TestEdges(): seq<EdgeDefinition> {
    [EdgeDefinition(2, 0), EdgeDefinition(2, 1)]
  }

  /** The tree the as-written definition loop builds from the builder test's definitions: every node has id 0. */
  function AsWrittenTestNodes<V, F>(f0: F, f1: F, f2: F): Tree<V, F> {
    Tree([NodeRec(0, Formula(f0), []), NodeRec(0, Formula(f1), []), NodeRec(0, Formula(f2), [])], map[0 := 0, 1 := 1, 2 := 2])
  }

  /** As written, the builder test's definitions load as three formula nodes, keyed by their ids but all with id 0. */
  lemma AsWrittenTestLoad<V, F>(parse: string -> Option<F>)
    requires parse("a + 1").Some? && parse("b * 2").Some? && parse("id0 + id1").Some?
    ensures LoadNodes<V, F>(TestDefs(), parse, false)
      == Ok(AsWrittenTestNodes(parse("a + 1").value, parse("b * 2").value, parse("id0 + id1").value))
  {
    var d := TestDefs();
    var f0, f1, f2 := parse("a + 1").value, parse("b * 2").value, parse("id0 + id1").value;
    var d1, d2 := [d[0]], [d[0], d[1]];
    assert d1[..0] == [] && d2[..1] == d1 && d[..2] == d2;
    var empty: Tree<V, F> := Tree([], map[]);
    assert LoadNodes<V, F>([], parse, false) == Ok(empty);
    var a1: Tree<V, F> := Tree([NodeRec(0, Formula(f0), [])], map[0 := 0]);
    var a2: Tree<V, F> := Tree(a1.slots + [NodeRec(0, Formula(f1), [])], map[0 := 0, 1 := 1]);
    var a3: Tree<V, F> := Tree(a2.slots + [NodeRec(0, Formula(f2), [])], map[0 := 0, 1 := 1, 2 := 2]);
    assert empty.slots + [NodeRec(0, Formula(f0), [])] == a1.slots && empty.index[0 := 0] == a1.index;
    assert AddDef(empty, d[0], parse, false) == Ok(a1);
    assert LoadNodes<V, F>(d1, parse, false) == Ok(a1);
    assert AddDef(a1, d[1], parse, false) == Ok(a2);
    assert LoadNodes<V, F>(d2, parse, false) == Ok(a2);
    assert AddDef(a2, d[2], parse, false) == Ok(a3);
    assert a3 == AsWrittenTestNodes(f0, f1, f2);
  }

  /**
   * As written, the builder test's input fails: the first edge puts node 2 back
   * under key 0 (its id as `from_formula` left it), so the second edge finds no
   * node 2.
   */
  lemma AsWrittenTestTreeFails<V, F>(parse: string -> Option<F>)
    requires parse("a + 1").Some? && parse("b * 2").Some? && parse("id0 + id1").Some?
    ensures BuildAsWritten<V, F>(TestDefs(), TestEdges(), parse) == Err(NodeNotFound)
  {
    var f0, f1, f2 := parse("a + 1").value, parse("b * 2").value, parse("id0 + id1").value;
    AsWrittenTestLoad<V, F>(parse);
    AsWrittenTestEdgesFail<V, F>(f0, f1, f2);
  }

  /** On the as-written test tree, the test's edges fail at the second one with "node not found". */
  lemma AsWrittenTestEdgesFail<V, F>(f0: F, f1: F, f2: F)
    ensures Wire(AsWrittenTestNodes<V, F>(f0, f1, f2), TestEdges()) == Err(NodeNotFound)
  {
    var e := TestEdges();
    var a3: Tree<V, F> := AsWrittenTestNodes(f0, f1, f2);
    var e1 := [e[0]];
    assert e1[..0] == [] && e[..1] == e1;
    var w1: Tree<V, F> := Tree(a3.slots[2 := NodeRec(0, Formula(f2), [0])], map[0 := 2, 1 := 1]);
    assert (a3.index - {2})[0 := 2] == map[0 := 2, 1 := 1];
    assert (a3.index - {2})[0] == 0 && a3.slots[2].inputs + [0] == [0];
    assert AddEdge(a3, e[0]) == Ok(w1);
    assert Wire(a3, e1) == Ok(w1);
  }

  /**
   * As written, the map can lose nodes: with the test's definitions and the
   * single edge from node 1 into node 2, node 2 is put back under key 0,
   * which held node 0. The map then has two keys for three defined ids, and
   * no key leads to node 0.
   */
  lemma AsWrittenDropsNode<V, F>(parse: string -> Option<F>)
    requires parse("a + 1").Some? && parse("b * 2").Some? && parse("id0 + id1").Some?
    ensures var r := BuildAsWritten<V, F>(TestDefs(), [EdgeDefinition(2, 1)], parse);
      && r.Ok? && |r.value.slots| == 3 && r.value.index == map[0 := 2, 1 := 1]
  {
    var f0, f1, f2 := parse("a + 1").value, parse("b * 2").value, parse("id0 + id1").value;
    AsWrittenTestLoad<V, F>(parse);
    AsWrittenEdgeRekeys<V, F>(f0, f1, f2);
  }

  /** On the as-written test tree, the edge from node 1 into node 2 moves node 2 to key 0. */
  lemma AsWrittenEdgeRekeys<V, F>(f0: F, f1: F, f2: F)
    ensures var a3 := AsWrittenTestNodes<V, F>(f0, f1, f2);
      Wire(a3, [EdgeDefinition(2, 1)]) == Ok(Tree(a3.slots[2 := NodeRec(0, Formula(f2), [1])], map[0 := 2, 1 := 1]))
  {
    var a3 := AsWrittenTestNodes<V, F>(f0, f1, f2);
    var e := [EdgeDefinition(2, 1)];
    assert e[..0] == [];
    assert (a3.index - {2})[0 := 2] == map[0 := 2, 1 := 1];
    assert (a3.index - {2})[1] == 1 && a3.slots[2].inputs + [1] == [1];
    assert AddEdge(a3, e[0]) == Ok(Tree(a3.slots[2 := NodeRec(0, Formula(f2), [1])], map[0 := 2, 1 := 1]));
  }

  /** The tree the stamped definition loop builds from the builder test's definitions. */
  function StampedTestNodes<V, F>(f0: F, f1: F, f2: F): Tree<V, F> {
    Tree([NodeRec(0, Formula(f0), []), NodeRec(1, Formula(f1), []), NodeRec(2, Formula(f2), [])], map[0 := 0, 1 := 1, 2 := 2])
  }

  /** With ids stamped, the builder test's definitions load as three formula nodes keyed by their ids. */
  lemma StampedTestLoad<V, F>(parse: string -> Option<F>)
    requires parse("a + 1").Some? && parse("b * 2").Some? && parse("id0 + id1").Some?
    ensures LoadNodes<V, F>(TestDefs(), parse, true)
      == Ok(StampedTestNodes(parse("a + 1").value, parse("b * 2").value, parse("id0 + id1").value))
  {
    var d := TestDefs();
    var f0, f1, f2 := parse("a + 1").value, parse("b * 2").value, parse("id0 + id1").value;
    var d1, d2 := [d[0]], [d[0], d[1]];
    assert d1[..0] == [] && d2[..1] == d1 && d[..2] == d2;
    var empty: Tree<V, F> := Tree([], map[]);
    assert LoadNodes<V, F>([], parse, true) == Ok(empty);
    var c1: Tree<V, F> := Tree([NodeRec(0, Formula(f0), [])], map[0 := 0]);
    var c2: Tree<V, F> := Tree(c1.slots + [NodeRec(1, Formula(f1), [])], map[0 := 0, 1 := 1]);
    var c3: Tree<V, F> := Tree(c2.slots + [NodeRec(2, Formula(f2), [])], map[0 := 0, 1 := 1, 2 := 2]);
    assert empty.slots + [NodeRec(0, Formula(f0), [])] == c1.slots && empty.index[0 := 0] == c1.index;
    assert AddDef(empty, d[0], parse, true) == Ok(c1);
    assert LoadNodes<V, F>(d1, parse, true) == Ok(c1);
    assert AddDef(c1, d[1], parse, true) == Ok(c2);
    assert LoadNodes<V, F>(d2, parse, true) == Ok(c2);
    assert AddDef(c2, d[2], parse, true) == Ok(c3);
    assert c3 == StampedTestNodes(f0, f1, f2);
  }

  /** The first edge of the builder test, on the stamped tree: node 2 gets node 0 and stays under key 2. */
  lemma StampedTestFirstEdge<V, F>(f0: F, f1: F, f2: F)
    ensures AddEdge(StampedTestNodes<V, F>(f0, f1, f2), TestEdges()[0])
      == Ok(Tree(StampedTestNodes<V, F>(f0, f1, f2).slots[2 := NodeRec(2, Formula(f2), [0])], map[0 := 0, 1 := 1, 2 := 2]))
  {
    var c3 := StampedTestNodes<V, F>(f0, f1, f2);
    assert (c3.index - {2})[2 := 2] == c3.index;
    assert (c3.index - {2})[0] == 0 && c3.slots[2].inputs + [0] == [0];
  }

  /** The second edge of the builder test, after the first: node 2 gets node 1 after node 0. */
  lemma StampedTestSecondEdge<V, F>(f0: F, f1: F, f2: F)
    ensures var c3 := StampedTestNodes<V, F>(f0, f1, f2);
      AddEdge(Tree(c3.slots[2 := NodeRec(2, Formula(f2), [0])], c3.index), TestEdges()[1])
      == Ok(Tree(c3.slots[2 := NodeRec(2, Formula(f2), [0, 1])], c3.index))
  {
    var c3 := StampedTestNodes<V, F>(f0, f1, f2);
    var s1: Tree<V, F> := Tree(c3.slots[2 := NodeRec(2, Formula(f2), [0])], c3.index);
    assert (s1.index - {2})[1] == 1 && s1.slots[2].inputs + [1] == [0, 1];
    assert (s1.index - {2})[2 := 2] == c3.index;
    assert s1.slots[2 := NodeRec(2, Formula(f2), [0, 1])] == c3.slots[2 := NodeRec(2, Formula(f2), [0, 1])];
  }

  /** With ids stamped, the builder test's input builds: node 2 gets inputs node 0 then node 1. */
  lemma StampedTestTree<V, F>(parse: string -> Option<F>)
    requires parse("a + 1").Some? && parse("b * 2").Some? && parse("id0 + id1").Some?
    ensures var r := BuildSpec<V, F>(TestDefs(), TestEdges(), parse);
      && r.Ok? && r.value.index == map[0 := 0, 1 := 1, 2 := 2] && |r.value.slots| == 3
      && r.value.slots[2].id == 2 && r.value.slots[2].inputs == [0, 1]
  {
    var e := TestEdges();
    var f0, f1, f2 := parse("a + 1").value, parse("b * 2").value, parse("id0 + id1").value;
    var c3: Tree<V, F> := StampedTestNodes(f0, f1, f2);
    StampedTestLoad<V, F>(parse);
    var e1 := [e[0]];
    assert e1[..0] == [] && e[..1] == e1;
    StampedTestFirstEdge<V, F>(f0, f1, f2);
    var s1: Tree<V, F> := Tree(c3.slots[2 := NodeRec(2, Formula(f2), [0])], c3.index);
    assert Wire(c3, e1) == Ok(s1);
    StampedTestSecondEdge<V, F>(f0, f1, f2);
    assert Wire(c3, e) == Ok(Tree(c3.slots[2 := NodeRec(2, Formula(f2), [0, 1])], c3.index));
  }

  /**
   * The builder test's input: as written it fails with "node not found", and
   * with ids stamped node 2 gets inputs node 0 then node 1.
   */
  lemma AsWrittenRejectsTestTree<V, F>(parse: string -> Option<F>)
    requires parse("a + 1").Some? && parse("b * 2").Some? && parse("id0 + id1").Some?
    ensures BuildAsWritten<V, F>(TestDefs(), TestEdges(), parse) == Err(NodeNotFound)
    ensures var r := BuildSpec<V, F>(TestDefs(), TestEdges(), parse);
      && r.Ok? && r.value.index == map[0 := 0, 1 := 1, 2 := 2] && |r.value.slots| == 3
      && r.value.slots[2].id == 2 && r.value.slots[2].inputs == [0, 1]
  {
    AsWrittenTestTreeFails<V, F>(parse);
    StampedTestTree<V, F>(parse);
  }
}
