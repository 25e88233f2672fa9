/**
 * `Node::eval` over the shared-handle nodes of the graph (the same algorithm
 * stands twice in the repository, in the tree module and in the standalone
 * node module). A node is a slot of the arena; evaluation recurses into the
 * input slots. The shared handles admit cycles, on which the source's
 * re-entrant borrow of the input list aborts; here evaluation is given a
 * ranking of the slots under which every input ranks below its consumer.
 */
module GraphEval {
  import opened Outcomes
  import opened Names
  import opened Broadcast
  import opened GraphBuild

  /** Every input slot exists and ranks strictly below its consumer: the inputs form no cycle. */
  predicate Ranked<V, F>(t: Tree<V, F>, rank: seq<nat>) {
    && |rank| == |t.slots|
    && forall s, j :: 0 <= s < |t.slots| && 0 <= j < |t.slots[s].inputs| ==>
         t.slots[s].inputs[j] < |t.slots| && rank[t.slots[s].inputs[j]] < rank[s]
  }

  /** The names under which the input slots `ins` are bound: "id" and each node's id. */
  function InputNames<V, F>(t: Tree<V, F>, ins: seq<nat>): (names: seq<string>)
    requires forall j :: 0 <= j < |ins| ==> ins[j] < |t.slots|
    ensures |names| == |ins|
  {
    seq(|ins|, j requires 0 <= j < |ins| => IdName(t.slots[ins[j]].id))
  }

  /** The value of the node in slot `s`. */
  function EvalNode<V, F>(t: Tree<V, F>, rank: seq<nat>, s: nat, evalF: (F, map<string, V>) -> Option<V>)
    : (r: Result<NodeOutput<V>, EvalError>)
    requires Ranked(t, rank) && s < |t.slots|
    ensures r.Ok? ==> Canonical(r.value)
    decreases rank[s], 1, 0
  {
    var ins := t.slots[s].inputs;
    match EvalInputs(t, rank, s, |ins|, evalF)
    case Err(e) => Err(e)
    case Ok(vals) => Step(t.slots[s].kind, InputNames(t, ins), vals, evalF)
  }

  /** The normalised values of the first `k` inputs of slot `s`, evaluated in order, or the first error. */
  function EvalInputs<V, F>(t: Tree<V, F>, rank: seq<nat>, s: nat, k: nat, evalF: (F, map<string, V>) -> Option<V>)
    : (r: Result<seq<seq<V>>, EvalError>)
    requires Ranked(t, rank) && s < |t.slots| && k <= |t.slots[s].inputs|
    ensures r.Ok? ==> |r.value| == k && forall j :: 0 <= j < k ==> |r.value[j]| > 0
    decreases rank[s], 0, k
  {
    if k == 0 then Ok([])
    else
      match EvalInputs(t, rank, s, k - 1, evalF)
      case Err(e) => Err(e)
      case Ok(vals) =>
        match EvalNode(t, rank, t.slots[s].inputs[k - 1], evalF)
        case Err(e) => Err(e)
        case Ok(o) => Ok(vals + [Normalize(o)])
  }

  /** Once an input fails, the input loop fails with that error. */
  lemma {:induction false} EvalInputsSticky<V, F>(t: Tree<V, F>, rank: seq<nat>, s: nat, i: nat, k: nat,
                                                  evalF: (F, map<string, V>) -> Option<V>)
    requires Ranked(t, rank) && s < |t.slots| && i <= k <= |t.slots[s].inputs|
    requires EvalInputs(t, rank, s, i, evalF).Err?
    ensures EvalInputs(t, rank, s, k, evalF) == EvalInputs(t, rank, s, i, evalF)
    decreases k
  {
    if i < k {
      EvalInputsSticky(t, rank, s, i, k - 1, evalF);
    }
  }

  /** One pass of the input loop: the next input evaluates and its normalised value is appended. */
  lemma {:induction false} EvalInputsStep<V, F>(t: Tree<V, F>, rank: seq<nat>, s: nat, k: nat, evalF: (F, map<string, V>) -> Option<V>,
                             vals: seq<seq<V>>, o: NodeOutput<V>)
    requires Ranked(t, rank) && s < |t.slots| && k < |t.slots[s].inputs|
    requires EvalInputs(t, rank, s, k, evalF) == Ok(vals)
    requires EvalNode(t, rank, t.slots[s].inputs[k], evalF) == Ok(o)
    ensures EvalInputs(t, rank, s, k + 1, evalF) == Ok(vals + [Normalize(o)])
  {
  }

  /** The names of a prefix of the inputs grow by the next input's name. */
  lemma InputNamesSnoc<V, F>(t: Tree<V, F>, ins: seq<nat>, k: nat)
    requires k < |ins| && forall j :: 0 <= j < |ins| ==> ins[j] < |t.slots|
    ensures InputNames(t, ins[..k + 1]) == InputNames(t, ins[..k]) + [IdName(t.slots[ins[k]].id)]
  {
    var before, after := InputNames(t, ins[..k]), InputNames(t, ins[..k + 1]);
    var rhs := before + [IdName(t.slots[ins[k]].id)];
    forall j | 0 <= j < k + 1
      ensures after[j] == rhs[j]
    {
      if j < k {
        assert ins[..k + 1][j] == ins[..k][j];
      }
    }
  }

  /** `Node::eval`: evaluate the inputs in order, then run the node's output loop. */
  method Eval<V, F>(t: Tree<V, F>, ghost rank: seq<nat>, s: nat, evalF: (F, map<string, V>) -> Option<V>)
    returns (r: Result<NodeOutput<V>, EvalError>)
    requires Ranked(t, rank) && s < |t.slots|
    ensures r == EvalNode(t, rank, s, evalF)
    decreases rank[s]
  {
    var ins := t.slots[s].inputs;
    var vals: seq<seq<V>> := [];
    var names: seq<string> := [];
    var maxLen: nat := 0;
    for k := 0 to |ins|
      invariant EvalInputs(t, rank, s, k, evalF) == Ok(vals)
      invariant names == InputNames(t, ins[..k])
      invariant maxLen == MaxLen(vals)
    {
      var input := ins[k];
      var out := Eval(t, rank, input, evalF);
      if out.Err? {
        EvalInputsSticky(t, rank, s, k + 1, |ins|, evalF);
        return Err(out.error);
      }
      var column := Normalize(out.value);
      EvalInputsStep(t, rank, s, k, evalF, vals, out.value);
      InputNamesSnoc(t, ins, k);
      MaxLenSnoc(vals, column);
      maxLen := if maxLen < |column| then |column| else maxLen;
      names := names + [IdName(t.slots[input].id)];
      vals := vals + [column];
    }
    assert ins[..|ins|] == ins;
    r := Combine(t.slots[s].kind, names, vals, maxLen, evalF);
  }

  /** The first `k` inputs of slot `s` all evaluate. */
  predicate AllEvaluate<V, F>(t: Tree<V, F>, rank: seq<nat>, s: nat, k: nat, evalF: (F, map<string, V>) -> Option<V>)
    requires Ranked(t, rank) && s < |t.slots| && k <= |t.slots[s].inputs|
  {
    forall j :: 0 <= j < k ==> EvalNode(t, rank, t.slots[s].inputs[j], evalF).Ok?
  }

  /** The input loop succeeds exactly when every input evaluates. */
  lemma {:induction false} EvalInputsOkIff<V, F>(t: Tree<V, F>, rank: seq<nat>, s: nat, k: nat, evalF: (F, map<string, V>) -> Option<V>)
    requires Ranked(t, rank) && s < |t.slots| && k <= |t.slots[s].inputs|
    ensures EvalInputs(t, rank, s, k, evalF).Ok? <==> AllEvaluate(t, rank, s, k, evalF)
    decreases k
  {
    if k > 0 {
      EvalInputsOkIff(t, rank, s, k - 1, evalF);
      var ins := t.slots[s].inputs;
      var prev, last := EvalInputs(t, rank, s, k - 1, evalF), EvalNode(t, rank, ins[k - 1], evalF);
      if prev.Err? {
        var j :| 0 <= j < k - 1 && EvalNode(t, rank, ins[j], evalF).Err?;
        assert !AllEvaluate(t, rank, s, k, evalF);
        assert EvalInputs(t, rank, s, k, evalF) == Err(prev.error);
      } else if last.Err? {
        assert !AllEvaluate(t, rank, s, k, evalF);
        assert EvalInputs(t, rank, s, k, evalF) == Err(last.error);
      } else {
        assert EvalInputs(t, rank, s, k, evalF).Ok?;
        forall j | 0 <= j < k
          ensures EvalNode(t, rank, ins[j], evalF).Ok?
        {
          if j < k - 1 {
            assert AllEvaluate(t, rank, s, k - 1, evalF);
          }
        }
      }
    }
  }

  /** A successful pass of the input loop came from a successful shorter pass and a successful last input. */
  lemma {:induction false} EvalInputsLast<V, F>(t: Tree<V, F>, rank: seq<nat>, s: nat, k: nat, evalF: (F, map<string, V>) -> Option<V>)
    requires Ranked(t, rank) && s < |t.slots| && 0 < k <= |t.slots[s].inputs| && EvalInputs(t, rank, s, k, evalF).Ok?
    ensures EvalInputs(t, rank, s, k - 1, evalF).Ok? && EvalNode(t, rank, t.slots[s].inputs[k - 1], evalF).Ok?
    ensures EvalInputs(t, rank, s, k, evalF).value ==
      EvalInputs(t, rank, s, k - 1, evalF).value + [Normalize(EvalNode(t, rank, t.slots[s].inputs[k - 1], evalF).value)]
  {
  }

  /** When the input loop succeeds it holds each input's result normalised, in input order. */
  lemma {:induction false} EvalInputsValues<V, F>(t: Tree<V, F>, rank: seq<nat>, s: nat, k: nat, evalF: (F, map<string, V>) -> Option<V>)
    requires Ranked(t, rank) && s < |t.slots| && k <= |t.slots[s].inputs| && EvalInputs(t, rank, s, k, evalF).Ok?
    ensures forall j :: 0 <= j < k ==> EvalNode(t, rank, t.slots[s].inputs[j], evalF).Ok?
    ensures forall j :: 0 <= j < k ==>
      EvalInputs(t, rank, s, k, evalF).value[j] == Normalize(EvalNode(t, rank, t.slots[s].inputs[j], evalF).value)
    decreases k
  {
    if k > 0 {
      EvalInputsLast(t, rank, s, k, evalF);
      EvalInputsValues(t, rank, s, k - 1, evalF);
      var prev := EvalInputs(t, rank, s, k - 1, evalF).value;
      var cur := EvalInputs(t, rank, s, k, evalF).value;
      forall j | 0 <= j < k
        ensures EvalNode(t, rank, t.slots[s].inputs[j], evalF).Ok?
        ensures cur[j] == Normalize(EvalNode(t, rank, t.slots[s].inputs[j], evalF).value)
      {
        if j < k - 1 {
          assert cur[j] == prev[j];
        }
      }
    }
  }

  /**
   * The input loop succeeds exactly when every input evaluates, and then holds
   * each input's result normalised to a sequence, in input order.
   */
  lemma {:induction false} EvalInputsOk<V, F>(t: Tree<V, F>, rank: seq<nat>, s: nat, k: nat, evalF: (F, map<string, V>) -> Option<V>)
    requires Ranked(t, rank) && s < |t.slots| && k <= |t.slots[s].inputs|
    ensures EvalInputs(t, rank, s, k, evalF).Ok? <==> forall j :: 0 <= j < k ==> EvalNode(t, rank, t.slots[s].inputs[j], evalF).Ok?
    ensures EvalInputs(t, rank, s, k, evalF).Ok? ==>
      forall j :: 0 <= j < k ==> EvalInputs(t, rank, s, k, evalF).value[j] == Normalize(EvalNode(t, rank, t.slots[s].inputs[j], evalF).value)
  {
    EvalInputsOkIff(t, rank, s, k, evalF);
    if EvalInputs(t, rank, s, k, evalF).Ok? {
      EvalInputsValues(t, rank, s, k, evalF);
    }
  }

  /** The first input that fails decides the node's result: its error is returned and nothing is output. */
  lemma EvalFirstInputError<V, F>(t: Tree<V, F>, rank: seq<nat>, s: nat, i: nat, evalF: (F, map<string, V>) -> Option<V>)
    requires Ranked(t, rank) && s < |t.slots| && i < |t.slots[s].inputs|
    requires forall j :: 0 <= j < i ==> EvalNode(t, rank, t.slots[s].inputs[j], evalF).Ok?
    requires EvalNode(t, rank, t.slots[s].inputs[i], evalF).Err?
    ensures EvalNode(t, rank, s, evalF) == Err(EvalNode(t, rank, t.slots[s].inputs[i], evalF).error)
  {
    EvalInputsOk(t, rank, s, i, evalF);
    EvalInputsSticky(t, rank, s, i + 1, |t.slots[s].inputs|, evalF);
  }

  /**
   * A constant node still evaluates its inputs first, but once they succeed it
   * ignores them: a number gives itself, and a vector gives itself collapsed.
   */
  lemma EvalConstant<V, F>(t: Tree<V, F>, rank: seq<nat>, s: nat, evalF: (F, map<string, V>) -> Option<V>)
    requires Ranked(t, rank) && s < |t.slots|
    requires t.slots[s].kind.Number? || t.slots[s].kind.NumberArray?
    requires forall j :: 0 <= j < |t.slots[s].inputs| ==> EvalNode(t, rank, t.slots[s].inputs[j], evalF).Ok?
    ensures t.slots[s].kind.Number? ==> EvalNode(t, rank, s, evalF) == Ok(NodeOutput.Number(t.slots[s].kind.number))
    ensures t.slots[s].kind.NumberArray? ==> EvalNode(t, rank, s, evalF) == Collapse(t.slots[s].kind.numbers)
  {
    var ins := t.slots[s].inputs;
    EvalInputsOk(t, rank, s, |ins|, evalF);
    var vals := EvalInputs(t, rank, s, |ins|, evalF).value;
    match t.slots[s].kind {
      case Number(v) =>
        StepNumber(v, InputNames(t, ins), vals, evalF);
      case NumberArray(vs) =>
        StepNumberArray(vs, InputNames(t, ins), vals, evalF);
        if |vs| == 1 {
          assert vs == [vs[0]];
        }
    }
  }

  /** No later input of the list `ins` carries the same id as input `j`. */
  predicate Unshadowed<V, F>(t: Tree<V, F>, ins: seq<nat>, j: nat)
    requires forall j :: 0 <= j < |ins| ==> ins[j] < |t.slots|
    requires j < |ins|
  {
    forall k :: j < k < |ins| ==> t.slots[ins[k]].id != t.slots[ins[j]].id
  }

  /** The input names are distinct exactly where the input ids are, so an input is shadowed only by a later input with its id. */
  lemma LastWithById<V, F>(t: Tree<V, F>, ins: seq<nat>, j: nat)
    requires forall j :: 0 <= j < |ins| ==> ins[j] < |t.slots|
    requires j < |ins|
    ensures LastWith(InputNames(t, ins), j) <==> Unshadowed(t, ins, j)
  {
    var names := InputNames(t, ins);
    forall k | j < k < |ins|
      ensures names[k] != names[j] <==> t.slots[ins[k]].id != t.slots[ins[j]].id
    {
      IdNameInjective(t.slots[ins[k]].id, t.slots[ins[j]].id);
    }
  }

  /**
   * The context a formula node is evaluated against at position `i`: it binds
   * "id" and the id of every input and nothing else, and an input that no
   * later input with the same id overrides is bound to its value at position
   * `i`, or to its last value once it is exhausted.
   */
  lemma BindingsById<V, F>(t: Tree<V, F>, ins: seq<nat>, vals: seq<seq<V>>, i: nat)
    requires forall j :: 0 <= j < |ins| ==> ins[j] < |t.slots|
    requires Ready(InputNames(t, ins), vals)
    ensures forall key :: key in Bindings(InputNames(t, ins), vals, i) <==> key in InputNames(t, ins)
    ensures forall j :: 0 <= j < |ins| ==> IdName(t.slots[ins[j]].id) in Bindings(InputNames(t, ins), vals, i)
    ensures forall j :: 0 <= j < |ins| && Unshadowed(t, ins, j) ==>
      Bindings(InputNames(t, ins), vals, i)[IdName(t.slots[ins[j]].id)] == Pick(vals[j], i)
  {
    var names := InputNames(t, ins);
    var ctx := Bindings(names, vals, i);
    BindingsSpec(names, vals, i);
    forall j | 0 <= j < |ins|
      ensures IdName(t.slots[ins[j]].id) in ctx
    {
      assert names[j] == IdName(t.slots[ins[j]].id);
    }
    forall j | 0 <= j < |ins| && Unshadowed(t, ins, j)
      ensures ctx[IdName(t.slots[ins[j]].id)] == Pick(vals[j], i)
    {
      LastWithById(t, ins, j);
      assert names[j] == IdName(t.slots[ins[j]].id);
    }
  }

  /**
   * A formula node whose inputs all evaluate is evaluated once per position of
   * the broadcast length, the largest normalised input length; it fails with
   * no output when that length is 0 and as a failed evaluation when any
   * position fails, and otherwise outputs one value per position.
   */
  lemma EvalFormula<V, F>(t: Tree<V, F>, rank: seq<nat>, s: nat, evalF: (F, map<string, V>) -> Option<V>)
    requires Ranked(t, rank) && s < |t.slots| && t.slots[s].kind.Formula?
    requires forall j :: 0 <= j < |t.slots[s].inputs| ==> EvalNode(t, rank, t.slots[s].inputs[j], evalF).Ok?
    ensures EvalInputs(t, rank, s, |t.slots[s].inputs|, evalF).Ok?
    ensures var vals := EvalInputs(t, rank, s, |t.slots[s].inputs|, evalF).value;
      var names := InputNames(t, t.slots[s].inputs);
      var f := t.slots[s].kind.formula;
      var r := EvalNode(t, rank, s, evalF);
      && (r.Ok? <==> MaxLen(vals) > 0 && EvaluatesAt(f, names, vals, MaxLen(vals), evalF))
      && (r.Err? ==> r.error == if MaxLen(vals) == 0 then NoOutput else FormulaEvaluationFailed)
      && (r.Ok? ==> |Normalize(r.value)| == MaxLen(vals)
                    && forall i :: 0 <= i < MaxLen(vals) ==> Some(Normalize(r.value)[i]) == evalF(f, Bindings(names, vals, i)))
  {
    var ins := t.slots[s].inputs;
    EvalInputsOk(t, rank, s, |ins|, evalF);
    StepFormula(t.slots[s].kind.formula, InputNames(t, ins), EvalInputs(t, rank, s, |ins|, evalF).value, evalF);
  }

  /** A formula node without inputs has no position to evaluate and fails with no output. */
  lemma EvalFormulaWithoutInputs<V, F>(t: Tree<V, F>, rank: seq<nat>, s: nat, evalF: (F, map<string, V>) -> Option<V>)
    requires Ranked(t, rank) && s < |t.slots| && t.slots[s].kind.Formula? && |t.slots[s].inputs| == 0
    ensures EvalNode(t, rank, s, evalF) == Err(NoOutput)
  {
    EvalFormula(t, rank, s, evalF);
  }

  /** A query node whose inputs all evaluate fails: with no output when its inputs are empty, as unimplemented otherwise. */
  lemma EvalQuery<V, F>(t: Tree<V, F>, rank: seq<nat>, s: nat, evalF: (F, map<string, V>) -> Option<V>)
    requires Ranked(t, rank) && s < |t.slots| && t.slots[s].kind.SqlQuery?
    requires forall j :: 0 <= j < |t.slots[s].inputs| ==> EvalNode(t, rank, t.slots[s].inputs[j], evalF).Ok?
    ensures EvalNode(t, rank, s, evalF) ==
      Err(if |t.slots[s].inputs| == 0 then NoOutput else QueryNotImplemented)
  {
    var ins := t.slots[s].inputs;
    EvalInputsOk(t, rank, s, |ins|, evalF);
    var vals := EvalInputs(t, rank, s, |ins|, evalF).value;
    StepQuery(t.slots[s].kind.query, InputNames(t, ins), vals, evalF);
    if |ins| > 0 {
      assert |vals[0]| > 0;
    }
  }

  /** The nodes of the evaluation test: a number, a two-element vector, a formula over both and a formula over that. */
  function TestTree<V, F>(a: V, b0: V, b1: V, f: F, g: F): Tree<V, F> {
    Tree([NodeRec(0, NodeKind.Number(a), []),
          NodeRec(1, NodeKind.NumberArray([b0, b1]), []),
          NodeRec(2, Formula(f), [0, 1]),
          NodeRec(3, Formula(g), [2])],
         map[0 := 0, 1 := 1, 2 := 2, 3 := 3])
  }

  /** The inputs of the first formula in the evaluation test evaluate to a one-element and a two-element sequence. */
  lemma TestFormulaInputs<V, F>(a: V, b0: V, b1: V, f: F, g: F, evalF: (F, map<string, V>) -> Option<V>)
    ensures Ranked(TestTree(a, b0, b1, f, g), [0, 0, 1, 2])
    ensures EvalInputs(TestTree(a, b0, b1, f, g), [0, 0, 1, 2], 2, 2, evalF) == Ok([[a], [b0, b1]])
  {
    var t, rank := TestTree(a, b0, b1, f, g), [0, 0, 1, 2];
    assert Ranked(t, rank);
    EvalConstant(t, rank, 0, evalF);
    EvalConstant(t, rank, 1, evalF);
    assert EvalInputs(t, rank, 2, 0, evalF) == Ok([]);
    assert Normalize(EvalNode(t, rank, 0, evalF).value) == [a] && Normalize(EvalNode(t, rank, 1, evalF).value) == [b0, b1];
    assert [] + [[a]] == [[a]] && [[a]] + [[b0, b1]] == [[a], [b0, b1]];
    assert EvalInputs(t, rank, 2, 1, evalF) == Ok([[a]]);
  }

  /** The first formula of the evaluation test: the scalar "id0" is held while "id1" runs over the vector. */
  lemma TestFormulaFirst<V, F>(a: V, b0: V, b1: V, f: F, g: F, evalF: (F, map<string, V>) -> Option<V>, c0: V, c1: V)
    requires evalF(f, map["id0" := a, "id1" := b0]) == Some(c0)
    requires evalF(f, map["id0" := a, "id1" := b1]) == Some(c1)
    ensures Ranked(TestTree(a, b0, b1, f, g), [0, 0, 1, 2])
    ensures EvalNode(TestTree(a, b0, b1, f, g), [0, 0, 1, 2], 2, evalF) == Ok(NodeOutput.NumberArray([c0, c1]))
  {
    var t, rank := TestTree(a, b0, b1, f, g), [0, 0, 1, 2];
    var vals: seq<seq<V>> := [[a], [b0, b1]];
    TestFormulaInputs(a, b0, b1, f, g, evalF);
    assert MaxLen(vals) == 2 by { assert vals[..1] == [[a]]; }
    assert InputNames(t, [0, 1]) == ["id0", "id1"] by { SmallIdNames(); }
    BindingsTwo("id0", "id1", [a], [b0, b1], 0);
    BindingsTwo("id0", "id1", [a], [b0, b1], 1);
    StepFormulaTwo(f, ["id0", "id1"], vals, evalF, c0, c1);
  }

  /** The second formula of the evaluation test, once the first has produced two values. */
  lemma TestFormulaSecond<V, F>(t: Tree<V, F>, rank: seq<nat>, g: F, evalF: (F, map<string, V>) -> Option<V>, c0: V, c1: V, d0: V, d1: V)
    requires Ranked(t, rank) && |t.slots| == 4
    requires t.slots[2].id == 2 && t.slots[3] == NodeRec(3, Formula(g), [2])
    requires EvalNode(t, rank, 2, evalF) == Ok(NodeOutput.NumberArray([c0, c1]))
    requires evalF(g, map["id2" := c0]) == Some(d0)
    requires evalF(g, map["id2" := c1]) == Some(d1)
    ensures EvalNode(t, rank, 3, evalF) == Ok(NodeOutput.NumberArray([d0, d1]))
  {
    var vals: seq<seq<V>> := [[c0, c1]];
    assert EvalInputs(t, rank, 3, 1, evalF) == Ok(vals) by {
      assert EvalInputs(t, rank, 3, 0, evalF) == Ok([]);
      assert Normalize(NodeOutput.NumberArray([c0, c1])) == [c0, c1];
      assert [] + [[c0, c1]] == vals;
    }
    assert MaxLen(vals) == 2;
    assert InputNames(t, [2]) == ["id2"] by { SmallIdNames(); }
    BindingsOne("id2", [c0, c1], 0);
    BindingsOne("id2", [c0, c1], 1);
    StepFormulaTwo(g, ["id2"], vals, evalF, d0, d1);
  }

  /**
   * The evaluation test: the scalar "id0" is held fixed while "id1" runs over
   * the vector, so the first formula yields two values; the second formula,
   * over the first, yields two values again.
   */
  lemma TestFormula<V, F>(a: V, b0: V, b1: V, f: F, g: F, evalF: (F, map<string, V>) -> Option<V>, c0: V, c1: V, d0: V, d1: V)
    requires evalF(f, map["id0" := a, "id1" := b0]) == Some(c0)
    requires evalF(f, map["id0" := a, "id1" := b1]) == Some(c1)
    requires evalF(g, map["id2" := c0]) == Some(d0)
    requires evalF(g, map["id2" := c1]) == Some(d1)
    ensures Ranked(TestTree(a, b0, b1, f, g), [0, 0, 1, 2])
    ensures EvalNode(TestTree(a, b0, b1, f, g), [0, 0, 1, 2], 2, evalF) == Ok(NodeOutput.NumberArray([c0, c1]))
    ensures EvalNode(TestTree(a, b0, b1, f, g), [0, 0, 1, 2], 3, evalF) == Ok(NodeOutput.NumberArray([d0, d1]))
  {
    TestFormulaFirst(a, b0, b1, f, g, evalF, c0, c1);
    TestFormulaSecond(TestTree(a, b0, b1, f, g), [0, 0, 1, 2], g, evalF, c0, c1, d0, d1);
  }
}
