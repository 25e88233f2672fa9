/**
 * The evaluator over an owned tree: each node holds its inputs by value, and
 * a node that was never given inputs holds none at all. Values are symbolic
 * expressions here; their arithmetic stays abstract, as elsewhere.
 */
module Owned {
  import opened Outcomes
  import opened Names
  import opened Broadcast

  /** A node of the owned tree. */
  datatype Node<V, F> = Node(id: int, inputs: Inputs<V, F>, kind: NodeKind<V, F>)

  /** The optional input list of a node: absent, or the inputs in evaluation order. */
  datatype Inputs<V, F> = NoInputs | SomeInputs(nodes: seq<Node<V, F>>)

  /** Why building a node or converting an output failed. */
  datatype NodeError = UnableToParseExpression | VectorToNumber | NumberToVector | CannotUnpack

  /** The inputs of `n` as a list, an absent list being empty. */
  function InputList<V, F>(n: Node<V, F>): (ns: seq<Node<V, F>>)
    ensures n.inputs.NoInputs? ==> ns == []
    ensures n.inputs.SomeInputs? ==> ns == n.inputs.nodes
  {
    match n.inputs
    case NoInputs => []
    case SomeInputs(nodes) => nodes
  }

  /** The names the inputs are bound under: "id" and each input's id. */
  function InputNames<V, F>(ns: seq<Node<V, F>>): (names: seq<string>)
    ensures |names| == |ns|
  {
    seq(|ns|, j requires 0 <= j < |ns| => IdName(ns[j].id))
  }

  /** `Node::from_formula`: a formula node with id 0 and no inputs, or an error when the text does not parse. */
  function FromFormula<V, F>(text: string, parse: string -> Option<F>): (r: Result<Node<V, F>, NodeError>)
    ensures r.Err? <==> parse(text).None?
    ensures r.Err? ==> r.error == UnableToParseExpression
    ensures r.Ok? ==> r.value.id == 0 && r.value.inputs == NoInputs && r.value.kind == Formula(parse(text).value)
  {
    match parse(text)
    case None => Err(UnableToParseExpression)
    case Some(f) => Ok(Node(0, NoInputs, Formula(f)))
  }

  /** The value computed for node `n`. */
  function ComputeSpec<V, F>(n: Node<V, F>, evalF: (F, map<string, V>) -> Option<V>): (r: Result<NodeOutput<V>, EvalError>)
    ensures r.Ok? ==> Canonical(r.value)
    decreases n, 1, 0
  {
    match ComputeInputs(n, |InputList(n)|, evalF)
    case Err(e) => Err(e)
    case Ok(vals) => Step(n.kind, InputNames(InputList(n)), vals, evalF)
  }

  /** The normalised values of the first `k` inputs of `n`, computed in order, or the first error. */
  function ComputeInputs<V, F>(n: Node<V, F>, k: nat, evalF: (F, map<string, V>) -> Option<V>)
    : (r: Result<seq<seq<V>>, EvalError>)
    requires k <= |InputList(n)|
    ensures r.Ok? ==> |r.value| == k && forall j :: 0 <= j < k ==> |r.value[j]| > 0
    decreases n, 0, k
  {
    if k == 0 then Ok([])
    else
      match ComputeInputs(n, k - 1, evalF)
      case Err(e) => Err(e)
      case Ok(vals) =>
        match ComputeSpec(InputList(n)[k - 1], evalF)
        case Err(e) => Err(e)
        case Ok(o) => Ok(vals + [Normalize(o)])
  }

  /** Once an input fails, the input loop fails with that error. */
  lemma {:induction false} ComputeInputsSticky<V, F>(n: Node<V, F>, i: nat, k: nat, evalF: (F, map<string, V>) -> Option<V>)
    requires i <= k <= |InputList(n)|
    requires ComputeInputs(n, i, evalF).Err?
    ensures ComputeInputs(n, k, evalF) == ComputeInputs(n, i, evalF)
    decreases k
  {
    if i < k {
      ComputeInputsSticky(n, i, k - 1, evalF);
    }
  }

  /** One pass of the input loop: the next input computes and its normalised value is appended. */
  lemma {:induction false} ComputeInputsStep<V, F>(n: Node<V, F>, k: nat, evalF: (F, map<string, V>) -> Option<V>,
                                vals: seq<seq<V>>, o: NodeOutput<V>)
    requires k < |InputList(n)|
    requires ComputeInputs(n, k, evalF) == Ok(vals)
    requires ComputeSpec(InputList(n)[k], evalF) == Ok(o)
    ensures ComputeInputs(n, k + 1, evalF) == Ok(vals + [Normalize(o)])
  {
  }

  /** The names of a prefix of the inputs grow by the next input's name. */
  lemma InputNamesSnoc<V, F>(ns: seq<Node<V, F>>, k: nat)
    requires k < |ns|
    ensures InputNames(ns[..k + 1]) == InputNames(ns[..k]) + [IdName(ns[k].id)]
  {
  }

  /** `Node::compute`: compute the inputs in order, then run the node's output loop. */
  method Compute<V, F>(n: Node<V, F>, evalF: (F, map<string, V>) -> Option<V>) returns (r: Result<NodeOutput<V>, EvalError>)
    ensures r == ComputeSpec(n, evalF)
    decreases n
  {
    var vals: seq<seq<V>> := [];
    var names: seq<string> := [];
    var maxLen: nat := 0;
    if n.inputs.SomeInputs? {
      var nodes := n.inputs.nodes;
      for k := 0 to |nodes|
        invariant ComputeInputs(n, k, evalF) == Ok(vals)
        invariant names == InputNames(nodes[..k])
        invariant maxLen == MaxLen(vals)
      {
        var out := Compute(nodes[k], evalF);
        if out.Err? {
          ComputeInputsSticky(n, k + 1, |nodes|, evalF);
          return Err(out.error);
        }
        var column := Normalize(out.value);
        ComputeInputsStep(n, k, evalF, vals, out.value);
        InputNamesSnoc(nodes, k);
        MaxLenSnoc(vals, column);
        maxLen := if maxLen < |column| then |column| else maxLen;
        names := names + [IdName(nodes[k].id)];
        vals := vals + [column];
      }
      assert nodes[..|nodes|] == nodes;
    }
    r := Combine(n.kind, names, vals, maxLen, evalF);
  }

  /** The first `k` nodes of `ns` all compute. */
  predicate AllCompute<V, F>(ns: seq<Node<V, F>>, k: nat, evalF: (F, map<string, V>) -> Option<V>)
    requires k <= |ns|
  {
    forall j :: 0 <= j < k ==> ComputeSpec(ns[j], evalF).Ok?
  }

  /** The input loop succeeds exactly when every input computes. */
  lemma {:induction false} ComputeInputsOkIff<V, F>(n: Node<V, F>, k: nat, evalF: (F, map<string, V>) -> Option<V>)
    requires k <= |InputList(n)|
    ensures ComputeInputs(n, k, evalF).Ok? <==> AllCompute(InputList(n), k, evalF)
    decreases k
  {
    if k > 0 {
      ComputeInputsOkIff(n, k - 1, evalF);
      var ns := InputList(n);
      var prev, last := ComputeInputs(n, k - 1, evalF), ComputeSpec(ns[k - 1], evalF);
      if prev.Err? {
        var j :| 0 <= j < k - 1 && ComputeSpec(ns[j], evalF).Err?;
        assert !AllCompute(ns, k, evalF);
        assert ComputeInputs(n, k, evalF) == Err(prev.error);
      } else if last.Err? {
        assert !AllCompute(ns, k, evalF);
        assert ComputeInputs(n, k, evalF) == Err(last.error);
      } else {
        assert ComputeInputs(n, k, evalF).Ok?;
        forall j | 0 <= j < k
          ensures ComputeSpec(ns[j], evalF).Ok?
        {
          if j < k - 1 {
            assert AllCompute(ns, k - 1, evalF);
          }
        }
      }
    }
  }

  /** A successful pass of the input loop came from a successful shorter pass and a successful last input. */
  lemma {:induction false} ComputeInputsLast<V, F>(n: Node<V, F>, k: nat, evalF: (F, map<string, V>) -> Option<V>)
    requires 0 < k <= |InputList(n)| && ComputeInputs(n, k, evalF).Ok?
    ensures ComputeInputs(n, k - 1, evalF).Ok? && ComputeSpec(InputList(n)[k - 1], evalF).Ok?
    ensures ComputeInputs(n, k, evalF).value ==
      ComputeInputs(n, k - 1, evalF).value + [Normalize(ComputeSpec(InputList(n)[k - 1], evalF).value)]
  {
  }

  /** When the input loop succeeds it holds each input's result normalised, in input order. */
  lemma {:induction false} ComputeInputsValues<V, F>(n: Node<V, F>, k: nat, evalF: (F, map<string, V>) -> Option<V>)
    requires k <= |InputList(n)| && ComputeInputs(n, k, evalF).Ok?
    ensures forall j :: 0 <= j < k ==> ComputeSpec(InputList(n)[j], evalF).Ok?
    ensures forall j :: 0 <= j < k ==> ComputeInputs(n, k, evalF).value[j] == Normalize(ComputeSpec(InputList(n)[j], evalF).value)
    decreases k
  {
    if k > 0 {
      ComputeInputsLast(n, k, evalF);
      ComputeInputsValues(n, k - 1, evalF);
      var prev := ComputeInputs(n, k - 1, evalF).value;
      var cur := ComputeInputs(n, k, evalF).value;
      forall j | 0 <= j < k
        ensures ComputeSpec(InputList(n)[j], evalF).Ok?
        ensures cur[j] == Normalize(ComputeSpec(InputList(n)[j], evalF).value)
      {
        if j < k - 1 {
          assert cur[j] == prev[j];
        }
      }
    }
  }

  /** The input loop succeeds exactly when every input computes, and then holds each input's result normalised, in order. */
  lemma ComputeInputsOk<V, F>(n: Node<V, F>, k: nat, evalF: (F, map<string, V>) -> Option<V>)
    requires k <= |InputList(n)|
    ensures ComputeInputs(n, k, evalF).Ok? <==> forall j :: 0 <= j < k ==> ComputeSpec(InputList(n)[j], evalF).Ok?
    ensures ComputeInputs(n, k, evalF).Ok? ==>
      forall j :: 0 <= j < k ==> ComputeInputs(n, k, evalF).value[j] == Normalize(ComputeSpec(InputList(n)[j], evalF).value)
  {
    ComputeInputsOkIff(n, k, evalF);
    if ComputeInputs(n, k, evalF).Ok? {
      ComputeInputsValues(n, k, evalF);
    }
  }

  /** The first input that fails decides the node's result. */
  lemma ComputeFirstInputError<V, F>(n: Node<V, F>, i: nat, evalF: (F, map<string, V>) -> Option<V>)
    requires i < |InputList(n)|
    requires forall j :: 0 <= j < i ==> ComputeSpec(InputList(n)[j], evalF).Ok?
    requires ComputeSpec(InputList(n)[i], evalF).Err?
    ensures ComputeSpec(n, evalF) == Err(ComputeSpec(InputList(n)[i], evalF).error)
  {
    ComputeInputsOk(n, i, evalF);
    ComputeInputsSticky(n, i + 1, |InputList(n)|, evalF);
  }

  /** An absent input list behaves exactly as an empty one. */
  lemma NoInputsAsEmpty<V, F>(id: int, kind: NodeKind<V, F>, evalF: (F, map<string, V>) -> Option<V>)
    ensures ComputeSpec(Node(id, NoInputs, kind), evalF) == ComputeSpec(Node(id, SomeInputs([]), kind), evalF)
  {
  }

  /** A constant node whose inputs compute ignores them: a number gives itself, a vector gives itself collapsed. */
  lemma ComputeConstant<V, F>(n: Node<V, F>, evalF: (F, map<string, V>) -> Option<V>)
    requires n.kind.Number? || n.kind.NumberArray?
    requires forall j :: 0 <= j < |InputList(n)| ==> ComputeSpec(InputList(n)[j], evalF).Ok?
    ensures n.kind.Number? ==> ComputeSpec(n, evalF) == Ok(NodeOutput.Number(n.kind.number))
    ensures n.kind.NumberArray? ==> ComputeSpec(n, evalF) == Collapse(n.kind.numbers)
  {
    var ns := InputList(n);
    ComputeInputsOk(n, |ns|, evalF);
    var vals := ComputeInputs(n, |ns|, evalF).value;
    match n.kind {
      case Number(v) =>
        StepNumber(v, InputNames(ns), vals, evalF);
      case NumberArray(vs) =>
        StepNumberArray(vs, InputNames(ns), vals, evalF);
        if |vs| == 1 {
          assert vs == [vs[0]];
        }
    }
  }

  /**
   * A formula node whose inputs all compute is evaluated once per position of
   * the broadcast length, the largest normalised input length, against that
   * position's bindings; it fails with no output when that length is 0 and
   * as a failed evaluation when any position fails.
   */
  lemma ComputeFormula<V, F>(n: Node<V, F>, evalF: (F, map<string, V>) -> Option<V>)
    requires n.kind.Formula?
    requires forall j :: 0 <= j < |InputList(n)| ==> ComputeSpec(InputList(n)[j], evalF).Ok?
    ensures ComputeInputs(n, |InputList(n)|, evalF).Ok?
    ensures var vals := ComputeInputs(n, |InputList(n)|, evalF).value;
      var names := InputNames(InputList(n));
      var r := ComputeSpec(n, evalF);
      && (r.Ok? <==> MaxLen(vals) > 0 && EvaluatesAt(n.kind.formula, names, vals, MaxLen(vals), evalF))
      && (r.Err? ==> r.error == if MaxLen(vals) == 0 then NoOutput else FormulaEvaluationFailed)
      && (r.Ok? ==> |Normalize(r.value)| == MaxLen(vals)
                    && forall i :: 0 <= i < MaxLen(vals) ==> Some(Normalize(r.value)[i]) == evalF(n.kind.formula, Bindings(names, vals, i)))
  {
    ComputeInputsOk(n, |InputList(n)|, evalF);
    StepFormula(n.kind.formula, InputNames(InputList(n)), ComputeInputs(n, |InputList(n)|, evalF).value, evalF);
  }

  /** A node fresh from `from_formula` has no inputs, so computing it fails with no output. */
  lemma FreshFormulaHasNoOutput<V, F>(text: string, parse: string -> Option<F>, evalF: (F, map<string, V>) -> Option<V>)
    requires parse(text).Some?
    ensures FromFormula<V, F>(text, parse).Ok?
    ensures ComputeSpec(FromFormula<V, F>(text, parse).value, evalF) == Err(NoOutput)
  {
    ComputeFormula(FromFormula<V, F>(text, parse).value, evalF);
  }

  /** The numbers of a vector, unpacked one by one with `unpack`; any element that cannot be unpacked fails the whole. */
  function UnpackAll<V, R>(vs: seq<V>, unpack: V -> Option<R>): (r: Result<seq<R>, NodeError>)
    ensures r.Ok? <==> forall i :: 0 <= i < |vs| ==> unpack(vs[i]).Some?
    ensures r.Err? ==> r.error == CannotUnpack
    ensures r.Ok? ==> |r.value| == |vs| && forall i :: 0 <= i < |vs| ==> unpack(vs[i]) == Some(r.value[i])
  {
    if |vs| == 0 then Ok([])
    else
      match UnpackAll(vs[..|vs| - 1], unpack)
      case Err(e) => Err(e)
      case Ok(xs) =>
        match unpack(vs[|vs| - 1])
        case None => Err(CannotUnpack)
        case Some(x) => Ok(xs + [x])
  }

  /** `TryInto<f64>`: only a single number converts; a vector is refused. */
  function ToNumber<V, R>(o: NodeOutput<V>, unpack: V -> Option<R>): (r: Result<R, NodeError>)
    ensures o.NumberArray? ==> r == Err(VectorToNumber)
    ensures o.Number? ==> (r.Ok? <==> unpack(o.value).Some?)
    ensures r.Ok? ==> o.Number? && Some(r.value) == unpack(o.value)
  {
    match o
    case Number(v) => (match unpack(v) case None => Err(CannotUnpack) case Some(x) => Ok(x))
    case NumberArray(_) => Err(VectorToNumber)
  }

  /** `TryInto<Vec<f64>>`: only a vector converts; a single number is refused. */
  function ToNumbers<V, R>(o: NodeOutput<V>, unpack: V -> Option<R>): (r: Result<seq<R>, NodeError>)
    ensures o.Number? ==> r == Err(NumberToVector)
    ensures r.Ok? ==> o.NumberArray? && |r.value| == |o.values|
    ensures o.NumberArray? ==> r == UnpackAll(o.values, unpack)
  {
    match o
    case Number(_) => Err(NumberToVector)
    case NumberArray(vs) => UnpackAll(vs, unpack)
  }

  /**
   * A computed output converts to a number exactly when the computation
   * produced one value, and to a vector only when it produced two or more:
   * a one-element result can never be read back as a vector.
   */
  lemma ConvertComputed<V, F, R>(n: Node<V, F>, evalF: (F, map<string, V>) -> Option<V>, unpack: V -> Option<R>)
    requires ComputeSpec(n, evalF).Ok?
    ensures var out := Normalize(ComputeSpec(n, evalF).value);
      && (|out| == 1 <==> ToNumbers(ComputeSpec(n, evalF).value, unpack) == Err(NumberToVector))
      && (|out| >= 2 <==> ToNumber(ComputeSpec(n, evalF).value, unpack) == Err(VectorToNumber))
      && (|out| == 1 ==> ToNumber(ComputeSpec(n, evalF).value, unpack).Ok? == unpack(out[0]).Some?)
      && (|out| >= 2 ==> ToNumbers(ComputeSpec(n, evalF).value, unpack) == UnpackAll(out, unpack))
  {
    var o := ComputeSpec(n, evalF).value;
  }

  /** The inputs of the first formula of the owned-tree test compute to a one-element and a two-element sequence. */
  lemma ChainedFirstInputs<V, F>(a: V, b0: V, b1: V, f: F, evalF: (F, map<string, V>) -> Option<V>)
    ensures ComputeInputs(Node(2, SomeInputs([Node(0, NoInputs, NodeKind.Number(a)), Node(1, NoInputs, NodeKind.NumberArray([b0, b1]))]), Formula(f)), 2, evalF)
      == Ok([[a], [b0, b1]])
  {
    var n1 := Node(0, NoInputs, NodeKind.Number(a));
    var n2 := Node(1, NoInputs, NodeKind.NumberArray([b0, b1]));
    var n3 := Node(2, SomeInputs([n1, n2]), Formula(f));
    ComputeConstant(n1, evalF);
    ComputeConstant(n2, evalF);
    assert ComputeInputs(n3, 0, evalF) == Ok([]);
    assert Normalize(ComputeSpec(n1, evalF).value) == [a] && Normalize(ComputeSpec(n2, evalF).value) == [b0, b1];
    assert [] + [[a]] == [[a]] && [[a]] + [[b0, b1]] == [[a], [b0, b1]];
    assert ComputeInputs(n3, 1, evalF) == Ok([[a]]);
  }

  /** The first formula of the owned-tree test: the scalar "id0" is held while "id1" runs over the vector. */
  lemma ChainedFirst<V, F>(a: V, b0: V, b1: V, f: F, evalF: (F, map<string, V>) -> Option<V>, c0: V, c1: V)
    requires evalF(f, map["id0" := a, "id1" := b0]) == Some(c0)
    requires evalF(f, map["id0" := a, "id1" := b1]) == Some(c1)
    ensures ComputeSpec(Node(2, SomeInputs([Node(0, NoInputs, NodeKind.Number(a)), Node(1, NoInputs, NodeKind.NumberArray([b0, b1]))]), Formula(f)), evalF)
      == Ok(NodeOutput.NumberArray([c0, c1]))
  {
    var n1 := Node(0, NoInputs, NodeKind.Number(a));
    var n2 := Node(1, NoInputs, NodeKind.NumberArray([b0, b1]));
    var n3 := Node(2, SomeInputs([n1, n2]), Formula(f));
    var vals: seq<seq<V>> := [[a], [b0, b1]];
    ChainedFirstInputs(a, b0, b1, f, evalF);
    assert MaxLen(vals) == 2 by { assert vals[..1] == [[a]]; }
    assert InputNames(InputList(n3)) == ["id0", "id1"] by { SmallIdNames(); }
    BindingsTwo("id0", "id1", [a], [b0, b1], 0);
    BindingsTwo("id0", "id1", [a], [b0, b1], 1);
    StepFormulaTwo(f, ["id0", "id1"], vals, evalF, c0, c1);
  }

  /** The second formula of the owned-tree test, over a node with id 2 that yields two values. */
  lemma ChainedSecond<V, F>(n3: Node<V, F>, g: F, evalF: (F, map<string, V>) -> Option<V>, c0: V, c1: V, d0: V, d1: V)
    requires n3.id == 2 && ComputeSpec(n3, evalF) == Ok(NodeOutput.NumberArray([c0, c1]))
    requires evalF(g, map["id2" := c0]) == Some(d0)
    requires evalF(g, map["id2" := c1]) == Some(d1)
    ensures ComputeSpec(Node(3, SomeInputs([n3]), Formula(g)), evalF) == Ok(NodeOutput.NumberArray([d0, d1]))
  {
    var n4 := Node(3, SomeInputs([n3]), Formula(g));
    var vals: seq<seq<V>> := [[c0, c1]];
    assert ComputeInputs(n4, 1, evalF) == Ok(vals) by {
      assert ComputeInputs(n4, 0, evalF) == Ok([]);
      assert InputList(n4)[0] == n3 && Normalize(NodeOutput.NumberArray([c0, c1])) == [c0, c1];
      assert [] + [[c0, c1]] == vals;
    }
    assert MaxLen(vals) == 2;
    assert InputNames(InputList(n4)) == ["id2"] by { SmallIdNames(); }
    BindingsOne("id2", [c0, c1], 0);
    BindingsOne("id2", [c0, c1], 1);
    StepFormulaTwo(g, ["id2"], vals, evalF, d0, d1);
  }

  /** A two-element vector whose elements both unpack reads back as the two unpacked numbers. */
  lemma ReadTwo<V, R>(x: V, y: V, unpack: V -> Option<R>)
    requires unpack(x).Some? && unpack(y).Some?
    ensures ToNumbers(NodeOutput.NumberArray([x, y]), unpack) == Ok([unpack(x).value, unpack(y).value])
  {
    var r := UnpackAll([x, y], unpack);
    assert r.Ok? && |r.value| == 2;
    assert unpack(x) == Some(r.value[0]) && unpack(y) == Some(r.value[1]);
    assert r.value == [unpack(x).value, unpack(y).value];
  }

  /**
   * The test of the owned tree: a formula over a number and a two-element
   * vector yields a two-element vector that reads back as a vector, and a
   * formula over that node yields a two-element vector again.
   */
  lemma ChainedBroadcast<V, F, R>(a: V, b0: V, b1: V, t3: string, t4: string, parse: string -> Option<F>,
                                  evalF: (F, map<string, V>) -> Option<V>, unpack: V -> Option<R>,
                                  c0: V, c1: V, d0: V, d1: V)
    requires parse(t3).Some? && parse(t4).Some?
    requires evalF(parse(t3).value, map["id0" := a, "id1" := b0]) == Some(c0)
    requires evalF(parse(t3).value, map["id0" := a, "id1" := b1]) == Some(c1)
    requires evalF(parse(t4).value, map["id2" := c0]) == Some(d0)
    requires evalF(parse(t4).value, map["id2" := c1]) == Some(d1)
    requires unpack(c0).Some? && unpack(c1).Some? && unpack(d0).Some? && unpack(d1).Some?
    ensures FromFormula<V, F>(t3, parse).Ok? && FromFormula<V, F>(t4, parse).Ok?
    ensures var n1 := Node(0, NoInputs, NodeKind.Number(a));
      var n2 := Node(1, NoInputs, NodeKind.NumberArray([b0, b1]));
      var n3 := FromFormula<V, F>(t3, parse).value.(id := 2, inputs := SomeInputs([n1, n2]));
      var n4 := FromFormula<V, F>(t4, parse).value.(id := 3, inputs := SomeInputs([n3]));
      && ComputeSpec(n3, evalF) == Ok(NodeOutput.NumberArray([c0, c1]))
      && ToNumbers(ComputeSpec(n3, evalF).value, unpack) == Ok([unpack(c0).value, unpack(c1).value])
      && ComputeSpec(n4, evalF) == Ok(NodeOutput.NumberArray([d0, d1]))
      && ToNumbers(ComputeSpec(n4, evalF).value, unpack) == Ok([unpack(d0).value, unpack(d1).value])
  {
    var n1 := Node(0, NoInputs, NodeKind.Number(a));
    var n2 := Node(1, NoInputs, NodeKind.NumberArray([b0, b1]));
    var n3 := FromFormula<V, F>(t3, parse).value.(id := 2, inputs := SomeInputs([n1, n2]));
    var n4 := FromFormula<V, F>(t4, parse).value.(id := 3, inputs := SomeInputs([n3]));
    assert n3 == Node(2, SomeInputs([n1, n2]), Formula(parse(t3).value));
    assert n4 == Node(3, SomeInputs([n3]), Formula(parse(t4).value));
    assert ComputeSpec(n3, evalF) == Ok(NodeOutput.NumberArray([c0, c1])) by {
      ChainedFirst(a, b0, b1, parse(t3).value, evalF, c0, c1);
    }
    assert ComputeSpec(n4, evalF) == Ok(NodeOutput.NumberArray([d0, d1])) by {
      ChainedSecond(n3, parse(t4).value, evalF, c0, c1, d0, d1);
    }
    ReadTwo(c0, c1, unpack);
    ReadTwo(d0, d1, unpack);
  }
}
