/**
 * The part of node evaluation that the three evaluators of the repository
 * share once the inputs have been evaluated: normalising each input to a
 * sequence, the broadcast length, the per-position binding context with its
 * ragged repeat, the per-kind output loop and the final collapse into a
 * scalar or a sequence.
 */
module Broadcast {
  import opened Outcomes
  import opened Names

  /** What a node computes. `V` is the type of one numeric value, `F` that of a parsed formula. */
  datatype NodeKind<V, F> =
    | Number(number: V)
    | NumberArray(numbers: seq<V>)
    | Formula(formula: F)
    | SqlQuery(query: string)

  /** The value of an evaluated node: one value or a sequence of values. */
  datatype NodeOutput<V> = Number(value: V) | NumberArray(values: seq<V>)

  /** Why an evaluation failed. */
  datatype EvalError =
    | FormulaEvaluationFailed  // the expression evaluator rejected a binding context
    | NoOutput                 // the output loop produced no value
    | QueryNotImplemented      // an SQL query node reached its unimplemented branch

  /** An output as a sequence: a single value becomes a one-element sequence. */
  function Normalize<V>(o: NodeOutput<V>): seq<V> {
    match o
    case Number(v) => [v]
    case NumberArray(vs) => vs
  }

  /** The shape every successful evaluation has: a scalar, or a sequence of at least two values. */
  predicate Canonical<V>(o: NodeOutput<V>) {
    o.Number? || |o.values| >= 2
  }

  /** The final step of an evaluation: no value is an error, one value a scalar, more a sequence. */
  function Collapse<V>(out: seq<V>): (r: Result<NodeOutput<V>, EvalError>)
    ensures r.Err? <==> |out| == 0
    ensures r.Err? ==> r.error == NoOutput
    ensures r.Ok? ==> Normalize(r.value) == out && Canonical(r.value)
    ensures r.Ok? ==> (r.value.Number? <==> |out| == 1)
  {
    if |out| == 0 then Err(NoOutput)
    else if |out| == 1 then Ok(NodeOutput.Number(out[0]))
    else Ok(NodeOutput.NumberArray(out))
  }

  /** Collapsing a canonical output's sequence gives the output back. */
  lemma CollapseNormalize<V>(o: NodeOutput<V>)
    requires Canonical(o)
    ensures Collapse(Normalize(o)) == Ok(o)
  {
  }

  /** The evaluated inputs of a node: one name and one non-empty sequence per input. */
  predicate Ready<V>(names: seq<string>, vals: seq<seq<V>>) {
    |names| == |vals| && forall j :: 0 <= j < |vals| ==> |vals[j]| > 0
  }

  /** The broadcast length: the largest input length, 0 when there are no inputs. */
  function MaxLen<V>(vals: seq<seq<V>>): (m: nat)
    ensures forall j :: 0 <= j < |vals| ==> |vals[j]| <= m
    ensures |vals| == 0 ==> m == 0
    ensures |vals| > 0 ==> exists j :: 0 <= j < |vals| && |vals[j]| == m
  {
    if |vals| == 0 then 0
    else
      var m, l := MaxLen(vals[..|vals| - 1]), |vals[|vals| - 1]|;
      assert forall j :: 0 <= j < |vals| - 1 ==> vals[..|vals| - 1][j] == vals[j];
      if m < l then l else m
  }

  /** The broadcast length grows by one input as the maximum of the old length and the new input's. */
  lemma {:induction false} MaxLenSnoc<V>(vals: seq<seq<V>>, column: seq<V>)
    ensures MaxLen(vals + [column]) == if MaxLen(vals) < |column| then |column| else MaxLen(vals)
  {
    assert (vals + [column])[..|vals|] == vals;
  }

  /** The value an input supplies at position `i`: its own element, or its last one once it is exhausted. */
  function Pick<V>(s: seq<V>, i: nat): V
    requires |s| > 0
  {
    if i < |s| then s[i] else s[|s| - 1]
  }

  /** No later input carries the same name as input `j`, so its binding is the one that survives. */
  predicate LastWith(names: seq<string>, j: int)
    requires 0 <= j < |names|
  {
    forall k :: j < k < |names| ==> names[k] != names[j]
  }

  /**
   * The binding context for position `i`: each input's value bound under its
   * name, in input order, so that a later input with the same name wins.
   */
  function Bindings<V>(names: seq<string>, vals: seq<seq<V>>, i: nat): (ctx: map<string, V>)
    requires Ready(names, vals)
    ensures forall j :: 0 <= j < |names| ==> names[j] in ctx
    ensures |names| > 0 ==> ctx[names[|names| - 1]] == Pick(vals[|names| - 1], i)
  {
    if |names| == 0 then map[]
    else
      var n := |names| - 1;
      assert forall j :: 0 <= j < n ==> names[..n][j] == names[j];
      Bindings(names[..n], vals[..n], i)[names[n] := Pick(vals[n], i)]
  }

  /** The context binds exactly the inputs' names. */
  lemma {:induction false} BindingsKeys<V>(names: seq<string>, vals: seq<seq<V>>, i: nat)
    requires Ready(names, vals)
    ensures forall key :: key in Bindings(names, vals, i) <==> key in names
  {
    if |names| > 0 {
      var n := |names| - 1;
      BindingsKeys(names[..n], vals[..n], i);
      assert names == names[..n] + [names[n]];
    }
  }

  /** An input that no later input shadows is bound to its value at position `i`. */
  lemma {:induction false} BindingsAt<V>(names: seq<string>, vals: seq<seq<V>>, i: nat, j: nat)
    requires Ready(names, vals) && j < |names| && LastWith(names, j)
    ensures names[j] in Bindings(names, vals, i) && Bindings(names, vals, i)[names[j]] == Pick(vals[j], i)
  {
    var n := |names| - 1;
    if j < n {
      assert names[..n][j] == names[j] && vals[..n][j] == vals[j];
      assert LastWith(names[..n], j);
      BindingsAt(names[..n], vals[..n], i, j);
      assert names[n] != names[j];
    }
  }

  /**
   * The context binds exactly the inputs' names, and an input that no later
   * input shadows is bound to its value at position `i`, held at its last
   * value once the input is exhausted.
   */
  lemma BindingsSpec<V>(names: seq<string>, vals: seq<seq<V>>, i: nat)
    requires Ready(names, vals)
    ensures forall key :: key in Bindings(names, vals, i) <==> key in names
    ensures forall j :: 0 <= j < |names| && LastWith(names, j) ==> Bindings(names, vals, i)[names[j]] == Pick(vals[j], i)
  {
    BindingsKeys(names, vals, i);
    forall j | 0 <= j < |names| && LastWith(names, j)
      ensures Bindings(names, vals, i)[names[j]] == Pick(vals[j], i)
    {
      BindingsAt(names, vals, i, j);
    }
  }

  /** The context of a single input. */
  lemma BindingsOne<V>(n0: string, v0: seq<V>, i: nat)
    requires |v0| > 0
    ensures Bindings([n0], [v0], i) == map[n0 := Pick(v0, i)]
  {
    assert [n0][..0] == [] && [v0][..0] == [];
  }

  /** The context of two inputs. */
  lemma BindingsTwo<V>(n0: string, n1: string, v0: seq<V>, v1: seq<V>, i: nat)
    requires |v0| > 0 && |v1| > 0
    ensures Bindings([n0, n1], [v0, v1], i) == map[n0 := Pick(v0, i), n1 := Pick(v1, i)]
  {
    assert [n0, n1][..1] == [n0] && [v0, v1][..1] == [v0];
    BindingsOne(n0, v0, i);
  }

  /** The number of times the output loop runs: 1 for constant kinds, the broadcast length otherwise. */
  function LoopLen<V, F>(kind: NodeKind<V, F>, vals: seq<seq<V>>): nat {
    if kind.Number? || kind.NumberArray? then 1 else MaxLen(vals)
  }

  /** The values the output loop has collected after its first `n` rounds, or the error that stopped it. */
  function Positions<V, F>(kind: NodeKind<V, F>, names: seq<string>, vals: seq<seq<V>>, n: nat,
                           evalF: (F, map<string, V>) -> Option<V>): Result<seq<V>, EvalError>
    requires Ready(names, vals)
  {
    if n == 0 then Ok([])
    else
      match Positions(kind, names, vals, n - 1, evalF)
      case Err(e) => Err(e)
      case Ok(out) =>
        match kind
        case Number(v) => Ok(out + [v])
        case NumberArray(vs) => Ok(out + vs)
        case Formula(f) =>
          (match evalF(f, Bindings(names, vals, n - 1))
           case None => Err(FormulaEvaluationFailed)
           case Some(x) => Ok(out + [x]))
        case SqlQuery(_) => Err(QueryNotImplemented)
  }

  /**
   * The output loop never fails for a constant kind, fails for a query as soon
   * as it runs, and otherwise fails only as a failed evaluation; a scalar or
   * formula kind collects one value per round, a vector kind its whole vector.
   */
  lemma {:induction false} PositionsShape<V, F>(kind: NodeKind<V, F>, names: seq<string>, vals: seq<seq<V>>, n: nat,
                                                evalF: (F, map<string, V>) -> Option<V>)
    requires Ready(names, vals)
    ensures var r := Positions(kind, names, vals, n, evalF);
      && (kind.Number? || kind.NumberArray? ==> r.Ok?)
      && (kind.SqlQuery? ==> (r.Ok? <==> n == 0))
      && (r.Err? ==> r.error == if kind.SqlQuery? then QueryNotImplemented else FormulaEvaluationFailed)
      && (r.Ok? && !kind.NumberArray? ==> |r.value| == n)
      && (r.Ok? && kind.NumberArray? ==> |r.value| == n * |kind.numbers|)
  {
    if n > 0 {
      PositionsShape(kind, names, vals, n - 1, evalF);
      if kind.NumberArray? {
        assert (n - 1) * |kind.numbers| + |kind.numbers| == n * |kind.numbers|;
      }
    }
  }

  /** Evaluating a node of kind `kind` once its inputs have produced `vals` under `names`. */
  function Step<V, F>(kind: NodeKind<V, F>, names: seq<string>, vals: seq<seq<V>>,
                      evalF: (F, map<string, V>) -> Option<V>): Result<NodeOutput<V>, EvalError>
    requires Ready(names, vals)
  {
    match Positions(kind, names, vals, LoopLen(kind, vals), evalF)
    case Err(e) => Err(e)
    case Ok(out) => Collapse(out)
  }

  /** Once a round of the output loop fails, the whole loop fails with that error. */
  lemma {:induction false} PositionsSticky<V, F>(kind: NodeKind<V, F>, names: seq<string>, vals: seq<seq<V>>,
                                                 i: nat, n: nat, evalF: (F, map<string, V>) -> Option<V>)
    requires Ready(names, vals) && i <= n
    requires Positions(kind, names, vals, i, evalF).Err?
    ensures Positions(kind, names, vals, n, evalF) == Positions(kind, names, vals, i, evalF)
    decreases n
  {
    if i < n {
      PositionsSticky(kind, names, vals, i, n - 1, evalF);
    }
  }

  /** Formula `f` evaluates at each of the first `n` positions. */
  predicate EvaluatesAt<V, F>(f: F, names: seq<string>, vals: seq<seq<V>>, n: nat, evalF: (F, map<string, V>) -> Option<V>)
    requires Ready(names, vals)
  {
    forall i :: 0 <= i < n ==> evalF(f, Bindings(names, vals, i)).Some?
  }

  /** A formula's output loop succeeds exactly when every position evaluates, and otherwise fails as a failed evaluation. */
  lemma {:induction false} FormulaPositionsOkIff<V, F>(f: F, names: seq<string>, vals: seq<seq<V>>, n: nat,
                                                       evalF: (F, map<string, V>) -> Option<V>)
    requires Ready(names, vals)
    ensures Positions(Formula(f), names, vals, n, evalF).Ok? <==> EvaluatesAt(f, names, vals, n, evalF)
    ensures Positions(Formula(f), names, vals, n, evalF).Err? ==> Positions(Formula(f), names, vals, n, evalF).error == FormulaEvaluationFailed
  {
    if n > 0 {
      FormulaPositionsOkIff(f, names, vals, n - 1, evalF);
      var prev := Positions(Formula(f), names, vals, n - 1, evalF);
      var x := evalF(f, Bindings(names, vals, n - 1));
      var r := Positions(Formula(f), names, vals, n, evalF);
      if prev.Err? {
        assert r == prev;
        var i :| 0 <= i < n - 1 && !evalF(f, Bindings(names, vals, i)).Some?;
        assert !EvaluatesAt(f, names, vals, n, evalF);
      } else if x.None? {
        assert r == Err(FormulaEvaluationFailed);
        assert !EvaluatesAt(f, names, vals, n, evalF);
      } else {
        assert r.Ok?;
        forall i | 0 <= i < n
          ensures evalF(f, Bindings(names, vals, i)).Some?
        {
          if i < n - 1 {
            assert EvaluatesAt(f, names, vals, n - 1, evalF);
          }
        }
      }
    }
  }

  /** When a formula's output loop succeeds it holds one value per position, each the evaluation against that position's bindings. */
  lemma {:induction false} FormulaPositionsValues<V, F>(f: F, names: seq<string>, vals: seq<seq<V>>, n: nat,
                                                        evalF: (F, map<string, V>) -> Option<V>)
    requires Ready(names, vals) && Positions(Formula(f), names, vals, n, evalF).Ok?
    ensures |Positions(Formula(f), names, vals, n, evalF).value| == n
    ensures forall i :: 0 <= i < n ==> Some(Positions(Formula(f), names, vals, n, evalF).value[i]) == evalF(f, Bindings(names, vals, i))
  {
    if n > 0 {
      var prev := Positions(Formula(f), names, vals, n - 1, evalF);
      var x := evalF(f, Bindings(names, vals, n - 1));
      var r := Positions(Formula(f), names, vals, n, evalF).value;
      assert prev.Ok? && x.Some? && r == prev.value + [x.value];
      FormulaPositionsValues(f, names, vals, n - 1, evalF);
      forall i | 0 <= i < n - 1
        ensures r[i] == prev.value[i]
      {
      }
    }
  }

  /** A `Number` node yields its own value, whatever its inputs produced. */
  lemma StepNumber<V, F>(v: V, names: seq<string>, vals: seq<seq<V>>, evalF: (F, map<string, V>) -> Option<V>)
    requires Ready(names, vals)
    ensures Step(NodeKind.Number(v), names, vals, evalF) == Ok(NodeOutput.Number(v))
  {
    assert Positions(NodeKind.Number(v), names, vals, 0, evalF) == Ok([]);
    assert [] + [v] == [v];
  }

  /**
   * A `NumberArray` node yields its stored sequence once, whatever its inputs
   * produced: an empty one is an error and a one-element one becomes a scalar.
   */
  lemma StepNumberArray<V, F>(vs: seq<V>, names: seq<string>, vals: seq<seq<V>>, evalF: (F, map<string, V>) -> Option<V>)
    requires Ready(names, vals)
    ensures |vs| == 0 ==> Step(NodeKind.NumberArray(vs), names, vals, evalF) == Err(NoOutput)
    ensures |vs| == 1 ==> Step(NodeKind.NumberArray(vs), names, vals, evalF) == Ok(NodeOutput.Number(vs[0]))
    ensures |vs| >= 2 ==> Step(NodeKind.NumberArray(vs), names, vals, evalF) == Ok(NodeOutput.NumberArray(vs))
  {
    assert Positions(NodeKind.NumberArray(vs), names, vals, 1, evalF) == Ok([] + vs);
    assert [] + vs == vs;
  }

  /**
   * A formula is evaluated once per position of the broadcast length, against
   * that position's bindings; it fails when there is no position at all or
   * when any evaluation fails.
   */
  lemma StepFormula<V, F>(f: F, names: seq<string>, vals: seq<seq<V>>, evalF: (F, map<string, V>) -> Option<V>)
    requires Ready(names, vals)
    ensures var r := Step(Formula(f), names, vals, evalF);
      && (r.Ok? <==> MaxLen(vals) > 0 && EvaluatesAt(f, names, vals, MaxLen(vals), evalF))
      && (r.Err? ==> r.error == if MaxLen(vals) == 0 then NoOutput else FormulaEvaluationFailed)
      && (r.Ok? ==> |Normalize(r.value)| == MaxLen(vals)
                    && forall i :: 0 <= i < MaxLen(vals) ==> Some(Normalize(r.value)[i]) == evalF(f, Bindings(names, vals, i)))
  {
    FormulaPositionsOkIff(f, names, vals, MaxLen(vals), evalF);
    if Positions(Formula(f), names, vals, MaxLen(vals), evalF).Ok? {
      FormulaPositionsValues(f, names, vals, MaxLen(vals), evalF);
    }
  }

  /** A formula over a broadcast length of two, evaluating to `x0` and `x1` at the two positions, yields the vector of both. */
  lemma StepFormulaTwo<V, F>(f: F, names: seq<string>, vals: seq<seq<V>>, evalF: (F, map<string, V>) -> Option<V>, x0: V, x1: V)
    requires Ready(names, vals) && MaxLen(vals) == 2
    requires evalF(f, Bindings(names, vals, 0)) == Some(x0)
    requires evalF(f, Bindings(names, vals, 1)) == Some(x1)
    ensures Step(Formula(f), names, vals, evalF) == Ok(NodeOutput.NumberArray([x0, x1]))
  {
    assert Positions(Formula(f), names, vals, 0, evalF) == Ok([]);
    assert [] + [x0] == [x0] && [x0] + [x1] == [x0, x1];
    assert Positions(Formula(f), names, vals, 1, evalF) == Ok([x0]);
    assert Positions(Formula(f), names, vals, 2, evalF) == Ok([x0, x1]);
  }

  /** A query node fails as unimplemented as soon as its output loop runs; with no inputs it produces no output. */
  lemma {:induction false} StepQuery<V, F>(q: string, names: seq<string>, vals: seq<seq<V>>, evalF: (F, map<string, V>) -> Option<V>)
    requires Ready(names, vals)
    ensures Step(SqlQuery(q), names, vals, evalF) == Err(if MaxLen(vals) == 0 then NoOutput else QueryNotImplemented)
  {
    if MaxLen(vals) > 0 {
      PositionsSticky(SqlQuery(q), names, vals, 1, MaxLen(vals), evalF);
    }
  }

  /**
   * The binding loop for position `i`: each input's value at `i`, or its last
   * value once it is exhausted, set under its name in input order.
   */
  method BindAt<V>(names: seq<string>, vals: seq<seq<V>>, i: nat) returns (args: map<string, V>)
    requires Ready(names, vals)
    ensures args == Bindings(names, vals, i)
  {
    args := map[];
    for j := 0 to |names|
      invariant args == Bindings(names[..j], vals[..j], i)
    {
      var column := vals[j];
      var x := if i < |column| then column[i] else column[|column| - 1];
      assert names[..j + 1][..j] == names[..j] && vals[..j + 1][..j] == vals[..j];
      args := args[names[j] := x];
    }
    assert names[..|names|] == names && vals[..|vals|] == vals;
  }

  /**
   * The output loop of an evaluation, once the inputs have been evaluated to
   * `vals` under `names` and their largest length `maxLen` has been found.
   */
  method Combine<V, F>(kind: NodeKind<V, F>, names: seq<string>, vals: seq<seq<V>>, maxLen: nat,
                       evalF: (F, map<string, V>) -> Option<V>) returns (r: Result<NodeOutput<V>, EvalError>)
    requires Ready(names, vals) && maxLen == MaxLen(vals)
    ensures r == Step(kind, names, vals, evalF)
  {
    var len := maxLen;
    if kind.Number? || kind.NumberArray? {
      len := 1;
    }
    var out: seq<V> := [];
    for i := 0 to len
      invariant Positions(kind, names, vals, i, evalF) == Ok(out)
    {
      match kind {
        case Number(v) =>
          out := out + [v];
        case NumberArray(vs) =>
          out := out + vs;
        case Formula(f) =>
          var args := BindAt(names, vals, i);
          var res := evalF(f, args);
          if res.None? {
            PositionsSticky(kind, names, vals, i + 1, len, evalF);
            return Err(FormulaEvaluationFailed);
          }
          out := out + [res.value];
        case SqlQuery(_) =>
          PositionsSticky(kind, names, vals, i + 1, len, evalF);
          return Err(QueryNotImplemented);
      }
    }
    if |out| == 0 {
      r := Err(NoOutput);
    } else if |out| == 1 {
      r := Ok(NodeOutput.Number(out[0]));
    } else {
      r := Ok(NodeOutput.NumberArray(out));
    }
  }
}
