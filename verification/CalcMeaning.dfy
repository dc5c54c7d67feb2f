/**
 What the calculator's rows mean: values of expressions over rows that may
 refer to each other, also in circles. A row being evaluated is never entered
 again; here that is the set `busy`, and there is no depth limit.
 */
module CalcMeaning {
  import opened Wrappers

  type Name = string

  datatype Expr<V> =
    | Number(value: V)
    | Variable(name: Name)
    | Unary(op: char, child: Expr<V>)
    | Binary(op: char, left: Expr<V>, right: Expr<V>)
    | Call(name: Name, args: seq<Expr<V>>)

  /** The floating-point arithmetic and the built-in functions. */
  datatype Arithmetic<!V> = Arithmetic(
    pi: V,
    e: V,
    negate: V -> V,
    binary: (char, V, V) -> V,
    builtin: (Name, seq<V>) -> Option<V>,
    finite: V -> bool)

  datatype Kind = EmptyRow | ValueRow | VariableRow | FunctionRow | GraphRow

  /** What parsing leaves of a row's text. */
  datatype Def<V> = Def(kind: Kind, name: Name, compiled: bool, expr: Expr<V>)

  datatype EvalError = TooDeep | UnknownVariable | UnknownFunction | OutsideDomain

  /** A value, an error, or a row that was not entered. */
  datatype Outcome<V> = Value(value: V) | Fail(error: EvalError) | Refused

  datatype Sheet<!V> = Sheet(arithmetic: Arithmetic<V>, defs: seq<Def<V>>)

  const NODE_DEPTH_MAX := 24

  function Indices(n: nat): (all: set<nat>)
    ensures forall i: nat :: i in all <==> i < n
  {
    if n == 0 then {} else Indices(n - 1) + {n - 1}
  }

  /** The rows that may still be entered bound the nesting of evaluations. */
  ghost function Free<V>(s: Sheet<V>, busy: set<nat>): nat {
    |Indices(|s.defs|) - busy|
  }

  lemma EnteringUses<V>(s: Sheet<V>, busy: set<nat>, i: nat)
    requires i < |s.defs| && i !in busy
    ensures Free(s, busy + {i}) < Free(s, busy)
  {
    var all := Indices(|s.defs|);
    assert all - busy == (all - (busy + {i})) + {i};
  }

  /** calc_eval_row */
  function EvalRow<V>(s: Sheet<V>, busy: set<nat>, x: Option<V>, i: nat): Outcome<V>
    decreases Free(s, busy), 0
  {
    if i >= |s.defs| || !s.defs[i].compiled || i in busy then Refused
    else
      EnteringUses(s, busy, i);
      InDomain(s, EvalExpr(s, busy + {i}, x, s.defs[i].expr, 0))
  }

  /** solar_os_expr_evaluate refuses results that are not finite. */
  function InDomain<V>(s: Sheet<V>, r: Outcome<V>): Outcome<V> {
    if r.Value? && !s.arithmetic.finite(r.value) then Fail(OutsideDomain) else r
  }

  /** expr_eval_node */
  function EvalExpr<V>(s: Sheet<V>, busy: set<nat>, x: Option<V>, e: Expr<V>, depth: nat): (r: Outcome<V>)
    ensures !r.Refused?
    decreases Free(s, busy), 2, e
  {
    if depth > NODE_DEPTH_MAX then Fail(TooDeep)
    else
      match e
      case Number(v) => Value(v)
      case Variable(name) =>
        if name == "pi" then Value(s.arithmetic.pi)
        else if name == "e" then Value(s.arithmetic.e)
        else if name == "x" && x.Some? then Value(x.value)
        else
          var v := FindVariable(s, busy, x, name, |s.defs|);
          if v.Some? then Value(v.value) else Fail(UnknownVariable)
      case Unary(op, child) =>
        var c := EvalExpr(s, busy, x, child, depth + 1);
        if c.Fail? then c else Value(if op == '-' then s.arithmetic.negate(c.value) else c.value)
      case Binary(op, left, right) =>
        var l := EvalExpr(s, busy, x, left, depth + 1);
        if l.Fail? then l
        else
          var r := EvalExpr(s, busy, x, right, depth + 1);
          if r.Fail? then r else Value(s.arithmetic.binary(op, l.value, r.value))
      case Call(name, args) =>
        match EvalArgs(s, busy, x, e, depth, |args|)
        case Failure(error) => Fail(error)
        case Success(vs) => Applied(s, name, vs, FindFunction(s, busy, name, vs, |s.defs|))
  }

  /** A call: a built-in function comes first, then the rows. */
  function Applied<V>(s: Sheet<V>, name: Name, vs: seq<V>, own: Option<V>): (r: Outcome<V>)
    ensures !r.Refused?
  {
    if s.arithmetic.builtin(name, vs).Some? then Value(s.arithmetic.builtin(name, vs).value)
    else if own.Some? then Value(own.value)
    else Fail(UnknownFunction)
  }

  /** The first k arguments of a call, from left to right. */
  function EvalArgs<V>(s: Sheet<V>, busy: set<nat>, x: Option<V>, e: Expr<V>, depth: nat, k: nat)
    : (r: Result<seq<V>, EvalError>)
    requires e.Call? && k <= |e.args|
    ensures r.Success? ==> |r.value| == k
    decreases Free(s, busy), 2, e, k
  {
    if k == 0 then Success([])
    else
      var before := EvalArgs(s, busy, x, e, depth, k - 1);
      if before.Failure? then before
      else
        match EvalExpr(s, busy, x, e.args[k - 1], depth + 1)
        case Value(v) => Success(before.value + [v])
        case Fail(error) => Failure(error)
  }

  /** calc_lookup_variable: the last row of that name that has a value. */
  function FindVariable<V>(s: Sheet<V>, busy: set<nat>, x: Option<V>, name: Name, k: nat): Option<V>
    requires k <= |s.defs|
    decreases Free(s, busy), 1, k
  {
    if k == 0 then None
    else if s.defs[k - 1].kind == VariableRow && s.defs[k - 1].name == name then
      match EvalRow(s, busy, x, k - 1)
      case Value(v) => Some(v)
      case _ => FindVariable(s, busy, x, name, k - 1)
    else FindVariable(s, busy, x, name, k - 1)
  }

  /** calc_lookup_function: the last one-argument function row of that name that has a value. */
  function FindFunction<V>(s: Sheet<V>, busy: set<nat>, name: Name, vs: seq<V>, k: nat): Option<V>
    requires k <= |s.defs|
    decreases Free(s, busy), 1, k
  {
    if |vs| != 1 || k == 0 then None
    else if s.defs[k - 1].kind == FunctionRow && s.defs[k - 1].name == name then
      match EvalRow(s, busy, Some(vs[0]), k - 1)
      case Value(v) => Some(v)
      case _ => FindFunction(s, busy, name, vs, k - 1)
    else FindFunction(s, busy, name, vs, k - 1)
  }

  /** The result shown for a row: values and variables are computed, other kinds are not. */
  function Shown<V>(s: Sheet<V>, i: nat): Option<V>
    requires i < |s.defs|
  {
    if s.defs[i].kind in {ValueRow, VariableRow} then
      match EvalRow(s, {}, None, i)
      case Value(v) => Some(v)
      case _ => None
    else None
  }
}
