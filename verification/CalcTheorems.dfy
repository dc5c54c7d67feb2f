/** When rows do not refer to each other in circles, the `visiting` flags change nothing. */
module CalcTheorems {
  import opened Wrappers
  import opened CalcMeaning

  /** Row j may supply the value or the function that an expression names. */
  predicate Supplies<V>(d: Def<V>, isFunction: bool, name: Name) {
    d.name == name && d.kind == if isFunction then FunctionRow else VariableRow
  }

  /** Every row the expression may look up ranks below `bound`. */
  ghost predicate Below<V>(s: Sheet<V>, rank: seq<nat>, bound: nat, e: Expr<V>)
    requires |rank| == |s.defs|
  {
    match e
    case Number(_) => true
    case Variable(name) => NamesBelow(s, rank, bound, false, name)
    case Unary(_, child) => Below(s, rank, bound, child)
    case Binary(_, left, right) => Below(s, rank, bound, left) && Below(s, rank, bound, right)
    case Call(name, args) =>
      NamesBelow(s, rank, bound, true, name) && forall i :: 0 <= i < |args| ==> Below(s, rank, bound, args[i])
  }

  ghost predicate NamesBelow<V>(s: Sheet<V>, rank: seq<nat>, bound: nat, isFunction: bool, name: Name)
    requires |rank| == |s.defs|
  {
    forall j :: 0 <= j < |s.defs| && Supplies(s.defs[j], isFunction, name) ==> rank[j] < bound
  }

  /** The rows can be ranked so that each looks up only rows of lower rank. */
  ghost predicate Layered<V>(s: Sheet<V>, rank: seq<nat>) {
    |rank| == |s.defs| && forall i :: 0 <= i < |s.defs| ==> Below(s, rank, rank[i], s.defs[i].expr)
  }

  /** No row of rank below `bound` is being evaluated. */
  ghost predicate IdleBelow(rank: seq<nat>, bound: nat, busy: set<nat>) {
    forall j :: j in busy && j < |rank| ==> rank[j] >= bound
  }

  lemma {:induction false} SameRow<V>(s: Sheet<V>, rank: seq<nat>, a: set<nat>, b: set<nat>, x: Option<V>, i: nat)
    requires Layered(s, rank) && i < |s.defs|
    requires IdleBelow(rank, rank[i] + 1, a) && IdleBelow(rank, rank[i] + 1, b)
    ensures EvalRow(s, a, x, i) == EvalRow(s, b, x, i)
    decreases rank[i] + 1, 0
  {
    assert i !in a && i !in b;
    if s.defs[i].compiled {
      SameExpr(s, rank, rank[i], a + {i}, b + {i}, x, s.defs[i].expr, 0);
    }
  }

  lemma {:induction false} SameExpr<V>(s: Sheet<V>, rank: seq<nat>, bound: nat, a: set<nat>, b: set<nat>,
                                       x: Option<V>, e: Expr<V>, depth: nat)
    requires Layered(s, rank) && Below(s, rank, bound, e)
    requires IdleBelow(rank, bound, a) && IdleBelow(rank, bound, b)
    ensures EvalExpr(s, a, x, e, depth) == EvalExpr(s, b, x, e, depth)
    decreases bound, 2, e
  {
    match e
    case Number(_) =>
    case Variable(name) =>
      SameVariable(s, rank, bound, a, b, x, name, |s.defs|);
    case Unary(_, child) =>
      SameExpr(s, rank, bound, a, b, x, child, depth + 1);
    case Binary(_, left, right) =>
      SameExpr(s, rank, bound, a, b, x, left, depth + 1);
      SameExpr(s, rank, bound, a, b, x, right, depth + 1);
    case Call(name, args) =>
      SameCall(s, rank, bound, a, b, x, e, depth);
  }

  lemma {:induction false} SameCall<V>(s: Sheet<V>, rank: seq<nat>, bound: nat, a: set<nat>, b: set<nat>,
                                       x: Option<V>, e: Expr<V>, depth: nat)
    requires Layered(s, rank) && Below(s, rank, bound, e) && e.Call?
    requires IdleBelow(rank, bound, a) && IdleBelow(rank, bound, b)
    ensures EvalExpr(s, a, x, e, depth) == EvalExpr(s, b, x, e, depth)
    decreases bound, 2, e, |e.args| + 1
  {
    SameArgs(s, rank, bound, a, b, x, e, depth, |e.args|);
    var vs := EvalArgs(s, a, x, e, depth, |e.args|);
    if vs.Success? {
      SameFunction(s, rank, bound, a, b, e.name, vs.value, |s.defs|);
    }
  }

  lemma {:induction false} SameArgs<V>(s: Sheet<V>, rank: seq<nat>, bound: nat, a: set<nat>, b: set<nat>,
                                       x: Option<V>, e: Expr<V>, depth: nat, k: nat)
    requires Layered(s, rank) && e.Call? && k <= |e.args| && Below(s, rank, bound, e)
    requires IdleBelow(rank, bound, a) && IdleBelow(rank, bound, b)
    ensures EvalArgs(s, a, x, e, depth, k) == EvalArgs(s, b, x, e, depth, k)
    decreases bound, 2, e, k
  {
    if k > 0 {
      SameArgs(s, rank, bound, a, b, x, e, depth, k - 1);
      SameExpr(s, rank, bound, a, b, x, e.args[k - 1], depth + 1);
    }
  }

  lemma {:induction false} SameVariable<V>(s: Sheet<V>, rank: seq<nat>, bound: nat, a: set<nat>, b: set<nat>,
                                           x: Option<V>, name: Name, k: nat)
    requires Layered(s, rank) && k <= |s.defs| && NamesBelow(s, rank, bound, false, name)
    requires IdleBelow(rank, bound, a) && IdleBelow(rank, bound, b)
    ensures FindVariable(s, a, x, name, k) == FindVariable(s, b, x, name, k)
    decreases bound, 1, k
  {
    if k > 0 {
      SameVariable(s, rank, bound, a, b, x, name, k - 1);
      if Supplies(s.defs[k - 1], false, name) {
        SameRow(s, rank, a, b, x, k - 1);
      }
    }
  }

  lemma {:induction false} SameFunction<V>(s: Sheet<V>, rank: seq<nat>, bound: nat, a: set<nat>, b: set<nat>,
                                           name: Name, vs: seq<V>, k: nat)
    requires Layered(s, rank) && k <= |s.defs| && NamesBelow(s, rank, bound, true, name)
    requires IdleBelow(rank, bound, a) && IdleBelow(rank, bound, b)
    ensures FindFunction(s, a, name, vs, k) == FindFunction(s, b, name, vs, k)
    decreases bound, 1, k
  {
    if k > 0 && |vs| == 1 {
      SameFunction(s, rank, bound, a, b, name, vs, k - 1);
      if Supplies(s.defs[k - 1], true, name) {
        SameRow(s, rank, a, b, Some(vs[0]), k - 1);
      }
    }
  }

  /**
   On rows without circular references the flags that stop recursion are never
   felt: a row yields the same from inside any other evaluation that may look it
   up, and its own value solves its equation over the values of the other rows.
   */
  lemma AcyclicRowsAreEquations<V>(s: Sheet<V>, rank: seq<nat>, x: Option<V>, i: nat)
    requires Layered(s, rank) && i < |s.defs| && s.defs[i].compiled
    ensures EvalRow(s, {}, x, i) == InDomain(s, EvalExpr(s, {}, x, s.defs[i].expr, 0))
    ensures forall busy :: IdleBelow(rank, rank[i] + 1, busy) ==> EvalRow(s, busy, x, i) == EvalRow(s, {}, x, i)
  {
    SameExpr(s, rank, rank[i], {} + {i}, {}, x, s.defs[i].expr, 0);
    forall busy | IdleBelow(rank, rank[i] + 1, busy)
      ensures EvalRow(s, busy, x, i) == EvalRow(s, {}, x, i)
    {
      SameRow(s, rank, busy, {}, x, i);
    }
  }

  // ----- which row a name means -----

  /** Row j supplies a value to those who look the name up while `busy` rows are being evaluated. */
  ghost predicate HasValue<V>(s: Sheet<V>, busy: set<nat>, x: Option<V>, isFunction: bool, name: Name, j: nat) {
    j < |s.defs| && Supplies(s.defs[j], isFunction, name) && EvalRow(s, busy, x, j).Value?
  }

  /** Of the first k rows, row j is the last that supplies a value. */
  ghost predicate LastWithValue<V>(s: Sheet<V>, busy: set<nat>, x: Option<V>, isFunction: bool, name: Name,
                                   j: nat, k: nat)
  {
    && j < k && HasValue(s, busy, x, isFunction, name, j)
    && forall m: nat :: j < m < k ==> !HasValue(s, busy, x, isFunction, name, m)
  }

  lemma {:induction false} FindsTheLast<V>(s: Sheet<V>, busy: set<nat>, x: Option<V>, name: Name, k: nat)
    requires k <= |s.defs|
    ensures FindVariable(s, busy, x, name, k).None? ==> forall m: nat :: m < k ==> !HasValue(s, busy, x, false, name, m)
    ensures FindVariable(s, busy, x, name, k).Some? ==>
      exists j: nat :: LastWithValue(s, busy, x, false, name, j, k)
                       && EvalRow(s, busy, x, j) == Value(FindVariable(s, busy, x, name, k).value)
  {
    if k > 0 {
      FindsTheLast(s, busy, x, name, k - 1);
      if HasValue(s, busy, x, false, name, k - 1) {
        assert LastWithValue(s, busy, x, false, name, k - 1, k);
      } else if FindVariable(s, busy, x, name, k).Some? {
        var j: nat :| LastWithValue(s, busy, x, false, name, j, k - 1)
                      && EvalRow(s, busy, x, j) == Value(FindVariable(s, busy, x, name, k - 1).value);
        assert LastWithValue(s, busy, x, false, name, j, k);
      }
    }
  }

  lemma {:induction false} FindsTheLastFunction<V>(s: Sheet<V>, busy: set<nat>, name: Name, arg: V, k: nat)
    requires k <= |s.defs|
    ensures FindFunction(s, busy, name, [arg], k).None? ==>
      forall m: nat :: m < k ==> !HasValue(s, busy, Some(arg), true, name, m)
    ensures FindFunction(s, busy, name, [arg], k).Some? ==>
      exists j: nat :: LastWithValue(s, busy, Some(arg), true, name, j, k)
                       && EvalRow(s, busy, Some(arg), j) == Value(FindFunction(s, busy, name, [arg], k).value)
  {
    if k > 0 {
      FindsTheLastFunction(s, busy, name, arg, k - 1);
      if HasValue(s, busy, Some(arg), true, name, k - 1) {
        assert LastWithValue(s, busy, Some(arg), true, name, k - 1, k);
      } else if FindFunction(s, busy, name, [arg], k).Some? {
        var j: nat :| LastWithValue(s, busy, Some(arg), true, name, j, k - 1)
                      && EvalRow(s, busy, Some(arg), j) == Value(FindFunction(s, busy, name, [arg], k - 1).value);
        assert LastWithValue(s, busy, Some(arg), true, name, j, k);
      }
    }
  }

  lemma LastIsOne<V>(s: Sheet<V>, busy: set<nat>, x: Option<V>, isFunction: bool, name: Name, j: nat, m: nat, k: nat)
    requires LastWithValue(s, busy, x, isFunction, name, j, k) && LastWithValue(s, busy, x, isFunction, name, m, k)
    ensures j == m
  {
  }

  /**
   What a name means in an expression: pi, e and a function's argument come first; then the
   last variable row of that name that has a value; and without one the name is unknown.
   */
  lemma NamesMeanTheLastRow<V>(s: Sheet<V>, busy: set<nat>, x: Option<V>, name: Name)
    ensures var r := EvalExpr(s, busy, x, Variable(name), 0);
      if name == "pi" then r == Value(s.arithmetic.pi)
      else if name == "e" then r == Value(s.arithmetic.e)
      else if name == "x" && x.Some? then r == Value(x.value)
      else
        && (forall j: nat :: LastWithValue(s, busy, x, false, name, j, |s.defs|) ==> r == EvalRow(s, busy, x, j))
        && ((forall j: nat :: !HasValue(s, busy, x, false, name, j)) ==> r == Fail(UnknownVariable))
  {
    FindsTheLast(s, busy, x, name, |s.defs|);
    var found := FindVariable(s, busy, x, name, |s.defs|);
    if found.Some? {
      var m: nat :| LastWithValue(s, busy, x, false, name, m, |s.defs|)
                    && EvalRow(s, busy, x, m) == Value(found.value);
      forall j: nat | LastWithValue(s, busy, x, false, name, j, |s.defs|)
        ensures j == m
      {
        LastIsOne(s, busy, x, false, name, j, m, |s.defs|);
      }
      assert HasValue(s, busy, x, false, name, m);
    }
  }

  /**
   What a call with one argument means: a built-in function comes first; then the last function
   row of that name that has a value for the argument; and without one the function is unknown.
   */
  lemma CallsMeanTheLastRow<V>(s: Sheet<V>, busy: set<nat>, x: Option<V>, name: Name, arg: Expr<V>)
    ensures var r := EvalExpr(s, busy, x, Call(name, [arg]), 0);
      match EvalExpr(s, busy, x, arg, 1)
      case Fail(error) => r == Fail(error)
      case Value(v) =>
        if s.arithmetic.builtin(name, [v]).Some? then r == Value(s.arithmetic.builtin(name, [v]).value)
        else
          && (forall j: nat :: LastWithValue(s, busy, Some(v), true, name, j, |s.defs|) ==>
                r == EvalRow(s, busy, Some(v), j))
          && ((forall j: nat :: !HasValue(s, busy, Some(v), true, name, j)) ==> r == Fail(UnknownFunction))
  {
    var call := Call(name, [arg]);
    OneArgument(s, busy, x, call, 0);
    var a := EvalExpr(s, busy, x, arg, 1);
    if a.Value? {
      hide EvalRow;
      FindsTheLastFunction(s, busy, name, a.value, |s.defs|);
      var found := FindFunction(s, busy, name, [a.value], |s.defs|);
      assert EvalExpr(s, busy, x, call, 0) == Applied(s, name, [a.value], found);
      if found.Some? {
        var m: nat :| LastWithValue(s, busy, Some(a.value), true, name, m, |s.defs|)
                      && EvalRow(s, busy, Some(a.value), m) == Value(found.value);
        forall j: nat | LastWithValue(s, busy, Some(a.value), true, name, j, |s.defs|)
          ensures j == m
        {
          LastIsOne(s, busy, Some(a.value), true, name, j, m, |s.defs|);
        }
        assert HasValue(s, busy, Some(a.value), true, name, m);
      }
    }
  }

  lemma OneArgument<V>(s: Sheet<V>, busy: set<nat>, x: Option<V>, call: Expr<V>, depth: nat)
    requires call.Call? && |call.args| == 1
    ensures EvalArgs(s, busy, x, call, depth, 1)
         == match EvalExpr(s, busy, x, call.args[0], depth + 1)
            case Value(v) => Success([v])
            case Fail(error) => Failure(error)
  {
    assert EvalArgs(s, busy, x, call, depth, 0) == Success([]);
    var r := EvalExpr(s, busy, x, call.args[0], depth + 1);
    if r.Value? {
      assert [] + [r.value] == [r.value];
    }
  }

  // ----- rows that do refer to themselves -----

  /**
   Circular rows do differ. A row whose expression is its own name is closed to
   itself while it is evaluated, so it takes the value of the last other row of
   that name that has one then, and without one the name is unknown. No ranking
   covers such a sheet.
   */
  lemma CircularRowsFallBack<V>(s: Sheet<V>, busy: set<nat>, x: Option<V>, i: nat)
    requires i < |s.defs| && i !in busy && s.defs[i].compiled && s.defs[i].kind == VariableRow
    requires s.defs[i].expr == Variable(s.defs[i].name)
    requires s.defs[i].name !in {"pi", "e"} && (s.defs[i].name == "x" ==> x.None?)
    ensures var name := s.defs[i].name;
      && (forall j: nat :: LastWithValue(s, busy + {i}, x, false, name, j, |s.defs|) ==>
            j != i && EvalRow(s, busy, x, i) == EvalRow(s, busy + {i}, x, j))
      && ((forall j: nat :: !HasValue(s, busy + {i}, x, false, name, j)) ==>
            EvalRow(s, busy, x, i) == Fail(UnknownVariable))
    ensures forall rank :: !Layered(s, rank)
  {
    var name, within := s.defs[i].name, busy + {i};
    NamesMeanTheLastRow(s, within, x, name);
    assert EvalRow(s, busy, x, i) == InDomain(s, EvalExpr(s, within, x, Variable(name), 0));
    forall rank: seq<nat>
      ensures !Layered(s, rank)
    {
      if |rank| == |s.defs| {
        assert Supplies(s.defs[i], false, name);
      }
    }
  }

  // ----- expressions without rows -----

  function Highest(a: nat, b: nat): nat {
    if a < b then b else a
  }

  /** How deep an expression is nested. */
  function Height<V>(e: Expr<V>): nat {
    match e
    case Number(_) => 0
    case Variable(_) => 0
    case Unary(_, child) => Height(child) + 1
    case Binary(_, left, right) => Highest(Height(left), Height(right)) + 1
    case Call(_, _) => ArgsHeight(e, |e.args|)
  }

  function ArgsHeight<V>(e: Expr<V>, k: nat): nat
    requires e.Call? && k <= |e.args|
    decreases e, 0, k
  {
    if k == 0 then 0 else Highest(ArgsHeight(e, k - 1), Height(e.args[k - 1]) + 1)
  }

  /** What an expression amounts to in arithmetic, if it names nothing but pi, e, x and built-in functions. */
  function Denoted<V>(a: Arithmetic<V>, x: Option<V>, e: Expr<V>): Option<V>
    decreases e, 1
  {
    match e
    case Number(v) => Some(v)
    case Variable(name) => if name == "pi" then Some(a.pi) else if name == "e" then Some(a.e)
                           else if name == "x" then x else None
    case Unary(op, child) =>
      var c := Denoted(a, x, child);
      if c.None? then None else if op == '-' then Some(a.negate(c.value)) else c
    case Binary(op, left, right) =>
      var l, r := Denoted(a, x, left), Denoted(a, x, right);
      if l.Some? && r.Some? then Some(a.binary(op, l.value, r.value)) else None
    case Call(name, args) =>
      var vs := DenotedArgs(a, x, e, |args|);
      if vs.Some? then a.builtin(name, vs.value) else None
  }

  function DenotedArgs<V>(a: Arithmetic<V>, x: Option<V>, e: Expr<V>, k: nat): Option<seq<V>>
    requires e.Call? && k <= |e.args|
    decreases e, 0, k
  {
    if k == 0 then Some([])
    else
      var before, v := DenotedArgs(a, x, e, k - 1), Denoted(a, x, e.args[k - 1]);
      if before.Some? && v.Some? then Some(before.value + [v.value]) else None
  }

  /**
   An expression that names no rows has its arithmetic value on every sheet, whatever rows are being evaluated,
   if and only if it is nested at most 24 deep; if it is deeper, that is the error.
   */
  lemma {:induction false} ClosedExpressions<V>(s: Sheet<V>, busy: set<nat>, x: Option<V>, e: Expr<V>, depth: nat)
    requires Denoted(s.arithmetic, x, e).Some?
    ensures EvalExpr(s, busy, x, e, depth)
         == if depth + Height(e) <= 24 then Value(Denoted(s.arithmetic, x, e).value) else Fail(TooDeep)
    decreases e, 1
  {
    match e
    case Number(_) =>
    case Variable(_) =>
    case Unary(_, child) => ClosedExpressions(s, busy, x, child, depth + 1);
    case Binary(_, left, right) =>
      ClosedExpressions(s, busy, x, left, depth + 1);
      ClosedExpressions(s, busy, x, right, depth + 1);
    case Call(_, args) => ClosedArguments(s, busy, x, e, depth, |args|);
  }

  lemma {:induction false} ClosedArguments<V>(s: Sheet<V>, busy: set<nat>, x: Option<V>, e: Expr<V>, depth: nat, k: nat)
    requires e.Call? && k <= |e.args| && DenotedArgs(s.arithmetic, x, e, k).Some?
    ensures depth <= 24 ==>
      EvalArgs(s, busy, x, e, depth, k)
      == if depth + ArgsHeight(e, k) <= 24 then Success(DenotedArgs(s.arithmetic, x, e, k).value) else Failure(TooDeep)
    decreases e, 0, k
  {
    if k > 0 {
      ClosedArguments(s, busy, x, e, depth, k - 1);
      ClosedExpressions(s, busy, x, e.args[k - 1], depth + 1);
    }
  }

  /** A value row shows a finite value of such an expression, and nothing if it is not finite or nested too deep. */
  lemma ClosedRowsShowTheirValue<V>(s: Sheet<V>, i: nat)
    requires i < |s.defs| && s.defs[i].compiled && Denoted(s.arithmetic, None, s.defs[i].expr).Some?
    ensures var d, v := s.defs[i], Denoted(s.arithmetic, None, s.defs[i].expr).value;
      Shown(s, i) == if (d.kind == ValueRow || d.kind == VariableRow) && Height(d.expr) <= 24 && s.arithmetic.finite(v)
                     then Some(v) else None
  {
    ClosedExpressions(s, {} + {i}, None, s.defs[i].expr, 0);
  }
}
