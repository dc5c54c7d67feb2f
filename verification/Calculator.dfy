/** The calculator's rows, evaluated in place under `visiting` flags and a depth limit. */
module Calculator {
  import opened Wrappers
  import opened CalcMeaning

  const ROW_MAX := 8
  const DEPTH_MAX := 12
  const SOURCE_MAX := 128

  datatype Row<V> = Row(source: string, def: Def<V>, visiting: bool, error: Option<EvalError>, result: Option<V>)

  /** A row without the error last recorded for it. */
  function Settled<V>(r: Row<V>): Row<V> {
    r.(error := None)
  }

  /** Evaluation may record a first error in a row and changes nothing else. */
  ghost predicate OnlyErrors<V>(before: seq<Row<V>>, after: seq<Row<V>>) {
    && |before| == |after|
    && (forall i :: 0 <= i < |before| ==> Settled(after[i]) == Settled(before[i]))
    && (forall i :: 0 <= i < |before| && before[i].error.Some? ==> after[i] == before[i])
  }

  lemma OnlyErrorsChain<V>(a: seq<Row<V>>, b: seq<Row<V>>, c: seq<Row<V>>)
    requires OnlyErrors(a, b) && OnlyErrors(b, c)
    ensures OnlyErrors(a, c)
  {
    forall i | 0 <= i < |a|
      ensures Settled(c[i]) == Settled(a[i]) && (a[i].error.Some? ==> c[i] == a[i])
    {
      assert Settled(b[i]) == Settled(a[i]) && Settled(c[i]) == Settled(b[i]);
    }
  }

  function DefsOf<V>(rows: seq<Row<V>>): (ds: seq<Def<V>>)
    ensures |ds| == |rows|
  {
    seq(|rows|, i requires 0 <= i < |rows| => rows[i].def)
  }

  function BusyOf<V>(rows: seq<Row<V>>): set<nat> {
    set i | i in Indices(|rows|) && rows[i].visiting
  }

  lemma OnlyErrorsKeeps<V>(a: seq<Row<V>>, b: seq<Row<V>>)
    requires OnlyErrors(a, b)
    ensures DefsOf(a) == DefsOf(b) && BusyOf(a) == BusyOf(b)
  {
    forall i | 0 <= i < |a|
      ensures a[i].def == b[i].def && a[i].visiting == b[i].visiting
    {
      assert Settled(b[i]) == Settled(a[i]);
    }
  }

  /** A row is entered and left again. */
  lemma EnterRow<V>(rows: seq<Row<V>>, i: nat)
    requires i < |rows|
    ensures var entered := rows[i := rows[i].(visiting := true)];
      DefsOf(entered) == DefsOf(rows) && BusyOf(entered) == BusyOf(rows) + {i}
  {
  }

  lemma BusyFits<V>(rows: seq<Row<V>>)
    ensures |BusyOf(rows)| <= |rows|
  {
    assert BusyOf(rows) <= Indices(|rows|);
    SubsetSize(BusyOf(rows), Indices(|rows|));
    IndicesSize(|rows|);
  }

  lemma {:induction false} IndicesSize(n: nat)
    ensures |Indices(n)| == n
  {
    if n > 0 {
      IndicesSize(n - 1);
    }
  }

  lemma SubsetSize(a: set<nat>, b: set<nat>)
    requires a <= b
    ensures |a| <= |b|
  {
    assert |b| == |a| + |b - a|;
  }

  lemma LeaveRow<V>(before: seq<Row<V>>, after: seq<Row<V>>, i: nat, error: Option<EvalError>)
    requires i < |before| && !before[i].visiting
    requires OnlyErrors(before[i := before[i].(visiting := true)], after)
    requires error == after[i].error || after[i].error.None?
    ensures OnlyErrors(before, after[i := after[i].(visiting := false, error := error)])
  {
    var entered := before[i := before[i].(visiting := true)];
    var left := after[i := after[i].(visiting := false, error := error)];
    forall j | 0 <= j < |before|
      ensures Settled(left[j]) == Settled(before[j]) && (before[j].error.Some? ==> left[j] == before[j])
    {
      assert Settled(after[j]) == Settled(entered[j]);
    }
  }

  class Calc<V(!new)> {
    const arithmetic: Arithmetic<V>
    const parse: string -> Def<V>
    const rows: array<Row<V>>
    var count: nat

    ghost predicate Valid()
      reads this
    {
      rows.Length == ROW_MAX && count <= ROW_MAX
    }

    ghost function Rows(): seq<Row<V>>
      reads this, rows
      requires Valid()
    {
      rows[..count]
    }

    ghost function Current(): Sheet<V>
      reads this, rows
      requires Valid()
    {
      Sheet(arithmetic, DefsOf(Rows()))
    }

    ghost function Busy(): set<nat>
      reads this, rows
      requires Valid()
    {
      BusyOf(Rows())
    }

    constructor (arithmetic: Arithmetic<V>, parse: string -> Def<V>)
      ensures Valid() && Rows() == [] && fresh(rows)
      ensures this.arithmetic == arithmetic && this.parse == parse
    {
      this.arithmetic, this.parse, this.count := arithmetic, parse, 0;
      rows := new Row<V>[ROW_MAX](_ => Row("", Def(EmptyRow, "", false, Call("", [])), false, None, None));
    }

    /** calc_eval_row: the reference value, and the flags as they were. */
    method EvaluateRow(x: Option<V>, depth: nat, i: nat) returns (r: Outcome<V>)
      requires Valid() && depth <= |Busy()|
      modifies rows
      ensures r == EvalRow(old(Current()), old(Busy()), x, i)
      ensures OnlyErrors(old(Rows()), Rows()) && Current() == old(Current()) && Busy() == old(Busy())
      ensures r.Fail? ==> i < count && rows[i].error.Some?
      decreases Free(Current(), Busy()), 0, 1
    {
      if i >= count {
        return Refused;
      }
      if depth >= DEPTH_MAX {
        BusyFits(Rows());
        assert false;  // fewer rows can be busy than the limit allows nesting
      }
      if !rows[i].def.compiled || rows[i].visiting {
        return Refused;
      }
      r := EvaluateEntered(x, depth, i);
    }

    /** The row is entered, evaluated and left. */
    method EvaluateEntered(x: Option<V>, depth: nat, i: nat) returns (r: Outcome<V>)
      requires Valid() && depth <= |Busy()| && i < count && rows[i].def.compiled && !rows[i].visiting
      modifies rows
      ensures r == EvalRow(old(Current()), old(Busy()), x, i)
      ensures OnlyErrors(old(Rows()), Rows()) && Current() == old(Current()) && Busy() == old(Busy())
      ensures r.Fail? ==> rows[i].error.Some?
      decreases Free(Current(), Busy()), 0, 0
    {
      ghost var before := Rows();
      EnteringUses(Current(), Busy(), i);
      Enter(i);
      r := EvaluateExpr(x, depth, rows[i].def.expr, 0);
      if r.Value? && !arithmetic.finite(r.value) {
        r := Fail(OutsideDomain);
      }
      Leave(i, r, before);
    }

    method Enter(i: nat)
      requires Valid() && i < count && !rows[i].visiting
      modifies rows
      ensures Rows() == old(Rows())[i := old(Rows())[i].(visiting := true)]
      ensures Current() == old(Current()) && i !in old(Busy()) && Busy() == old(Busy()) + {i}
      ensures rows[i].def == Current().defs[i]
    {
      EnterRow(Rows(), i);
      ghost var before := Rows();
      rows[i] := rows[i].(visiting := true);
      assert Rows() == before[i := before[i].(visiting := true)];
    }

    /** The row is left, and keeps its first error. */
    method Leave(i: nat, r: Outcome<V>, ghost before: seq<Row<V>>)
      requires Valid() && i < count == |before| && !before[i].visiting
      requires OnlyErrors(before[i := before[i].(visiting := true)], Rows())
      modifies rows
      ensures OnlyErrors(before, Rows()) && (r.Fail? ==> rows[i].error.Some?)
      ensures DefsOf(Rows()) == DefsOf(before) && BusyOf(Rows()) == BusyOf(before)
    {
      ghost var after := Rows();
      var error := if r.Fail? && rows[i].error.None? then Some(r.error) else rows[i].error;
      LeaveRow(before, after, i, error);
      rows[i] := rows[i].(visiting := false, error := error);
      assert Rows() == after[i := after[i].(visiting := false, error := error)];
      OnlyErrorsKeeps(before, Rows());
    }

    /** expr_eval_node */
    method EvaluateExpr(x: Option<V>, depth: nat, e: Expr<V>, nodeDepth: nat) returns (r: Outcome<V>)
      requires Valid() && depth < |Busy()|
      modifies rows
      ensures r == EvalExpr(old(Current()), old(Busy()), x, e, nodeDepth)
      ensures OnlyErrors(old(Rows()), Rows()) && Current() == old(Current()) && Busy() == old(Busy())
      decreases Free(Current(), Busy()), 2, e
    {
      if nodeDepth > NODE_DEPTH_MAX {
        return Fail(TooDeep);
      }
      match e
      case Number(v) => r := Value(v);
      case Variable(name) => r := EvaluateName(x, depth, e, nodeDepth);
      case Unary(op, child) =>
        r := EvaluateExpr(x, depth, child, nodeDepth + 1);
        if r.Value? && op == '-' {
          r := Value(arithmetic.negate(r.value));
        }
      case Binary(op, left, right) => r := EvaluateBinary(x, depth, e, nodeDepth);
      case Call(name, args) => r := EvaluateCall(x, depth, e, nodeDepth);
    }

    method EvaluateName(x: Option<V>, depth: nat, e: Expr<V>, nodeDepth: nat) returns (r: Outcome<V>)
      requires Valid() && depth < |Busy()| && e.Variable? && nodeDepth <= NODE_DEPTH_MAX
      modifies rows
      ensures r == EvalExpr(old(Current()), old(Busy()), x, e, nodeDepth)
      ensures OnlyErrors(old(Rows()), Rows()) && Current() == old(Current()) && Busy() == old(Busy())
      decreases Free(Current(), Busy()), 2, e, 0
    {
      if e.name == "pi" {
        return Value(arithmetic.pi);
      }
      if e.name == "e" {
        return Value(arithmetic.e);
      }
      if e.name == "x" && x.Some? {
        return Value(x.value);
      }
      var v := LookupVariable(x, depth, e.name);
      r := if v.Some? then Value(v.value) else Fail(UnknownVariable);
    }

    method EvaluateBinary(x: Option<V>, depth: nat, e: Expr<V>, nodeDepth: nat) returns (r: Outcome<V>)
      requires Valid() && depth < |Busy()| && e.Binary? && nodeDepth <= NODE_DEPTH_MAX
      modifies rows
      ensures r == EvalExpr(old(Current()), old(Busy()), x, e, nodeDepth)
      ensures OnlyErrors(old(Rows()), Rows()) && Current() == old(Current()) && Busy() == old(Busy())
      decreases Free(Current(), Busy()), 2, e, 0
    {
      ghost var before := Rows();
      r := EvaluateExpr(x, depth, e.left, nodeDepth + 1);
      if r.Fail? {
        return;
      }
      ghost var between := Rows();
      var right := EvaluateExpr(x, depth, e.right, nodeDepth + 1);
      OnlyErrorsChain(before, between, Rows());
      r := if right.Fail? then right else Value(arithmetic.binary(e.op, r.value, right.value));
    }

    method EvaluateCall(x: Option<V>, depth: nat, e: Expr<V>, nodeDepth: nat) returns (r: Outcome<V>)
      requires Valid() && depth < |Busy()| && e.Call? && nodeDepth <= NODE_DEPTH_MAX
      modifies rows
      ensures r == EvalExpr(old(Current()), old(Busy()), x, e, nodeDepth)
      ensures OnlyErrors(old(Rows()), Rows()) && Current() == old(Current()) && Busy() == old(Busy())
      decreases Free(Current(), Busy()), 2, e, |e.args| + 1
    {
      ghost var before := Rows();
      var vs := EvaluateArgs(x, depth, e, nodeDepth);
      if vs.Failure? {
        return Fail(vs.error);
      }
      var own := arithmetic.builtin(e.name, vs.value);
      if own.Some? {
        return Value(own.value);
      }
      ghost var between := Rows();
      own := LookupFunction(depth, e.name, vs.value);
      OnlyErrorsChain(before, between, Rows());
      r := if own.Some? then Value(own.value) else Fail(UnknownFunction);
    }

    /** The arguments from left to right, up to the first that fails. */
    method EvaluateArgs(x: Option<V>, depth: nat, e: Expr<V>, nodeDepth: nat) returns (r: Result<seq<V>, EvalError>)
      requires Valid() && depth < |Busy()| && e.Call?
      modifies rows
      ensures r == EvalArgs(old(Current()), old(Busy()), x, e, nodeDepth, |e.args|)
      ensures OnlyErrors(old(Rows()), Rows()) && Current() == old(Current()) && Busy() == old(Busy())
      decreases Free(Current(), Busy()), 2, e, |e.args|
    {
      hide EvalExpr, FindVariable, FindFunction, BusyOf;
      ghost var s, busy, before := Current(), Busy(), Rows();
      var i: nat := 0;
      r := Success([]);
      while i < |e.args| && r.Success?
        invariant i <= |e.args| && r == EvalArgs(s, busy, x, e, nodeDepth, if r.Success? then i else |e.args|)
        invariant Same(before, s, busy)
        decreases |e.args| - i
      {
        r := EvaluateArg(x, depth, e, nodeDepth, i, r.value, before);
        i := i + 1;
      }
    }

    ghost predicate Same(before: seq<Row<V>>, s: Sheet<V>, busy: set<nat>)
      reads this, rows
    {
      Valid() && OnlyErrors(before, Rows()) && Current() == s && Busy() == busy
    }

    /** One more argument behind the values of those before it. */
    method EvaluateArg(x: Option<V>, depth: nat, e: Expr<V>, nodeDepth: nat, i: nat, vs: seq<V>,
                       ghost before: seq<Row<V>>)
      returns (r: Result<seq<V>, EvalError>)
      requires Valid() && depth < |Busy()| && e.Call? && i < |e.args| && OnlyErrors(before, Rows())
      requires EvalArgs(Current(), Busy(), x, e, nodeDepth, i) == Success(vs)
      modifies rows
      ensures r == EvalArgs(old(Current()), old(Busy()), x, e, nodeDepth, if r.Success? then i + 1 else |e.args|)
      ensures Same(before, old(Current()), old(Busy()))
      decreases Free(Current(), Busy()), 2, e, 0
    {
      ghost var between := Rows();
      var v := EvaluateExpr(x, depth, e.args[i], nodeDepth + 1);
      OnlyErrorsChain(before, between, Rows());
      r := if v.Value? then Success(vs + [v.value]) else Failure(v.error);
      if r.Failure? {
        StopsAtFailure(Current(), Busy(), x, e, nodeDepth, i + 1, |e.args|);
      }
    }

    /** calc_lookup_variable */
    method LookupVariable(x: Option<V>, depth: nat, name: Name) returns (v: Option<V>)
      requires Valid() && depth < |Busy()|
      modifies rows
      ensures v == FindVariable(old(Current()), old(Busy()), x, name, count)
      ensures OnlyErrors(old(Rows()), Rows()) && Current() == old(Current()) && Busy() == old(Busy())
      decreases Free(Current(), Busy()), 1
    {
      ghost var s, busy, before := Current(), Busy(), Rows();
      var i: nat := count;
      v := None;
      while i > 0 && v.None?
        invariant i <= count
        invariant FindVariable(s, busy, x, name, count) == if v.Some? then v else FindVariable(s, busy, x, name, i)
        invariant OnlyErrors(before, Rows()) && Current() == s && Busy() == busy
        decreases i
      {
        i := i - 1;
        v := TryVariable(x, depth, name, i, before);
      }
    }

    /** The value of row i, if it defines that variable and has one. */
    method TryVariable(x: Option<V>, depth: nat, name: Name, i: nat, ghost before: seq<Row<V>>) returns (v: Option<V>)
      requires Valid() && depth < |Busy()| && i < count && OnlyErrors(before, Rows())
      modifies rows
      ensures FindVariable(old(Current()), old(Busy()), x, name, i + 1)
           == if v.Some? then v else FindVariable(old(Current()), old(Busy()), x, name, i)
      ensures OnlyErrors(before, Rows()) && Current() == old(Current()) && Busy() == old(Busy())
      decreases Free(Current(), Busy()), 0, 2
    {
      assert rows[i].def == Current().defs[i];
      v := None;
      if rows[i].def.kind == VariableRow && rows[i].def.name == name {
        ghost var between := Rows();
        var r := EvaluateRow(x, depth, i);
        OnlyErrorsChain(before, between, Rows());
        if r.Value? {
          v := Some(r.value);
        }
      }
    }

    /** calc_lookup_function */
    method LookupFunction(depth: nat, name: Name, args: seq<V>) returns (v: Option<V>)
      requires Valid() && depth < |Busy()|
      modifies rows
      ensures v == FindFunction(old(Current()), old(Busy()), name, args, count)
      ensures OnlyErrors(old(Rows()), Rows()) && Current() == old(Current()) && Busy() == old(Busy())
      decreases Free(Current(), Busy()), 1
    {
      if |args| != 1 {
        return None;
      }
      if depth >= DEPTH_MAX {
        BusyFits(Rows());
        assert false;  // fewer rows can be busy than the limit allows nesting
      }
      ghost var s, busy, before := Current(), Busy(), Rows();
      var i: nat := count;
      v := None;
      while i > 0 && v.None?
        invariant i <= count
        invariant FindFunction(s, busy, name, args, count)
               == if v.Some? then v else FindFunction(s, busy, name, args, i)
        invariant OnlyErrors(before, Rows()) && Current() == s && Busy() == busy
        decreases i
      {
        i := i - 1;
        v := TryFunction(depth, name, args, i, before);
      }
    }

    method TryFunction(depth: nat, name: Name, args: seq<V>, i: nat, ghost before: seq<Row<V>>) returns (v: Option<V>)
      requires Valid() && depth < |Busy()| && i < count && OnlyErrors(before, Rows()) && |args| == 1
      modifies rows
      ensures FindFunction(old(Current()), old(Busy()), name, args, i + 1)
           == if v.Some? then v else FindFunction(old(Current()), old(Busy()), name, args, i)
      ensures OnlyErrors(before, Rows()) && Current() == old(Current()) && Busy() == old(Busy())
      decreases Free(Current(), Busy()), 0, 2
    {
      assert rows[i].def == Current().defs[i];
      v := None;
      if rows[i].def.kind == FunctionRow && rows[i].def.name == name {
        ghost var between := Rows();
        var r := EvaluateRow(Some(args[0]), depth + 1, i);
        OnlyErrorsChain(before, between, Rows());
        if r.Value? {
          v := Some(r.value);
        }
      }
    }

    // ----- all rows -----

    /** Every row so far shows its result in the sheet. */
    ghost predicate ShownUpTo(n: nat)
      reads this, rows
    {
      Valid() && n <= count && forall i :: 0 <= i < n ==> rows[i].result == Shown(Current(), i)
    }

    /** calc_recompute */
    method Recompute()
      requires Valid() && Busy() == {}
      modifies rows
      ensures ShownUpTo(count) && Busy() == {} && Current() == old(Current())
      ensures SourcesOf(Rows()) == old(SourcesOf(Rows()))
    {
      var i: nat := 0;
      while i < count
        invariant i <= count && ShownUpTo(i) && Busy() == {} && Current() == old(Current())
        invariant SourcesOf(Rows()) == old(SourcesOf(Rows()))
      {
        RecomputeRow(i);
        i := i + 1;
      }
    }

    method RecomputeRow(i: nat)
      requires Valid() && i < count && ShownUpTo(i) && Busy() == {}
      modifies rows
      ensures ShownUpTo(i + 1) && Busy() == {} && Current() == old(Current())
      ensures SourcesOf(Rows()) == old(SourcesOf(Rows()))
    {
      hide EvalExpr, EvalArgs, FindVariable, FindFunction;
      Reset(i);
      if rows[i].def.compiled && (rows[i].def.kind == ValueRow || rows[i].def.kind == VariableRow) {
        var r := EvaluateShown(i);
        Show(i, r);
      }
    }

    /** A row evaluated from outside any other evaluation. */
    method EvaluateShown(i: nat) returns (r: Option<V>)
      requires Valid() && i < count && ShownUpTo(i) && Busy() == {}
      requires rows[i].def.kind == ValueRow || rows[i].def.kind == VariableRow
      modifies rows
      ensures ShownUpTo(i) && Busy() == {} && Current() == old(Current()) && r == Shown(Current(), i)
      ensures SourcesOf(Rows()) == old(SourcesOf(Rows()))
    {
      hide EvalExpr, EvalArgs, FindVariable, FindFunction;
      ghost var before := Rows();
      assert rows[i].def == Current().defs[i];
      var v := EvaluateRow(None, 0, i);
      ErrorsShowTheSame(before, Rows());
      r := if v.Value? then Some(v.value) else None;
    }

    method Show(i: nat, r: Option<V>)
      requires Valid() && i < count && ShownUpTo(i) && Busy() == {} && r == Shown(Current(), i)
      modifies rows
      ensures ShownUpTo(i + 1) && Busy() == {} && Current() == old(Current())
      ensures SourcesOf(Rows()) == old(SourcesOf(Rows()))
    {
      hide EvalRow;
      ghost var before := Rows();
      rows[i] := rows[i].(result := r);
      assert Rows() == before[i := rows[i]];
      ChangingResult(before, i, rows[i]);
    }

    /** Every row is what parsing makes of its source. */
    ghost predicate ParsedUpTo(n: nat)
      reads this, rows
    {
      Valid() && n <= count && forall i :: 0 <= i < n ==> Rows()[i].def == parse(Rows()[i].source)
    }

    /** calc_compile_all */
    method CompileAll()
      requires Valid() && Busy() == {}
      modifies rows
      ensures ParsedUpTo(count) && ShownUpTo(count) && Busy() == {}
      ensures SourcesOf(Rows()) == old(SourcesOf(Rows()))
    {
      var i: nat := 0;
      while i < count
        invariant i <= count && ParsedUpTo(i) && Busy() == {}
        invariant SourcesOf(Rows()) == old(SourcesOf(Rows()))
      {
        ghost var before := Rows();
        rows[i] := rows[i].(def := parse(rows[i].source), error := None, result := None);
        assert Rows() == before[i := rows[i]];
        Reparsed(before, i, rows[i]);
        i := i + 1;
      }
      ghost var parsed := Rows();
      Recompute();
      SameDefs(parsed, Rows());
    }

    /** calc_add_row: the rows are recompiled, and all results are those of the new sheet. */
    method AddRow(source: string)
      requires Valid() && Busy() == {}
      modifies this`count, rows
      ensures ParsedUpTo(count) && ShownUpTo(count) && Busy() == {}
      ensures SourcesOf(Rows()) == Added(old(SourcesOf(Rows())), source)
    {
      ghost var before := Rows();
      LoneEmptyRow(before);
      if count == 1 && rows[0].source == "" {
        rows[0] := rows[0].(source := Clipped(source));
        assert Rows() == before[0 := rows[0]];
        Reparsed(before, 0, rows[0]);
        CompileAll();
        return;
      }
      if count == ROW_MAX {
        DropOldest();
      }
      AppendRow(Clipped(source));
      CompileAll();
    }

    method AppendRow(source: string)
      requires Valid() && count < ROW_MAX && Busy() == {}
      modifies this`count, rows
      ensures Valid() && count == old(count) + 1 && Busy() == {}
      ensures SourcesOf(Rows()) == old(SourcesOf(Rows())) + [source]
    {
      ghost var kept := Rows();
      rows[count] := Row(source, Def(EmptyRow, "", false, Call("", [])), false, None, None);
      count := count + 1;
      assert Rows() == kept + [rows[count - 1]];
      RowAdded(kept, rows[count - 1]);
    }

    /** The rows move up by one. */
    method DropOldest()
      requires Valid() && count == ROW_MAX && Busy() == {}
      modifies this`count, rows
      ensures Valid() && count == ROW_MAX - 1 && Rows() == old(Rows())[1..] && Busy() == {}
      ensures SourcesOf(Rows()) == old(SourcesOf(Rows()))[1..]
    {
      ghost var before := Rows();
      forall k | 0 <= k < ROW_MAX - 1 {
        rows[k] := rows[k + 1];
      }
      count := count - 1;
      assert Rows() == before[1..];
      IdleTail(before);
    }

    /** A row is cleared of its old result and error. */
    method Reset(i: nat)
      requires Valid() && i < count && ShownUpTo(i) && Busy() == {}
      modifies rows
      ensures ShownUpTo(i) && Busy() == {} && Current() == old(Current()) && rows[i].result == None
      ensures rows[i].def == Current().defs[i]
      ensures SourcesOf(Rows()) == old(SourcesOf(Rows())) && rows[i].def == old(rows[i].def)
    {
      ghost var before := Rows();
      assert !before[i].visiting by { assert i !in Busy(); }
      rows[i] := rows[i].(result := None, visiting := false,
                          error := if rows[i].def.compiled then None else rows[i].error);
      assert Rows() == before[i := rows[i]];
      ChangingResult(before, i, rows[i]);
    }
  }

  /** snprintf into a row's source field. */
  function Clipped(source: string): string {
    if |source| < SOURCE_MAX then source else source[..SOURCE_MAX - 1]
  }

  /** The sources after adding one: an only empty row is replaced, and the oldest gives way to a ninth. */
  function Added(sources: seq<string>, source: string): (now: seq<string>)
    ensures now != [] && now[|now| - 1] <= source
    ensures |now[|now| - 1]| == if |source| < SOURCE_MAX then |source| else SOURCE_MAX - 1
    ensures |sources| <= 8 ==> |now| <= 8
    ensures sources != [""] && |sources| < 8 ==> now[..|now| - 1] == sources
    ensures |sources| == 8 ==> now[..|now| - 1] == sources[1..]
    ensures sources == [""] ==> |now| == 1
  {
    if sources == [""] then [Clipped(source)]
    else if |sources| == ROW_MAX then sources[1..] + [Clipped(source)]
    else sources + [Clipped(source)]
  }

  function SourcesOf<V>(rows: seq<Row<V>>): (ss: seq<string>)
    ensures |ss| == |rows|
  {
    seq(|rows|, i requires 0 <= i < |rows| => rows[i].source)
  }

  lemma LoneEmptyRow<V>(rows: seq<Row<V>>)
    ensures SourcesOf(rows) == [""] <==> |rows| == 1 && rows[0].source == ""
  {
    assert |rows| == 1 ==> SourcesOf(rows)[0] == rows[0].source;
  }

  lemma IdleTail<V>(rows: seq<Row<V>>)
    requires rows != [] && BusyOf(rows) == {}
    ensures BusyOf(rows[1..]) == {} && SourcesOf(rows[1..]) == SourcesOf(rows)[1..]
  {
    forall i | 0 <= i < |rows|
      ensures !rows[i].visiting
    {
      assert i !in BusyOf(rows);
    }
  }

  lemma Reparsed<V>(rows: seq<Row<V>>, i: nat, row: Row<V>)
    requires i < |rows| && row.visiting == rows[i].visiting
    ensures BusyOf(rows[i := row]) == BusyOf(rows)
    ensures SourcesOf(rows[i := row]) == SourcesOf(rows)[i := row.source]
    ensures row.source == rows[i].source ==> SourcesOf(rows[i := row]) == SourcesOf(rows)
  {
  }

  lemma SameDefs<V>(a: seq<Row<V>>, b: seq<Row<V>>)
    requires DefsOf(a) == DefsOf(b) && SourcesOf(a) == SourcesOf(b)
    ensures |a| == |b| && forall i :: 0 <= i < |a| ==> b[i].def == a[i].def && b[i].source == a[i].source
  {
    forall i | 0 <= i < |a|
      ensures b[i].def == a[i].def && b[i].source == a[i].source
    {
      assert DefsOf(a)[i] == DefsOf(b)[i] && SourcesOf(a)[i] == SourcesOf(b)[i];
    }
  }

  lemma RowAdded<V>(rows: seq<Row<V>>, row: Row<V>)
    requires !row.visiting
    ensures BusyOf(rows + [row]) == BusyOf(rows) && SourcesOf(rows + [row]) == SourcesOf(rows) + [row.source]
  {
  }

  lemma ChangingResult<V>(rows: seq<Row<V>>, i: nat, row: Row<V>)
    requires i < |rows| && row.def == rows[i].def && row.source == rows[i].source && row.visiting == rows[i].visiting
    ensures var changed := rows[i := row];
      DefsOf(changed) == DefsOf(rows) && BusyOf(changed) == BusyOf(rows) && SourcesOf(changed) == SourcesOf(rows)
  {
  }

  lemma ErrorsShowTheSame<V>(a: seq<Row<V>>, b: seq<Row<V>>)
    requires OnlyErrors(a, b)
    ensures SourcesOf(a) == SourcesOf(b)
    ensures forall i :: 0 <= i < |a| ==> b[i].result == a[i].result && b[i].def == a[i].def
  {
    forall i | 0 <= i < |a|
      ensures b[i].source == a[i].source && b[i].result == a[i].result && b[i].def == a[i].def
    {
      assert Settled(b[i]) == Settled(a[i]);
    }
  }

  lemma {:induction false} StopsAtFailure<V>(s: Sheet<V>, busy: set<nat>, x: Option<V>, e: Expr<V>, depth: nat,
                                             i: nat, k: nat)
    requires e.Call? && i <= k <= |e.args| && EvalArgs(s, busy, x, e, depth, i).Failure?
    ensures EvalArgs(s, busy, x, e, depth, k) == EvalArgs(s, busy, x, e, depth, i)
    decreases k
  {
    if i < k {
      StopsAtFailure(s, busy, x, e, depth, i, k - 1);
    }
  }
}
