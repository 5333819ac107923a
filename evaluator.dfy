/**
 * The tree-walking evaluator of the Atomic runtime (runtime/eval/expr.ts and
 * runtime/eval/stmt.ts). Every method evaluates one construct against an
 * environment of the `Runtime`, recording diagnostics and recovering to Null
 * as the source does. `depth` is the number of stack frames still available:
 * a user call, a module inclusion and each round of the self-recursion of
 * member access consume one, and running out aborts with StackOverflow, as
 * JavaScript throws when its call stack is exhausted.
 */
module Evaluator {
  import opened Wrappers
  import opened Values
  import opened Operators
  import opened Scopes
  import opened RuntimeState

  /**
   * The results of the statements a call body ran: none but the last is a
   * `return`, the call's value is that return's payload, and a body that
   * ran to its end without one yields Null.
   */
  ghost predicate StopsAtFirstReturn(signals: seq<Signal>, n: nat, result: Value) {
    |signals| <= n &&
    (forall k | 0 <= k < |signals| - 1 :: !signals[k].Returned?) &&
    if |signals| > 0 && signals[|signals| - 1].Returned? then result == signals[|signals| - 1].value
    else |signals| == n && result == Null
  }

  /**
   * The expressions whose evaluation only reads the scope store: literals,
   * names, and operators applied to such expressions.
   */
  predicate ReadOnly(e: Expr) {
    match e
    case NumLit(_) => true
    case StrLit(_) => true
    case Id(_) => true
    case Binary(_, l, r) => ReadOnly(l) && ReadOnly(r)
    case _ => false
  }

  /** Whether the read-only expression `e` reads the name `x`. */
  predicate ReadsName(e: Expr, x: string)
    requires ReadOnly(e)
  {
    match e
    case Id(y) => y == x
    case Binary(_, l, r) => ReadsName(l, x) || ReadsName(r, x)
    case _ => false
  }

  /** A value with the diagnostics recorded, in order, while computing it. */
  datatype Reading = Reading(value: Value, diags: seq<Code>)

  /**
   * What evaluating a read-only expression yields: a literal is itself, a
   * name is what `findVar` finds, and an operator is `BinaryOp` of its
   * operands' values, the left operand's diagnostics coming first. Only
   * AT3003 and UnknownVariable can be recorded.
   */
  function ReadValue(scopes: seq<Scope>, env: EnvId, e: Expr, show: Value -> string): (r: Reading)
    requires ChainOk(scopes) && env < |scopes| && ReadOnly(e)
    ensures forall k | 0 <= k < |r.diags| :: r.diags[k] == AT3003 || r.diags[k] == UnknownVariable
    ensures forall objs: nat :: ScopesOk(scopes, objs) ==> RefsOk(r.value, |scopes|, objs)
  {
    match e
    case NumLit(n) => Reading(Num(Finite(n)), [])
    case StrLit(t) => Reading(Str(t), [])
    case Id(x) =>
      var o := FindVar(scopes, env, x);
      Reading(o.value, DiagList(o.diag))
    case Binary(op, l, r) =>
      var a := ReadValue(scopes, env, l, show);
      var b := ReadValue(scopes, env, r, show);
      var out := BinaryOp(op, a.value, b.value, show);
      Reading(out.value, a.diags + b.diags + DiagList(out.diag))
  }

  predicate AllReadOnly(es: seq<Expr>) {
    forall k | 0 <= k < |es| :: ReadOnly(es[k])
  }

  /** Values computed left to right, with all their diagnostics in that order. */
  datatype Readings = Readings(values: seq<Value>, diags: seq<Code>)

  /** The values of read-only call arguments, evaluated left to right. */
  function ReadArgs(scopes: seq<Scope>, env: EnvId, es: seq<Expr>, show: Value -> string): (r: Readings)
    requires ChainOk(scopes) && env < |scopes| && AllReadOnly(es)
    ensures |r.values| == |es|
    ensures forall k | 0 <= k < |es| :: r.values[k] == ReadValue(scopes, env, es[k], show).value
    decreases |es|
  {
    if es == [] then Readings([], [])
    else
      var n := |es| - 1;
      assert AllReadOnly(es[..n]);
      var front := ReadArgs(scopes, env, es[..n], show);
      var last := ReadValue(scopes, env, es[n], show);
      Readings(front.values + [last.value], front.diags + last.diags)
  }

  /** An object-literal property that is the shorthand or has a read-only value. */
  predicate PropReadOnly(p: Property) {
    p.value.None? || ReadOnly(p.value.value)
  }

  /** The value such a property contributes: the shorthand is looked up by its key. */
  function PropValue(scopes: seq<Scope>, env: EnvId, p: Property, show: Value -> string): Value
    requires ChainOk(scopes) && env < |scopes| && PropReadOnly(p)
  {
    if p.value.None? then FindVar(scopes, env, p.key).value
    else ReadValue(scopes, env, p.value.value, show).value
  }

  /**
   * Declaring a name that a read-only expression does not read leaves its
   * value and its diagnostics unchanged.
   */
  lemma {:induction false} ReadValueDeclareOther(s: seq<Scope>, d: EnvId, x: string, b: Binding,
                                                  env: EnvId, e: Expr, show: Value -> string)
    requires ChainOk(s) && d < |s| && env < |s| && ReadOnly(e) && !ReadsName(e, x)
    ensures ReadValue(Declare(s, d, x, b), env, e, show) == ReadValue(s, env, e, show)
  {
    match e
    case NumLit(_) =>
    case StrLit(_) =>
    case Id(y) =>
      LookupDeclareOther(s, d, x, b, env, y);
    case Binary(_, l, r) =>
      ReadValueDeclareOther(s, d, x, b, env, l, show);
      ReadValueDeclareOther(s, d, x, b, env, r, show);
  }

  /**
   * In a call's environment, parameter `i` reads as argument `i` (unless a
   * later parameter has its name), without a diagnostic.
   */
  lemma CallReadsArgument(s: seq<Scope>, parent: EnvId, params: seq<string>, args: seq<Value>, i: nat,
                          show: Value -> string)
    requires ChainOk(s) && parent < |s| && |params| == |args| && i < |params|
    requires forall k | i < k < |params| :: params[k] != params[i]
    ensures ReadValue(CallStore(s, parent, params, args), |s|, Id(params[i]), show) == Reading(args[i], [])
  {
    LookupParameter(s, parent, params, args, i);
  }

  /**
   * The statements whose execution only reads the store and declares in
   * the current environment: `var`/`const`, expression statements and
   * `return` over read-only expressions, and `func` declarations.
   */
  predicate SimpleStmt(s: Stmt) {
    match s
    case VarCreation(_, init, _) => ReadOnly(init)
    case FuncCreation(_, _, _) => true
    case ReturnStmt(result) => ReadOnly(result)
    case UseStmt(_) => false
    case ExprStmt(expr) => ReadOnly(expr)
  }

  predicate AllSimple(body: seq<Stmt>) {
    forall k | 0 <= k < |body| :: SimpleStmt(body[k])
  }

  /** The signal one statement yields, the store it leaves and the diagnostics it records. */
  datatype Step = Step(signal: Signal, scopes: seq<Scope>, diags: seq<Code>)

  /**
   * What one simple statement does in `env`: `var`/`const` declare the
   * reading of their initialiser with their locked flag, `func` declares a
   * locked closure over `env`, an expression statement is read, and
   * `return` yields a return signal carrying the reading of its expression.
   */
  function StepSimple(scopes: seq<Scope>, env: EnvId, s: Stmt, show: Value -> string): (r: Step)
    requires ChainOk(scopes) && env < |scopes| && SimpleStmt(s)
    ensures ChainOk(r.scopes) && |r.scopes| == |scopes| && r.scopes[env].parent == scopes[env].parent
    ensures forall j | 0 <= j < |scopes| && j != env :: r.scopes[j] == scopes[j]
    ensures r.signal.Returned? <==> s.ReturnStmt?
  {
    match s
    case VarCreation(name, init, locked) =>
      var p := ReadValue(scopes, env, init, show);
      Step(Normal(p.value), Declare(scopes, env, name, Binding(p.value, locked)), p.diags)
    case FuncCreation(name, params, fbody) =>
      var f := Func(name, params, fbody, env);
      Step(Normal(f), Declare(scopes, env, name, Binding(f, true)), [])
    case ReturnStmt(result) =>
      var p := ReadValue(scopes, env, result, show);
      Step(Returned(p.value), scopes, p.diags)
    case ExprStmt(expr) =>
      var p := ReadValue(scopes, env, expr, show);
      Step(Normal(p.value), scopes, p.diags)
  }

  /** The value a run of statements yields, the store it leaves and the diagnostics it records. */
  datatype Run = Run(value: Value, scopes: seq<Scope>, diags: seq<Code>)

  /**
   * What running simple statements in `env` does: each statement takes its
   * `StepSimple` effect in turn, and the first return signal ends the run
   * with its payload. A run that reaches the end yields Null.
   */
  function RunSimple(scopes: seq<Scope>, env: EnvId, body: seq<Stmt>, show: Value -> string): (r: Run)
    requires ChainOk(scopes) && env < |scopes| && AllSimple(body)
    ensures ChainOk(r.scopes) && |r.scopes| == |scopes| && r.scopes[env].parent == scopes[env].parent
    ensures forall j | 0 <= j < |scopes| && j != env :: r.scopes[j] == scopes[j]
    ensures (forall k | 0 <= k < |body| :: !body[k].ReturnStmt?) ==> r.value == Null
    decreases |body|
  {
    if body == [] then Run(Null, scopes, [])
    else
      assert AllSimple(body[1..]);
      var st := StepSimple(scopes, env, body[0], show);
      if st.signal.Returned? then Run(st.signal.value, st.scopes, st.diags)
      else
        var rest := RunSimple(st.scopes, env, body[1..], show);
        Run(rest.value, rest.scopes, st.diags + rest.diags)
  }

  /** Nothing after the first `return` runs: statements appended after it change nothing. */
  lemma {:induction false} RunSimpleIgnoresRest(scopes: seq<Scope>, env: EnvId, body: seq<Stmt>, rest: seq<Stmt>,
                                                show: Value -> string)
    requires ChainOk(scopes) && env < |scopes| && AllSimple(body + rest)
    requires exists k | 0 <= k < |body| :: body[k].ReturnStmt?
    ensures AllSimple(body)
    ensures RunSimple(scopes, env, body + rest, show) == RunSimple(scopes, env, body, show)
    decreases |body|
  {
    assert forall k | 0 <= k < |body| :: (body + rest)[k] == body[k];
    var whole := body + rest;
    assert whole[0] == body[0];
    if !body[0].ReturnStmt? {
      assert whole[1..] == body[1..] + rest;
      var k :| 0 <= k < |body| && body[k].ReturnStmt?;
      assert body[1..][k - 1].ReturnStmt?;
      RunSimpleIgnoresRest(StepSimple(scopes, env, body[0], show).scopes, env, body[1..], rest, show);
    }
  }

  /** The run of a body from statement `i` on: statement `i`'s step, then the rest unless it returned. */
  lemma RunSimpleAt(scopes: seq<Scope>, env: EnvId, body: seq<Stmt>, i: nat, show: Value -> string)
    requires ChainOk(scopes) && env < |scopes| && i < |body| && AllSimple(body[i..])
    ensures SimpleStmt(body[i]) && AllSimple(body[i + 1..])
    ensures var st := StepSimple(scopes, env, body[i], show);
      RunSimple(scopes, env, body[i..], show) ==
        if st.signal.Returned? then Run(st.signal.value, st.scopes, st.diags)
        else var next := RunSimple(st.scopes, env, body[i + 1..], show); Run(next.value, next.scopes, st.diags + next.diags)
  {
    assert body[i..][0] == body[i] && body[i..][1..] == body[i + 1..];
  }

  /**
   * The loop invariant of a run, carried across statement `i`: what remains
   * of the whole run after the statements before `i` is the run from `i`,
   * and after statement `i` it is its return or the run from `i + 1`.
   */
  lemma RunSimpleNext(whole: Run, rest: Run, origin: seq<Code>, logged: seq<Code>, before: seq<Scope>, env: EnvId,
                      body: seq<Stmt>, i: nat, show: Value -> string)
    requires ChainOk(before) && env < |before| && i < |body| && AllSimple(body[i..])
    requires rest == RunSimple(before, env, body[i..], show)
    requires whole.value == rest.value && whole.scopes == rest.scopes && origin + whole.diags == logged + rest.diags
    ensures SimpleStmt(body[i]) && AllSimple(body[i + 1..])
    ensures var st := StepSimple(before, env, body[i], show);
      (st.signal.Returned? ==>
        whole.value == st.signal.value && whole.scopes == st.scopes && origin + whole.diags == logged + st.diags) &&
      (!st.signal.Returned? ==>
        var next := RunSimple(st.scopes, env, body[i + 1..], show);
        whole.value == next.value && whole.scopes == next.scopes && origin + whole.diags == (logged + st.diags) + next.diags)
  {
    RunSimpleAt(before, env, body, i, show);
    var st := StepSimple(before, env, body[i], show);
    if !st.signal.Returned? {
      AppendAssoc(logged, st.diags, RunSimple(st.scopes, env, body[i + 1..], show).diags);
    }
  }

  /** A module of simple statements with no `return`: its loop runs every statement. */
  predicate SimpleModule(program: seq<Stmt>) {
    AllSimple(program) && forall k | 0 <= k < |program| :: !program[k].ReturnStmt?
  }

  /** `var x = 1; return x` yields 1, with no diagnostic, whatever the store. */
  lemma RunSimpleDeclareThenReturn(scopes: seq<Scope>, env: EnvId, show: Value -> string)
    requires ChainOk(scopes) && env < |scopes|
    ensures AllSimple([VarCreation("x", NumLit(1.0), false), ReturnStmt(Id("x"))])
    ensures var run := RunSimple(scopes, env, [VarCreation("x", NumLit(1.0), false), ReturnStmt(Id("x"))], show);
            run.value == Num(Finite(1.0)) && run.diags == []
  {
    var body := [VarCreation("x", NumLit(1.0), false), ReturnStmt(Id("x"))];
    assert body[1..] == [ReturnStmt(Id("x"))];
  }

  /** `ReadArgs` of one more argument: its reading is appended. */
  lemma ReadArgsStep(scopes: seq<Scope>, env: EnvId, es: seq<Expr>, i: nat, show: Value -> string)
    requires ChainOk(scopes) && env < |scopes| && AllReadOnly(es) && i < |es|
    ensures AllReadOnly(es[..i]) && AllReadOnly(es[..i + 1])
    ensures var front := ReadArgs(scopes, env, es[..i], show);
            var last := ReadValue(scopes, env, es[i], show);
            ReadArgs(scopes, env, es[..i + 1], show) == Readings(front.values + [last.value], front.diags + last.diags)
  {
    assert es[..i + 1][..i] == es[..i];
  }

  // Proof steps the loops below need: map union and sequence concatenation regrouped.

  lemma UnionUpdate<K, V>(a: map<K, V>, b: map<K, V>, k: K, v: V)
    ensures (a + b)[k := v] == a + b[k := v]
  {
  }

  lemma AppendAssoc<T>(a: seq<T>, b: seq<T>, c: seq<T>)
    ensures a + b + c == a + (b + c)
  {
  }

  lemma AppendThree<T>(d: seq<T>, a: seq<T>, b: seq<T>, c: seq<T>)
    ensures d + a + b + c == d + (a + b + c)
  {
  }

  /** `evaluate` on an expression node. */
  method EvalExpr(rt: Runtime, e: Expr, env: EnvId, depth: nat) returns (r: Result<Value>)
    requires rt.Valid() && env < |rt.scopes|
    modifies rt
    ensures rt.Valid() && rt.Grew() && (r.Ok? ==> rt.Holds(r.value))
    ensures e.NumLit? ==> r == Ok(Num(Finite(e.num))) && unchanged(rt)
    ensures e.StrLit? ==> r == Ok(Str(e.text)) && unchanged(rt)
    ensures ReadOnly(e) ==>
      var p := ReadValue(old(rt.scopes), env, e, rt.show);
      r == Ok(p.value) && rt.diags == old(rt.diags) + p.diags &&
      rt.scopes == old(rt.scopes) && rt.objects == old(rt.objects) && rt.currentPath == old(rt.currentPath)
    decreases depth, 1, e, 1
  {
    match e
    case Id(x) =>
      var v := rt.FindVar(env, x);
      r := Ok(v);
    case NumLit(n) =>
      r := Ok(Num(Finite(n)));
    case StrLit(s) =>
      r := Ok(Str(s));
    case ObjectLit(_) =>
      ghost var entries;
      r, entries := EvalObject(rt, e, env, depth);
    case Binary(_, _, _) =>
      ghost var lhs, rhs, before;
      r, lhs, rhs, before := EvalBinary(rt, e, env, depth);
    case Assign(_, _) =>
      ghost var newValue, before;
      r, newValue, before := EvalAssign(rt, e, env, depth);
    case Member(_, _, _) =>
      r := EvalMember(rt, e, env, depth);
    case Call(_, _) =>
      ghost var callee, args;
      r, callee, args := EvalCall(rt, e, env, depth);
  }

  /**
   * `eval_binary_expr`: both operands are evaluated, left first, then the
   * operator is applied to their values.
   */
  method EvalBinary(rt: Runtime, e: Expr, env: EnvId, depth: nat)
    returns (r: Result<Value>, ghost lhs: Value, ghost rhs: Value, ghost before: seq<Code>)
    requires e.Binary? && rt.Valid() && env < |rt.scopes|
    modifies rt
    ensures rt.Valid() && rt.Grew() && (r.Ok? ==> rt.Holds(r.value))
    ensures r.Ok? ==>
      var out := BinaryOp(e.op, lhs, rhs, rt.show);
      r.value == out.value && rt.diags == before + DiagList(out.diag)
    ensures ReadOnly(e.left) && r.Ok? ==> lhs == ReadValue(old(rt.scopes), env, e.left, rt.show).value
    ensures ReadOnly(e) ==>
      var p := ReadValue(old(rt.scopes), env, e, rt.show);
      r == Ok(p.value) && rt.diags == old(rt.diags) + p.diags &&
      rt.scopes == old(rt.scopes) && rt.objects == old(rt.objects) && rt.currentPath == old(rt.currentPath)
    decreases depth, 1, e, 0
  {
    lhs, rhs, before := Null, Null, [];
    ghost var d0 := rt.diags;
    var l :- EvalExpr(rt, e.left, env, depth);
    ghost var d1 := rt.diags;
    var rv :- EvalExpr(rt, e.right, env, depth);
    lhs, rhs, before := l, rv, rt.diags;
    var out := BinaryOp(e.op, l, rv, rt.show);
    rt.Report(out.diag);
    r := Ok(out.value);
    if ReadOnly(e) {
      AppendThree(d0, d1[|d0|..], before[|d1|..], DiagList(out.diag));
    }
  }

  /**
   * `eval_object`: each property's value is evaluated, or for a shorthand
   * property looked up by its key, in order, and set on a new map; the
   * object is allocated once all values are known.
   */
  method EvalObject(rt: Runtime, e: Expr, env: EnvId, depth: nat) returns (r: Result<Value>, ghost entries: Props)
    requires e.ObjectLit? && rt.Valid() && env < |rt.scopes|
    modifies rt
    ensures rt.Valid() && rt.Grew() && (r.Ok? ==> rt.Holds(r.value))
    ensures r.Ok? ==> r.value.Obj? && r.value.ref == |rt.objects| - 1
    ensures r.Ok? ==> rt.objects[r.value.ref] == PutAll([], entries)
    ensures r.Ok? ==> |entries| == |e.properties|
    ensures r.Ok? ==> forall k | 0 <= k < |entries| :: entries[k].key == e.properties[k].key
    ensures (forall k | 0 <= k < |e.properties| :: PropReadOnly(e.properties[k])) ==>
      r.Ok? && rt.scopes == old(rt.scopes) && rt.objects == old(rt.objects) + [PutAll([], entries)] &&
      forall k | 0 <= k < |entries| :: entries[k].value == PropValue(old(rt.scopes), env, e.properties[k], rt.show)
    decreases depth, 1, e, 0
  {
    var props;
    props, entries :- EvalProperties(rt, e.properties, env, depth);
    var ref := rt.NewObject(props);
    r := Ok(Obj(ref));
  }

  /** The loop of `eval_object`: the properties in order, each set on the map built so far. */
  method EvalProperties(rt: Runtime, ps: seq<Property>, env: EnvId, depth: nat)
    returns (r: Result<Props>, ghost entries: Props)
    requires rt.Valid() && env < |rt.scopes|
    modifies rt
    ensures rt.Valid() && rt.Grew()
    ensures r.Ok? ==>
      r.value == PutAll([], entries) && DistinctKeys(r.value) &&
      forall k | 0 <= k < |r.value| :: rt.Holds(r.value[k].value)
    ensures r.Ok? ==> |entries| == |ps| && forall k | 0 <= k < |entries| :: entries[k].key == ps[k].key
    ensures (forall k | 0 <= k < |ps| :: PropReadOnly(ps[k])) ==>
      r.Ok? && rt.scopes == old(rt.scopes) && rt.objects == old(rt.objects) &&
      forall k | 0 <= k < |entries| :: entries[k].value == PropValue(old(rt.scopes), env, ps[k], rt.show)
    decreases depth, 1, ps, 0
  {
    entries := [];
    var props: Props := [];
    var i := 0;
    ghost var readOnly := forall k | 0 <= k < |ps| :: PropReadOnly(ps[k]);
    while i < |ps|
      invariant 0 <= i <= |ps| && |entries| == i
      invariant rt.Valid() && rt.Grew() && env < |rt.scopes|
      invariant props == PutAll([], entries) && DistinctKeys(props)
      invariant forall k | 0 <= k < |props| :: rt.Holds(props[k].value)
      invariant forall k | 0 <= k < i :: entries[k].key == ps[k].key
      invariant readOnly ==> rt.scopes == old(rt.scopes) && rt.objects == old(rt.objects)
      invariant readOnly ==> forall k | 0 <= k < i :: entries[k].value == PropValue(old(rt.scopes), env, ps[k], rt.show)
    {
      var p := ps[i];
      assert readOnly ==> PropReadOnly(p);
      ghost var v;
      props, v :- EvalProperty(rt, p, props, env, depth);
      ghost var grown := entries + [Entry(p.key, v)];
      assert grown[..i] == entries;
      assert props == PutAll([], grown);
      forall k | 0 <= k < i + 1
        ensures grown[k].key == ps[k].key
        ensures readOnly ==> grown[k].value == PropValue(old(rt.scopes), env, ps[k], rt.show)
      {
        if k < i {
          assert grown[k] == entries[k];
        }
      }
      entries := grown;
      i := i + 1;
    }
    r := Ok(props);
  }

  /**
   * One round of `eval_object`'s loop: the shorthand is looked up, any other
   * value evaluated, and the value `v` is set on the properties under
   * construction.
   */
  method EvalProperty(rt: Runtime, p: Property, props: Props, env: EnvId, depth: nat)
    returns (r: Result<Props>, ghost v: Value)
    requires rt.Valid() && env < |rt.scopes|
    requires DistinctKeys(props) && forall k | 0 <= k < |props| :: rt.Holds(props[k].value)
    modifies rt
    ensures rt.Valid() && rt.Grew()
    ensures r.Ok? ==> r.value == Put(props, p.key, v) && DistinctKeys(r.value)
    ensures r.Ok? ==> forall k | 0 <= k < |r.value| :: rt.Holds(r.value[k].value)
    ensures PropReadOnly(p) ==>
      r.Ok? && v == PropValue(old(rt.scopes), env, p, rt.show) &&
      rt.scopes == old(rt.scopes) && rt.objects == old(rt.objects)
    decreases depth, 1, p, 0
  {
    v := Null;
    var value: Value;
    if p.value.None? {
      value := rt.FindVar(env, p.key);
    } else {
      value :- EvalExpr(rt, p.value.value, env, depth);
    }
    v := value;
    var next := Put(props, p.key, value);
    assert forall k | 0 <= k < |next| :: next[k].value == v || next[k] in props;
    r := Ok(next);
  }

  /**
   * `eval_assign_expr`: a name is reassigned through `setVar`, a member
   * through the receiver object; any other target is AT3004.
   */
  method EvalAssign(rt: Runtime, e: Expr, env: EnvId, depth: nat)
    returns (r: Result<Value>, ghost newValue: Value, ghost before: seq<Scope>)
    requires e.Assign? && rt.Valid() && env < |rt.scopes|
    modifies rt
    ensures rt.Valid() && rt.Grew() && (r.Ok? ==> rt.Holds(r.value))
    ensures e.assignee.Id? && r.Ok? ==>
      ChainOk(before) && env < |before| &&
      var u := Scopes.SetVar(before, env, e.assignee.symbol, newValue);
      rt.scopes == u.scopes && r.value == u.value
    ensures !e.assignee.Id? && !e.assignee.Member? ==>
      r == Ok(Null) && rt.diags == old(rt.diags) + [AT3004] &&
      rt.scopes == old(rt.scopes) && rt.objects == old(rt.objects)
    ensures e.assignee.Id? && ReadOnly(e.value) ==>
      var p := ReadValue(old(rt.scopes), env, e.value, rt.show);
      var u := Scopes.SetVar(old(rt.scopes), env, e.assignee.symbol, p.value);
      r == Ok(u.value) && rt.scopes == u.scopes && rt.objects == old(rt.objects) &&
      rt.diags == old(rt.diags) + p.diags + DiagList(u.diag)
    ensures e.assignee.Member? && ReadOnly(e.assignee.obj) && ReadOnly(e.value) &&
            !e.assignee.isIndexed && e.assignee.property.Id? ==>
      var o := ReadValue(old(rt.scopes), env, e.assignee.obj, rt.show);
      var p := ReadValue(old(rt.scopes), env, e.value, rt.show);
      rt.scopes == old(rt.scopes) &&
      if o.value.Obj? then
        r == Ok(p.value) && rt.diags == old(rt.diags) + o.diags + p.diags &&
        rt.objects == old(rt.objects)[o.value.ref := Put(old(rt.objects)[o.value.ref], e.assignee.property.symbol, p.value)]
      else
        r == Ok(Null) && rt.diags == old(rt.diags) + o.diags + [AT3007] && rt.objects == old(rt.objects)
    decreases depth, 1, e, 0
  {
    newValue, before := Null, [];
    match e.assignee
    case Id(name) =>
      r, newValue, before := AssignName(rt, name, e.value, env, depth);
    case Member(_, _, _) =>
      var recv :- EvalExpr(rt, e.assignee.obj, env, depth);
      ghost var written;
      r, newValue, written := AssignMember(rt, recv, e.assignee, e.value, env, depth);
    case _ =>
      rt.Report(Some(AT3004));
      r := Ok(Null);
  }

  /** The identifier arm of `eval_assign_expr`: evaluate `value`, then `setVar`. */
  method AssignName(rt: Runtime, name: string, value: Expr, env: EnvId, depth: nat)
    returns (r: Result<Value>, ghost newValue: Value, ghost before: seq<Scope>)
    requires rt.Valid() && env < |rt.scopes|
    modifies rt
    ensures rt.Valid() && rt.Grew() && (r.Ok? ==> rt.Holds(r.value))
    ensures r.Ok? ==>
      ChainOk(before) && env < |before| &&
      var u := Scopes.SetVar(before, env, name, newValue);
      rt.scopes == u.scopes && r.value == u.value
    ensures ReadOnly(value) ==>
      var p := ReadValue(old(rt.scopes), env, value, rt.show);
      var u := Scopes.SetVar(old(rt.scopes), env, name, p.value);
      r == Ok(u.value) && rt.scopes == u.scopes && rt.objects == old(rt.objects) &&
      rt.diags == old(rt.diags) + p.diags + DiagList(u.diag)
    decreases depth, 1, value, 2
  {
    newValue, before := Null, [];
    var v :- EvalExpr(rt, value, env, depth);
    newValue, before := v, rt.scopes;
    var stored := rt.SetVar(env, name, v);
    r := Ok(stored);
  }

  /**
   * `eval_assigne_member_expr`: write `value` into the receiver `recv`
   * through the member expression `m`. `before` is the receiver's property
   * list just before the write.
   */
  method AssignMember(rt: Runtime, recv: Value, m: Expr, value: Expr, env: EnvId, depth: nat)
    returns (r: Result<Value>, ghost newValue: Value, ghost before: Props)
    requires m.Member? && rt.Valid() && env < |rt.scopes| && rt.Holds(recv)
    modifies rt
    ensures rt.Valid() && rt.Grew() && (r.Ok? ==> rt.Holds(r.value))
    ensures !recv.Obj? ==>
      r == Ok(Null) && rt.diags == old(rt.diags) + [AT3007] &&
      rt.scopes == old(rt.scopes) && rt.objects == old(rt.objects)
    ensures recv.Obj? && m.isIndexed && !m.property.NumLit? ==>
      r == Ok(Null) && rt.diags == old(rt.diags) + [AT3008] &&
      rt.scopes == old(rt.scopes) && rt.objects == old(rt.objects)
    ensures recv.Obj? && m.isIndexed && m.property.NumLit? && r.Ok? ==>
      var u := PutAt(before, m.property.num, newValue);
      rt.objects[recv.ref] == u.props && r.value == u.out.value
    ensures recv.Obj? && !m.isIndexed && m.property.Id? && r.Ok? ==>
      rt.objects[recv.ref] == Put(before, m.property.symbol, newValue) && r.value == newValue &&
      Get(rt.objects[recv.ref], m.property.symbol) == newValue
    ensures recv.Obj? && !m.isIndexed && !m.property.Id? && !m.property.Member? ==>
      r == Ok(Null) && unchanged(rt)
    ensures recv.Obj? && !m.isIndexed && m.property.Member? && depth == 0 ==>
      r == Abort(StackOverflow) && unchanged(rt)
    ensures !m.isIndexed && m.property.Member? && r.Ok? ==> r.value == Null
    ensures recv.Obj? && m.isIndexed && m.property.NumLit? && ReadOnly(value) ==>
      var p := ReadValue(old(rt.scopes), env, value, rt.show);
      var u := PutAt(old(rt.objects)[recv.ref], m.property.num, p.value);
      r == Ok(u.out.value) && rt.objects == old(rt.objects)[recv.ref := u.props] &&
      rt.scopes == old(rt.scopes) && rt.diags == old(rt.diags) + p.diags + DiagList(u.out.diag)
    ensures recv.Obj? && !m.isIndexed && m.property.Id? && ReadOnly(value) ==>
      var p := ReadValue(old(rt.scopes), env, value, rt.show);
      r == Ok(p.value) && rt.objects == old(rt.objects)[recv.ref := Put(old(rt.objects)[recv.ref], m.property.symbol, p.value)] &&
      rt.scopes == old(rt.scopes) && rt.diags == old(rt.diags) + p.diags
    decreases depth, 1, value, 2
  {
    newValue, before := Null, [];
    if !recv.Obj? {
      rt.Report(Some(AT3007));
      return Ok(Null), newValue, before;
    }
    if m.isIndexed {
      if !m.property.NumLit? {
        rt.Report(Some(AT3008));
        return Ok(Null), newValue, before;
      }
      var v :- EvalExpr(rt, value, env, depth);
      newValue, before := v, rt.objects[recv.ref];
      var stored := rt.SetIndexed(recv.ref, m.property.num, v);
      return Ok(stored), newValue, before;
    }
    if m.property.Member? {
      // The source recurses on the same member expression, re-evaluating
      // its object each time; only the stack bound ends the recursion.
      if depth == 0 {
        return Abort(StackOverflow), newValue, before;
      }
      var again :- EvalExpr(rt, m.obj, env, depth - 1);
      r, newValue, before := AssignMember(rt, again, m, value, env, depth - 1);
      return;
    }
    if m.property.Id? {
      var v :- EvalExpr(rt, value, env, depth);
      newValue, before := v, rt.objects[recv.ref];
      var stored := rt.SetProperty(recv.ref, m.property.symbol, v);
      return Ok(stored), newValue, before;
    }
    r := Ok(Null);
  }

  /** `eval_member_expr`: evaluate the receiver, then read the member. */
  method EvalMember(rt: Runtime, e: Expr, env: EnvId, depth: nat) returns (r: Result<Value>)
    requires e.Member? && rt.Valid() && env < |rt.scopes|
    modifies rt
    ensures rt.Valid() && rt.Grew() && (r.Ok? ==> rt.Holds(r.value))
    ensures !e.isIndexed && e.property.Member? && r.Ok? ==> r.value == Null
    ensures ReadOnly(e.obj) && (e.isIndexed || e.property.Id?) ==>
      var o := ReadValue(old(rt.scopes), env, e.obj, rt.show);
      rt.scopes == old(rt.scopes) && rt.objects == old(rt.objects) &&
      if !o.value.Obj? || (e.isIndexed && !e.property.NumLit?) then
        r == Ok(Null) && rt.diags == old(rt.diags) + o.diags + [AT3007]
      else if e.isIndexed then
        var g := GetAt(old(rt.objects)[o.value.ref], e.property.num);
        r == Ok(g.value) && rt.diags == old(rt.diags) + o.diags + DiagList(g.diag)
      else
        r == Ok(Get(old(rt.objects)[o.value.ref], e.property.symbol)) && rt.diags == old(rt.diags) + o.diags
    decreases depth, 1, e, 0
  {
    var recv :- EvalExpr(rt, e.obj, env, depth);
    r := ReadMember(rt, recv, e, env, depth);
  }

  /** The part of `eval_member_expr` that follows the receiver's evaluation. */
  method ReadMember(rt: Runtime, recv: Value, e: Expr, env: EnvId, depth: nat) returns (r: Result<Value>)
    requires e.Member? && rt.Valid() && env < |rt.scopes| && rt.Holds(recv)
    modifies rt
    ensures rt.Valid() && rt.Grew() && (r.Ok? ==> rt.Holds(r.value))
    ensures !recv.Obj? ==>
      r == Ok(Null) && rt.diags == old(rt.diags) + [AT3007] &&
      rt.scopes == old(rt.scopes) && rt.objects == old(rt.objects)
    ensures recv.Obj? && e.isIndexed && !e.property.NumLit? ==>
      r == Ok(Null) && rt.diags == old(rt.diags) + [AT3007] &&
      rt.scopes == old(rt.scopes) && rt.objects == old(rt.objects)
    ensures recv.Obj? && e.isIndexed && e.property.NumLit? ==>
      var o := GetAt(old(rt.objects)[recv.ref], e.property.num);
      r == Ok(o.value) && rt.diags == old(rt.diags) + DiagList(o.diag) &&
      rt.scopes == old(rt.scopes) && rt.objects == old(rt.objects)
    ensures recv.Obj? && !e.isIndexed && e.property.Id? ==>
      r == Ok(Get(old(rt.objects)[recv.ref], e.property.symbol)) && unchanged(rt)
    ensures recv.Obj? && !e.isIndexed && !e.property.Id? && !e.property.Member? ==>
      r == Ok(Null) && unchanged(rt)
    ensures recv.Obj? && !e.isIndexed && e.property.Member? && depth == 0 ==>
      r == Abort(StackOverflow) && unchanged(rt)
    ensures !e.isIndexed && e.property.Member? && r.Ok? ==> r.value == Null
    decreases depth, 0
  {
    if !recv.Obj? {
      rt.Report(Some(AT3007));
      return Ok(Null);
    }
    if e.isIndexed {
      if !e.property.NumLit? {
        rt.Report(Some(AT3007));
        return Ok(Null);
      }
      var v := rt.GetIndexed(recv.ref, e.property.num);
      return Ok(v);
    }
    if e.property.Member? {
      // The source calls itself on the very same node: each round
      // re-evaluates the receiver until the stack runs out.
      if depth == 0 {
        return Abort(StackOverflow);
      }
      r := EvalMember(rt, e, env, depth - 1);
      return;
    }
    if e.property.Id? {
      var v := rt.GetProperty(recv.ref, e.property.symbol);
      return Ok(v);
    }
    r := Ok(Null);
  }

  /**
   * `eval_call_expr`: the arguments are evaluated first, left to right,
   * then the callee; a user function runs in a fresh scope, a native one is
   * handed the arguments, and anything else is AT3010. When the arguments
   * and the callee are read-only, `args` and `callee` are their readings and
   * each arm's outcome is stated in full.
   */
  method EvalCall(rt: Runtime, e: Expr, env: EnvId, depth: nat)
    returns (r: Result<Value>, ghost callee: Value, ghost args: seq<Value>)
    requires e.Call? && rt.Valid() && env < |rt.scopes|
    modifies rt
    ensures rt.Valid() && rt.Grew() && (r.Ok? ==> rt.Holds(r.value))
    ensures r.Ok? ==> |args| == |e.args|
    ensures r.Ok? && callee.NativeFunc? ==> r.value == rt.native(callee.id, args, env)
    ensures r.Ok? && callee.Func? && |args| != |callee.parameters| ==>
      r.value == Null && |rt.diags| > 0 && rt.diags[|rt.diags| - 1] == AT3011
    ensures r.Ok? && !callee.Func? && !callee.NativeFunc? ==>
      r.value == Null && |rt.diags| > 0 && rt.diags[|rt.diags| - 1] == AT3010
    ensures AllReadOnly(e.args) && ReadOnly(e.caller) ==>
      var a := ReadArgs(old(rt.scopes), env, e.args, rt.show);
      var c := ReadValue(old(rt.scopes), env, e.caller, rt.show);
      var read := old(rt.diags) + a.diags + c.diags;
      args == a.values && callee == c.value &&
      (!c.value.Func? && !c.value.NativeFunc? ==>
        r == Ok(Null) && rt.scopes == old(rt.scopes) && rt.objects == old(rt.objects) &&
        rt.diags == read + [AT3010]) &&
      (c.value.NativeFunc? ==>
        r == Ok(rt.native(c.value.id, a.values, env)) && rt.scopes == old(rt.scopes) &&
        rt.objects == old(rt.objects) && rt.diags == read) &&
      (c.value.Func? && |a.values| != |c.value.parameters| ==>
        r == Ok(Null) && rt.scopes == NewScope(old(rt.scopes), Some(c.value.env)) &&
        rt.objects == old(rt.objects) && rt.diags == read + [AT3011]) &&
      (c.value.Func? && |a.values| == |c.value.parameters| && depth > 0 && c.value.body == [] ==>
        r == Ok(Null) && rt.scopes == CallStore(old(rt.scopes), c.value.env, c.value.parameters, a.values) &&
        rt.objects == old(rt.objects) && rt.diags == read) &&
      (c.value.Func? && |a.values| == |c.value.parameters| && depth > 0 && |c.value.body| > 0 &&
       c.value.body[0].ReturnStmt? && ReadOnly(c.value.body[0].result) ==>
        var store := CallStore(old(rt.scopes), c.value.env, c.value.parameters, a.values);
        var p := ReadValue(store, |old(rt.scopes)|, c.value.body[0].result, rt.show);
        r == Ok(p.value) && rt.scopes == store && rt.objects == old(rt.objects) && rt.diags == read + p.diags) &&
      (c.value.Func? && |a.values| == |c.value.parameters| && depth > 0 && AllSimple(c.value.body) ==>
        var store := CallStore(old(rt.scopes), c.value.env, c.value.parameters, a.values);
        var run := RunSimple(store, |old(rt.scopes)|, c.value.body, rt.show);
        r == Ok(run.value) && rt.scopes == run.scopes && rt.objects == old(rt.objects) && rt.diags == read + run.diags)
    decreases depth, 1, e, 0
  {
    callee := Null;
    args := [];
    var vals :- EvalArgs(rt, e.args, env, depth);
    args := vals;
    var fn :- EvalExpr(rt, e.caller, env, depth);
    callee := fn;
    r := ApplyCallee(rt, fn, vals, env, depth);
  }

  /** The dispatch of `eval_call_expr` on the callee's value. */
  method ApplyCallee(rt: Runtime, fn: Value, args: seq<Value>, env: EnvId, depth: nat) returns (r: Result<Value>)
    requires rt.Valid() && env < |rt.scopes| && rt.Holds(fn)
    requires forall k | 0 <= k < |args| :: rt.Holds(args[k])
    modifies rt
    ensures rt.Valid() && rt.Grew() && (r.Ok? ==> rt.Holds(r.value))
    ensures !fn.Func? && !fn.NativeFunc? ==>
      r == Ok(Null) && rt.scopes == old(rt.scopes) && rt.objects == old(rt.objects) &&
      rt.diags == old(rt.diags) + [AT3010]
    ensures fn.NativeFunc? ==> r == Ok(rt.native(fn.id, args, env)) && unchanged(rt)
    ensures fn.Func? && |args| != |fn.parameters| ==>
      r == Ok(Null) && rt.scopes == NewScope(old(rt.scopes), Some(fn.env)) &&
      rt.objects == old(rt.objects) && rt.diags == old(rt.diags) + [AT3011]
    ensures fn.Func? && |args| == |fn.parameters| && depth == 0 ==> r == Abort(StackOverflow)
    ensures fn.Func? && |args| == |fn.parameters| && depth > 0 && fn.body == [] ==>
      r == Ok(Null) && rt.scopes == CallStore(old(rt.scopes), fn.env, fn.parameters, args) &&
      rt.objects == old(rt.objects) && rt.diags == old(rt.diags)
    ensures fn.Func? && |args| == |fn.parameters| && depth > 0 && |fn.body| > 0 &&
            fn.body[0].ReturnStmt? && ReadOnly(fn.body[0].result) ==>
      var store := CallStore(old(rt.scopes), fn.env, fn.parameters, args);
      var p := ReadValue(store, |old(rt.scopes)|, fn.body[0].result, rt.show);
      r == Ok(p.value) && rt.scopes == store && rt.objects == old(rt.objects) && rt.diags == old(rt.diags) + p.diags
    ensures fn.Func? && |args| == |fn.parameters| && depth > 0 && AllSimple(fn.body) ==>
      var run := RunSimple(CallStore(old(rt.scopes), fn.env, fn.parameters, args), |old(rt.scopes)|, fn.body, rt.show);
      r == Ok(run.value) && rt.scopes == run.scopes &&
      rt.objects == old(rt.objects) && rt.diags == old(rt.diags) + run.diags
    decreases depth, 0, 1
  {
    match fn
    case Func(_, _, _, _) =>
      var callEnv; ghost var signals;
      r, callEnv, signals := CallFunction(rt, fn, args, depth);
    case NativeFunc(id) =>
      r := Ok(rt.native(id, args, env));
    case _ =>
      rt.Report(Some(AT3010));
      r := Ok(Null);
  }

  /** The argument loop of `eval_call_expr`: each argument in turn, left to right. */
  method EvalArgs(rt: Runtime, es: seq<Expr>, env: EnvId, depth: nat) returns (r: Result<seq<Value>>)
    requires rt.Valid() && env < |rt.scopes|
    modifies rt
    ensures rt.Valid() && rt.Grew()
    ensures r.Ok? ==> |r.value| == |es| && forall k | 0 <= k < |es| :: rt.Holds(r.value[k])
    ensures AllReadOnly(es) ==>
      var a := ReadArgs(old(rt.scopes), env, es, rt.show);
      r == Ok(a.values) && rt.diags == old(rt.diags) + a.diags &&
      rt.scopes == old(rt.scopes) && rt.objects == old(rt.objects)
    decreases depth, 1, es, 0
  {
    var vals: seq<Value> := [];
    ghost var readOnly := AllReadOnly(es);
    ghost var acc := Readings([], []);
    var i := 0;
    while i < |es|
      invariant 0 <= i <= |es| && |vals| == i
      invariant rt.Valid() && rt.Grew() && env < |rt.scopes|
      invariant forall k | 0 <= k < i :: rt.Holds(vals[k])
      invariant readOnly ==>
        AllReadOnly(es[..i]) && acc == ReadArgs(old(rt.scopes), env, es[..i], rt.show) &&
        vals == acc.values && rt.diags == old(rt.diags) + acc.diags &&
        rt.scopes == old(rt.scopes) && rt.objects == old(rt.objects)
    {
      vals :- EvalArg(rt, es[i], vals, env, depth);
      if readOnly {
        ghost var step := ReadValue(old(rt.scopes), env, es[i], rt.show);
        ReadArgsStep(old(rt.scopes), env, es, i, rt.show);
        AppendAssoc(old(rt.diags), acc.diags, step.diags);
        acc := Readings(acc.values + [step.value], acc.diags + step.diags);
      }
      i := i + 1;
    }
    assert es[..i] == es;
    r := Ok(vals);
  }

  /** One round of the argument loop: the argument's value is appended to `vals`. */
  method EvalArg(rt: Runtime, e: Expr, vals: seq<Value>, env: EnvId, depth: nat) returns (r: Result<seq<Value>>)
    requires rt.Valid() && env < |rt.scopes|
    requires forall k | 0 <= k < |vals| :: rt.Holds(vals[k])
    modifies rt
    ensures rt.Valid() && rt.Grew()
    ensures r.Ok? ==>
      |r.value| == |vals| + 1 && r.value[..|vals|] == vals &&
      forall k | 0 <= k < |r.value| :: rt.Holds(r.value[k])
    ensures ReadOnly(e) ==>
      var p := ReadValue(old(rt.scopes), env, e, rt.show);
      r == Ok(vals + [p.value]) && rt.diags == old(rt.diags) + p.diags &&
      rt.scopes == old(rt.scopes) && rt.objects == old(rt.objects)
    decreases depth, 1, e, 2
  {
    var v :- EvalExpr(rt, e, env, depth);
    r := Ok(vals + [v]);
    assert r.value[..|vals|] == vals;
  }

  /**
   * The user-function arm of `eval_call_expr`. The call's environment is
   * created first; an arity mismatch is AT3011 and leaves it empty.
   * Otherwise parameter `k` is bound to argument `k` in it (`CallStore`) and
   * the body runs there until its first `return`.
   */
  method CallFunction(rt: Runtime, fn: Value, args: seq<Value>, depth: nat)
    returns (r: Result<Value>, callEnv: EnvId, ghost signals: seq<Signal>)
    requires fn.Func? && rt.Valid() && fn.env < |rt.scopes|
    requires forall k | 0 <= k < |args| :: rt.Holds(args[k])
    modifies rt
    ensures rt.Valid() && rt.Grew() && (r.Ok? ==> rt.Holds(r.value))
    ensures callEnv == old(|rt.scopes|) && callEnv < |rt.scopes| && rt.scopes[callEnv].parent == Some(fn.env)
    ensures |args| != |fn.parameters| ==>
      r == Ok(Null) && rt.scopes == NewScope(old(rt.scopes), Some(fn.env)) &&
      rt.objects == old(rt.objects) && rt.diags == old(rt.diags) + [AT3011]
    ensures |args| == |fn.parameters| && depth == 0 ==> r == Abort(StackOverflow)
    ensures |args| == |fn.parameters| && depth > 0 && fn.body == [] ==>
      r == Ok(Null) && rt.scopes == CallStore(old(rt.scopes), fn.env, fn.parameters, args) &&
      rt.objects == old(rt.objects) && rt.diags == old(rt.diags)
    ensures |args| == |fn.parameters| && depth > 0 && |fn.body| > 0 &&
            fn.body[0].ReturnStmt? && ReadOnly(fn.body[0].result) ==>
      var store := CallStore(old(rt.scopes), fn.env, fn.parameters, args);
      var p := ReadValue(store, callEnv, fn.body[0].result, rt.show);
      r == Ok(p.value) && rt.scopes == store &&
      rt.objects == old(rt.objects) && rt.diags == old(rt.diags) + p.diags
    ensures |args| == |fn.parameters| && depth > 0 && AllSimple(fn.body) ==>
      var run := RunSimple(CallStore(old(rt.scopes), fn.env, fn.parameters, args), callEnv, fn.body, rt.show);
      r == Ok(run.value) && rt.scopes == run.scopes &&
      rt.objects == old(rt.objects) && rt.diags == old(rt.diags) + run.diags
    ensures |args| == |fn.parameters| && r.Ok? ==>
      StopsAtFirstReturn(signals, |fn.body|, r.value) &&
      forall k | 0 <= k < |signals| :: signals[k].Returned? <==> fn.body[k].ReturnStmt?
    ensures r.Ok? && (forall k | 0 <= k < |fn.body| :: !fn.body[k].ReturnStmt?) ==> r.value == Null
    decreases depth, 0, 0
  {
    signals := [];
    callEnv := rt.NewEnv(Some(fn.env));
    if |args| != |fn.parameters| {
      rt.Report(Some(AT3011));
      return Ok(Null), callEnv, signals;
    }
    BindParameters(rt, callEnv, fn.parameters, args);
    assert map[] + ParamBindings(fn.parameters, args) == ParamBindings(fn.parameters, args);
    assert rt.scopes == CallStore(old(rt.scopes), fn.env, fn.parameters, args);
    if depth == 0 {
      return Abort(StackOverflow), callEnv, signals;
    }
    r, signals := RunBody(rt, fn.body, callEnv, depth - 1);
  }

  /** The `declareVar` loop of a call: parameter `x` is bound to argument `x`. */
  method BindParameters(rt: Runtime, env: EnvId, params: seq<string>, args: seq<Value>)
    requires rt.Valid() && env < |rt.scopes| && |params| == |args|
    requires forall k | 0 <= k < |args| :: rt.Holds(args[k])
    modifies rt`scopes
    ensures rt.Valid() && rt.Grew()
    ensures rt.scopes == old(rt.scopes)[env := old(rt.scopes)[env].(vars := old(rt.scopes)[env].vars + ParamBindings(params, args))]
  {
    ghost var base := old(rt.scopes)[env];
    assert base.vars + ParamBindings(params[..0], args[..0]) == base.vars;
    assert old(rt.scopes)[env := base] == old(rt.scopes);
    var x := 0;
    while x < |params|
      invariant 0 <= x <= |params|
      invariant rt.Valid() && rt.Grew()
      invariant rt.scopes == old(rt.scopes)[env := base.(vars := base.vars + ParamBindings(params[..x], args[..x]))]
    {
      assert params[..x + 1][..x] == params[..x] && args[..x + 1][..x] == args[..x];
      ghost var bound := ParamBindings(params[..x], args[..x]);
      assert ParamBindings(params[..x + 1], args[..x + 1]) == bound[params[x] := Binding(args[x], false)];
      UnionUpdate(base.vars, bound, params[x], Binding(args[x], false));
      var _ := rt.DeclareVar(env, params[x], args[x], false);
      x := x + 1;
    }
    assert params[..x] == params && args[..x] == args;
  }

  /**
   * The body loop of a call: run statements in order until one yields a
   * return signal, whose payload is the result; a body that runs to its end
   * yields Null. On a body of simple statements this is `RunSimple`.
   */
  method RunBody(rt: Runtime, body: seq<Stmt>, env: EnvId, depth: nat) returns (r: Result<Value>, ghost signals: seq<Signal>)
    requires rt.Valid() && env < |rt.scopes|
    modifies rt
    ensures rt.Valid() && rt.Grew() && (r.Ok? ==> rt.Holds(r.value))
    ensures r.Ok? ==> StopsAtFirstReturn(signals, |body|, r.value)
    ensures r.Ok? ==> |signals| <= |body| && forall k | 0 <= k < |signals| :: signals[k].Returned? <==> body[k].ReturnStmt?
    ensures r.Ok? && (forall k | 0 <= k < |body| :: !body[k].ReturnStmt?) ==> r.value == Null
    ensures body == [] ==> r == Ok(Null) && unchanged(rt)
    ensures |body| > 0 && body[0].ReturnStmt? && ReadOnly(body[0].result) ==>
      var p := ReadValue(old(rt.scopes), env, body[0].result, rt.show);
      r == Ok(p.value) && rt.scopes == old(rt.scopes) &&
      rt.objects == old(rt.objects) && rt.diags == old(rt.diags) + p.diags
    ensures AllSimple(body) ==>
      var run := RunSimple(old(rt.scopes), env, body, rt.show);
      r == Ok(run.value) && rt.scopes == run.scopes &&
      rt.objects == old(rt.objects) && rt.diags == old(rt.diags) + run.diags
    decreases depth, 3
  {
    signals := [];
    ghost var simple := AllSimple(body);
    ghost var whole := if simple then RunSimple(rt.scopes, env, body, rt.show) else Run(Null, [], []);
    ghost var rest := whole;
    var i := 0;
    while i < |body|
      invariant 0 <= i <= |body| && |signals| == i
      invariant rt.Valid() && rt.Grew() && env < |rt.scopes|
      invariant forall k | 0 <= k < i :: !signals[k].Returned? && !body[k].ReturnStmt?
      invariant i == 0 ==> unchanged(rt)
      invariant simple ==> AllSimple(body[i..]) && rt.objects == old(rt.objects)
      invariant simple ==> rest == RunSimple(rt.scopes, env, body[i..], rt.show)
      invariant simple ==>
        whole.value == rest.value && whole.scopes == rest.scopes && old(rt.diags) + whole.diags == rt.diags + rest.diags
    {
      var step;
      step, rest := RunStatement(rt, body, i, env, depth, simple, whole, rest, old(rt.diags));
      var last :- step;
      signals := signals + [last];
      if last.Returned? {
        return Ok(last.value), signals;
      }
      i := i + 1;
    }
    assert body[i..] == [];
    r := Ok(Null);
  }

  /**
   * One round of the body and module loops: statement `i` runs. When the
   * statements from `i` on are simple, `whole` and `rest` carry the loop's
   * reference run: the statement's return ends it, and otherwise `next` is
   * the run from `i + 1`.
   */
  method RunStatement(rt: Runtime, body: seq<Stmt>, i: nat, env: EnvId, depth: nat,
                      ghost simple: bool, ghost whole: Run, ghost rest: Run, ghost origin: seq<Code>)
    returns (r: Result<Signal>, ghost next: Run)
    requires rt.Valid() && env < |rt.scopes| && i < |body|
    requires simple ==>
      AllSimple(body[i..]) && rest == RunSimple(rt.scopes, env, body[i..], rt.show) &&
      whole.value == rest.value && whole.scopes == rest.scopes && origin + whole.diags == rt.diags + rest.diags
    modifies rt
    ensures rt.Valid() && rt.Grew() && (r.Ok? ==> rt.Holds(r.value.value))
    ensures r.Ok? ==> (r.value.Returned? <==> body[i].ReturnStmt?)
    ensures body[i].ReturnStmt? && ReadOnly(body[i].result) ==>
      var p := ReadValue(old(rt.scopes), env, body[i].result, rt.show);
      r == Ok(Returned(p.value)) && rt.scopes == old(rt.scopes) &&
      rt.objects == old(rt.objects) && rt.diags == old(rt.diags) + p.diags
    ensures simple ==>
      r.Ok? && rt.objects == old(rt.objects) &&
      (r.value.Returned? ==> whole.value == r.value.value && whole.scopes == rt.scopes && origin + whole.diags == rt.diags) &&
      (!r.value.Returned? ==>
        AllSimple(body[i + 1..]) && next == RunSimple(rt.scopes, env, body[i + 1..], rt.show) &&
        whole.value == next.value && whole.scopes == next.scopes && origin + whole.diags == rt.diags + next.diags)
    decreases depth, 2, body[i], 2
  {
    ghost var before := rt.scopes;
    ghost var logged := rt.diags;
    next := rest;
    r := EvalStmt(rt, body[i], env, depth);
    if simple {
      RunSimpleNext(whole, rest, origin, logged, before, env, body, i, rt.show);
      if !r.value.Returned? {
        next := RunSimple(rt.scopes, env, body[i + 1..], rt.show);
      }
    }
  }

  /** `evaluate` on a statement node. */
  method EvalStmt(rt: Runtime, s: Stmt, env: EnvId, depth: nat) returns (r: Result<Signal>)
    requires rt.Valid() && env < |rt.scopes|
    modifies rt
    ensures rt.Valid() && rt.Grew() && (r.Ok? ==> rt.Holds(r.value.value))
    ensures s.VarCreation? && r.Ok? ==>
      r.value.Normal? && s.name in rt.scopes[env].vars &&
      rt.scopes[env].vars[s.name] == Binding(r.value.value, s.isLocked)
    ensures s.FuncCreation? ==>
      var f := Func(s.name, s.parameters, s.body, env);
      r == Ok(Normal(f)) && rt.scopes == Declare(old(rt.scopes), env, s.name, Binding(f, true)) &&
      rt.objects == old(rt.objects) && rt.diags == old(rt.diags)
    ensures r.Ok? ==> (r.value.Returned? <==> s.ReturnStmt?)
    ensures s.UseStmt? && r.Ok? ==> r.value == Normal(Null) && rt.currentPath == old(rt.currentPath)
    ensures s.VarCreation? && ReadOnly(s.init) ==>
      var p := ReadValue(old(rt.scopes), env, s.init, rt.show);
      r == Ok(Normal(p.value)) && rt.scopes == Declare(old(rt.scopes), env, s.name, Binding(p.value, s.isLocked)) &&
      rt.objects == old(rt.objects) && rt.diags == old(rt.diags) + p.diags
    ensures s.ReturnStmt? && ReadOnly(s.result) ==>
      var p := ReadValue(old(rt.scopes), env, s.result, rt.show);
      r == Ok(Returned(p.value)) && rt.scopes == old(rt.scopes) &&
      rt.objects == old(rt.objects) && rt.diags == old(rt.diags) + p.diags
    ensures s.ExprStmt? && ReadOnly(s.expr) ==>
      var p := ReadValue(old(rt.scopes), env, s.expr, rt.show);
      r == Ok(Normal(p.value)) && rt.scopes == old(rt.scopes) &&
      rt.objects == old(rt.objects) && rt.diags == old(rt.diags) + p.diags
    ensures SimpleStmt(s) ==>
      var st := StepSimple(old(rt.scopes), env, s, rt.show);
      r == Ok(st.signal) && rt.scopes == st.scopes && rt.objects == old(rt.objects) && rt.diags == old(rt.diags) + st.diags
    decreases depth, 2, s, 1
  {
    match s
    case VarCreation(name, init, isLocked) =>
      // eval_var_creation
      var v :- EvalExpr(rt, init, env, depth);
      var stored := rt.DeclareVar(env, name, v, isLocked);
      r := Ok(Normal(stored));
    case FuncCreation(name, parameters, body) =>
      // eval_func_creation: the closure captures the defining environment
      var f := Func(name, parameters, body, env);
      var stored := rt.DeclareVar(env, name, f, true);
      r := Ok(Normal(stored));
    case ReturnStmt(result) =>
      // eval_return_stmt
      var v :- EvalExpr(rt, result, env, depth);
      r := Ok(Returned(v));
    case UseStmt(_) =>
      var moduleEnv;
      r, moduleEnv := EvalUse(rt, s, env, depth);
    case ExprStmt(expr) =>
      var v :- EvalExpr(rt, expr, env, depth);
      r := Ok(Normal(v));
  }

  /**
   * The statement loop of `eval_env`: every statement of the module in
   * order, in the module's environment; a return signal does not stop it.
   */
  method EvalModule(rt: Runtime, program: seq<Stmt>, moduleEnv: EnvId, depth: nat) returns (r: Result<Signal>)
    requires rt.Valid() && moduleEnv < |rt.scopes| && rt.scopes[moduleEnv].parent == None
    modifies rt
    ensures rt.Valid() && rt.Grew() && rt.scopes[moduleEnv].parent == None
    ensures r.Ok? ==> r.value == Normal(Null)
    ensures SimpleModule(program) ==>
      var run := RunSimple(old(rt.scopes), moduleEnv, program, rt.show);
      r == Ok(Normal(Null)) && rt.scopes == run.scopes && rt.objects == old(rt.objects) && rt.diags == old(rt.diags) + run.diags
    decreases depth, 3
  {
    ghost var simple := SimpleModule(program);
    ghost var whole := if simple then RunSimple(rt.scopes, moduleEnv, program, rt.show) else Run(Null, [], []);
    ghost var rest := whole;
    var i := 0;
    while i < |program|
      invariant 0 <= i <= |program|
      invariant rt.Valid() && rt.Grew() && moduleEnv < |rt.scopes| && rt.scopes[moduleEnv].parent == None
      invariant simple ==> SimpleModule(program[i..]) && rt.objects == old(rt.objects)
      invariant simple ==> rest == RunSimple(rt.scopes, moduleEnv, program[i..], rt.show)
      invariant simple ==> whole.value == rest.value && whole.scopes == rest.scopes && old(rt.diags) + whole.diags == rt.diags + rest.diags
    {
      var step;
      step, rest := RunStatement(rt, program, i, moduleEnv, depth, simple, whole, rest, old(rt.diags));
      var _ :- step;
      i := i + 1;
    }
    assert program[i..] == [];
    r := Ok(Normal(Null));
  }

  /**
   * `eval_use_stmt`: run the module in a fresh top-level environment with
   * the module's path as the current path, merge that environment's own
   * bindings into `env`, restore the previous path and yield Null. An
   * unreadable file aborts before anything changes; an abort while the
   * module runs leaves the module's path current.
   */
  method EvalUse(rt: Runtime, s: Stmt, env: EnvId, depth: nat) returns (r: Result<Signal>, moduleEnv: EnvId)
    requires s.UseStmt? && rt.Valid() && env < |rt.scopes|
    modifies rt
    ensures rt.Valid() && rt.Grew() && (r.Ok? ==> rt.Holds(r.value.value))
    ensures rt.modules(s.path).None? ==> r == Abort(UnreadableFile(s.path)) && unchanged(rt)
    ensures r.Ok? ==> r.value == Normal(Null) && rt.currentPath == old(rt.currentPath)
    ensures r.Ok? ==>
      old(|rt.scopes|) <= moduleEnv < |rt.scopes| && rt.scopes[moduleEnv].parent == None &&
      forall n | n in rt.scopes[moduleEnv].vars :: Lookup(rt.scopes, env, n) == Some(rt.scopes[moduleEnv].vars[n])
    ensures rt.modules(s.path).Some? && depth > 0 && SimpleModule(rt.modules(s.path).value) ==>
      var run := RunSimple(old(rt.scopes) + [Scope(None, rt.globals)], |old(rt.scopes)|, rt.modules(s.path).value, rt.show);
      r == Ok(Normal(Null)) && moduleEnv == |old(rt.scopes)| && rt.scopes == Merge(run.scopes, env, moduleEnv) &&
      rt.objects == old(rt.objects) && rt.diags == old(rt.diags) + run.diags &&
      forall n | n in old(rt.scopes)[env].vars && n !in rt.scopes[moduleEnv].vars ::
        n in rt.scopes[env].vars && rt.scopes[env].vars[n] == old(rt.scopes)[env].vars[n]
    decreases depth, 2, s, 0
  {
    moduleEnv := 0;
    var prev := rt.currentPath;
    var program := rt.modules(s.path);
    if program.None? {
      return Abort(UnreadableFile(s.path)), moduleEnv;
    }
    rt.currentPath := s.path;
    if depth == 0 {
      return Abort(StackOverflow), moduleEnv;
    }
    moduleEnv := rt.CreateEnv();
    var _ :- EvalModule(rt, program.value, moduleEnv, depth - 1);
    ghost var merged := rt.scopes;
    rt.AddEnv(env, moduleEnv);
    forall n | n in rt.scopes[moduleEnv].vars
      ensures Lookup(rt.scopes, env, n) == Some(rt.scopes[moduleEnv].vars[n])
    {
      MergeVisible(merged, env, moduleEnv, n);
    }
    rt.currentPath := prev;
    r := Ok(Normal(Null));
  }
}
