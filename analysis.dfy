/**
 * The static type analyser of the Atomic compiler (src/analysis/analysis.rs).
 * It walks the parsed expressions, gives each one a `ConstType`, inserts
 * `As` casts where the operands of a binary expression disagree, and tracks
 * declared names in a stack of scope frames. The first error aborts the
 * walk (`?` in the source); some errors are also written to the error log
 * at the current source position.
 */
module Analysis {
  import opened Wrappers

  /** The analyser's types (crate::source::ConstType). */
  datatype ConstType = Int | Float | Str | Bool | Dynamic | Void

  /** A name with the type it was annotated with, if any. */
  datatype Ident = Ident(tag: Option<ConstType>, val: string)

  /** Literal constants of the parsed program. */
  datatype Literal = IntLit(i: int) | FloatLit(f: real) | StrLit(s: string) | BoolLit(b: bool)

  /** The parsed expressions the analyser accepts. */
  datatype Expr =
    | Literal(lit: Literal)
    | BinaryExpr(op: string, left: Expr, right: Expr)
    | Ident(id: Ident)
    | VarDeclare(name: Ident, val: Expr)
    | VarAssign(name: Ident, val: Expr)
    | Discard(inner: Expr)
    | PosInfo(x: string, line: nat, column: nat)
    | RetExpr(inner: Expr)
    | FnCall(name: Ident, args: seq<Expr>)
    | IfExpr(condition: Expr, body: seq<Expr>, alt: Option<Expr>)
    | Block(block: seq<Expr>)

  /** A function definition of the parsed program. */
  datatype Function = Function(name: Ident, args: seq<Ident>, body: seq<Expr>)

  /** The analysed tree: every node carries its type. */
  datatype TypedExpr = TypedExpr(expr: AnalyzedExpr, ty: ConstType)

  datatype AnalyzedExpr =
    | Literal(lit: Literal)
    | BinaryExpr(op: string, left: TypedExpr, right: TypedExpr)
    | Id(name: string)
    | VarDeclare(name: string, val: TypedExpr)
    | VarAssign(name: string, val: TypedExpr)
    | Discard(inner: TypedExpr)
    | Debug(x: string, line: nat, column: nat)
    | RetExpr(inner: TypedExpr)
    | FnCall(name: string, args: seq<TypedExpr>)
    | If(cond: TypedExpr, body: seq<TypedExpr>, alt: Option<TypedExpr>)
    | Block(items: seq<TypedExpr>)
    | As(inner: TypedExpr)
    | Func(ret: ConstType, name: string, params: seq<Ident>, body: seq<TypedExpr>)

  /** The error kinds the analyser raises. */
  datatype ErrKind = UndeclaredVar | VarAlreadyDeclared | OperationNotGranted

  /** An entry of the error log: kind and source position. */
  datatype ATErr = ATErr(kind: ErrKind, line: nat, column: nat)

  datatype Result<+T> = Ok(value: T) | Err(err: ErrKind) {
    predicate IsFailure() { Err? }
    function PropagateFailure<U>(): Result<U> requires Err? { Err(err) }
    function Extract(): T requires Ok? { value }
  }

  /** `Literal::get_ty`: each literal has the type of its kind. */
  function LiteralType(l: Literal): ConstType {
    match l
    case IntLit(_) => Int
    case FloatLit(_) => Float
    case StrLit(_) => Str
    case BoolLit(_) => Bool
  }

  // ----- The analyser's environment ---------------------------------------

  /** What the environment records about a function: its arguments and type. */
  datatype Signature = Signature(args: seq<Ident>, ty: ConstType)

  /** One scope: the types of its names and the functions declared in it. */
  datatype Frame = Frame(vars: map<string, ConstType>, fns: map<string, Signature>)

  /** A scope chain, innermost frame last. */
  type Env = seq<Frame>

  /** `get_ty`: the type held for `name` by the innermost frame that has it. */
  function GetTy(env: Env, name: string): (r: Option<ConstType>)
    ensures r.None? <==> forall k | 0 <= k < |env| :: name !in env[k].vars
    ensures r.Some? ==> exists k | 0 <= k < |env| :: name in env[k].vars && env[k].vars[name] == r.value
    decreases |env|
  {
    if |env| == 0 then None
    else if name in env[|env| - 1].vars then Some(env[|env| - 1].vars[name])
    else GetTy(env[..|env| - 1], name)
  }

  /** The type `get_ty` finds is the one held by the innermost frame declaring the name. */
  lemma {:induction false} GetTyInnermost(env: Env, name: string, k: nat)
    requires k < |env| && name in env[k].vars
    requires forall j | k < j < |env| :: name !in env[j].vars
    ensures GetTy(env, name) == Some(env[k].vars[name])
    decreases |env|
  {
    if k < |env| - 1 {
      var rest := env[..|env| - 1];
      assert forall j | 0 <= j < |rest| :: rest[j] == env[j];
      GetTyInnermost(rest, name, k);
    }
  }

  /** `has`: some frame of the chain declares `name`. */
  predicate Has(env: Env, name: string): (r: bool)
    ensures r <==> exists k | 0 <= k < |env| :: name in env[k].vars
  {
    GetTy(env, name).Some?
  }

  /** `add`: bind `name` in the innermost frame. */
  function Add(env: Env, name: string, ty: ConstType): (r: Env)
    requires |env| > 0
    ensures |r| == |env| && GetTy(r, name) == Some(ty)
    ensures forall other | other != name :: GetTy(r, other) == GetTy(env, other)
    ensures forall k | 0 <= k < |env| - 1 :: r[k] == env[k]
  {
    var top := env[|env| - 1];
    var r := env[..|env| - 1] + [top.(vars := top.vars[name := ty])];
    assert r[..|r| - 1] == env[..|env| - 1];
    r
  }

  /**
   * `modify`: give `name` a new type in the innermost frame that declares
   * it, or in the innermost frame when none does.
   */
  function Modify(env: Env, name: string, ty: ConstType): (r: Env)
    requires |env| > 0
    ensures |r| == |env| && GetTy(r, name) == Some(ty)
    ensures forall other | other != name :: GetTy(r, other) == GetTy(env, other)
    decreases |env|
  {
    var rest := env[..|env| - 1];
    var top := env[|env| - 1];
    if name in top.vars || !Has(rest, name) then
      var r := rest + [top.(vars := top.vars[name := ty])];
      assert r[..|r| - 1] == rest;
      r
    else
      var inner := Modify(rest, name, ty);
      var r := inner + [top];
      assert r[..|r| - 1] == inner;
      r
  }

  /** `get_function`: the signature held for `name` by the innermost frame that has it. */
  function GetFunction(env: Env, name: string): (r: Option<Signature>)
    ensures r.None? <==> forall k | 0 <= k < |env| :: name !in env[k].fns
    decreases |env|
  {
    if |env| == 0 then None
    else if name in env[|env| - 1].fns then Some(env[|env| - 1].fns[name])
    else GetFunction(env[..|env| - 1], name)
  }

  /** `child`: a new empty frame inside the chain; it hides and adds nothing. */
  function Child(env: Env): (r: Env)
    ensures |r| == |env| + 1 && r[..|env|] == env
    ensures forall name :: GetTy(r, name) == GetTy(env, name)
  {
    var r := env + [Frame(map[], map[])];
    assert r[..|env|] == env;
    r
  }

  /** `parent`: the chain without its innermost frame. */
  function Parent(env: Env): (r: Env)
    requires |env| > 1
    ensures |r| == |env| - 1 && forall k | 0 <= k < |r| :: r[k] == env[k]
  {
    env[..|env| - 1]
  }

  /**
   * A name declared in a child frame is gone once the chain returns to the
   * parent, while a retyping of an outer name made from the child survives.
   */
  lemma {:induction false} ParentForgetsChild(env: Env, inner: Frame, name: string, ty: ConstType)
    requires |env| > 0 && name !in inner.vars
    ensures GetTy(Parent(Add(env + [inner], name, ty)), name) == GetTy(env, name)
    ensures Has(env, name) ==> GetTy(Parent(Modify(env + [inner], name, ty)), name) == Some(ty)
  {
    var c := env + [inner];
    assert c[..|c| - 1] == env;
    assert Parent(Add(c, name, ty)) == env;
    if Has(env, name) {
      assert Modify(c, name, ty) == Modify(env, name, ty) + [inner];
    }
  }

  /** `unwrap_or(ConstType::Dynamic)` on an argument's annotation. */
  function DeclaredType(arg: Ident): ConstType {
    if arg.tag.Some? then arg.tag.value else Dynamic
  }

  /** The frame that the argument loop of `analyz_func` fills. */
  function ArgTypes(args: seq<Ident>): map<string, ConstType>
    decreases |args|
  {
    if args == [] then map[]
    else
      var n := |args| - 1;
      ArgTypes(args[..n])[args[n].val := DeclaredType(args[n])]
  }

  /** Argument `i` has its declared type, unless a later argument reuses its name. */
  lemma {:induction false} ArgTypeBound(args: seq<Ident>, i: nat)
    requires i < |args|
    requires forall k | i < k < |args| :: args[k].val != args[i].val
    ensures args[i].val in ArgTypes(args) && ArgTypes(args)[args[i].val] == DeclaredType(args[i])
    decreases |args|
  {
    var n := |args| - 1;
    if i < n {
      ArgTypeBound(args[..n], i);
    }
  }

  // ----- Binary operands --------------------------------------------------

  /** `ty_as`: wrap `e` in a cast to `ty`. */
  function TyAs(ty: ConstType, e: TypedExpr): (r: TypedExpr)
    ensures r.ty == ty && r.expr.As? && r.expr.inner == e
  {
    TypedExpr(AnalyzedExpr.As(e), ty)
  }

  /** Either side being Str or Dynamic, or one Int and one Float, lets the operands agree. */
  predicate Unifiable(a: ConstType, b: ConstType) {
    a == Str || b == Str || a == Dynamic || b == Dynamic ||
    (a == Int && b == Float) || (a == Float && b == Int)
  }

  /**
   * The operand coercion of `analyz_binary_expr`: when the types differ, at
   * most one side is cast, to the other side's type; Float beats Int, Str
   * beats everything, and Dynamic beats everything but Str.
   */
  function Coerce(lhs: TypedExpr, rhs: TypedExpr): (r: (TypedExpr, TypedExpr))
    ensures r == (lhs, rhs) || r == (lhs, TyAs(lhs.ty, rhs)) || r == (TyAs(rhs.ty, lhs), rhs)
    ensures lhs.ty == rhs.ty ==> r == (lhs, rhs)
    ensures lhs.ty == Float && rhs.ty == Int ==> r == (lhs, TyAs(Float, rhs))
    ensures lhs.ty == Int && rhs.ty == Float ==> r == (TyAs(Float, lhs), rhs)
    ensures lhs.ty == Str || rhs.ty == Str ==> r.0.ty == Str && r.1.ty == Str
    ensures lhs.ty != Str && rhs.ty != Str && (lhs.ty == Dynamic || rhs.ty == Dynamic) ==>
      r.0.ty == Dynamic && r.1.ty == Dynamic
    ensures r.0.ty == r.1.ty <==> lhs.ty == rhs.ty || Unifiable(lhs.ty, rhs.ty)
  {
    if lhs.ty == rhs.ty then (lhs, rhs)
    else if lhs.ty == Float && rhs.ty == Int then (lhs, TyAs(lhs.ty, rhs))
    else if lhs.ty == Int && rhs.ty == Float then (TyAs(rhs.ty, lhs), rhs)
    else if lhs.ty == Str then (lhs, TyAs(lhs.ty, rhs))
    else if rhs.ty == Str then (TyAs(rhs.ty, lhs), rhs)
    else if lhs.ty == Dynamic then (lhs, TyAs(lhs.ty, rhs))
    else if rhs.ty == Dynamic then (TyAs(rhs.ty, lhs), rhs)
    else (lhs, rhs)
  }

  /** The operators whose result is Bool whatever the operands. */
  predicate IsComparison(op: string) {
    op == "==" || op == ">" || op == "<" || op == ">=" || op == "<="
  }

  /** The type a block or an `if` body takes: its last item's, or Void when empty. */
  function LastType(items: seq<TypedExpr>): (t: ConstType)
    ensures items == [] ==> t == Void
    ensures items != [] ==> t == items[|items| - 1].ty
  {
    if items == [] then Void else items[|items| - 1].ty
  }

  // ----- Expressions whose analysis only reads the environment -----------

  /** Literals, names, and operators applied to such expressions. */
  predicate Pure(e: Expr) {
    match e
    case Literal(_) => true
    case Ident(_) => true
    case BinaryExpr(_, l, r) => Pure(l) && Pure(r)
    case _ => false
  }

  /**
   * A pure expression, or the declaration of a name with a pure value:
   * analysing it changes at most the innermost frame.
   */
  predicate Local(e: Expr) {
    Pure(e) || (e.VarDeclare? && Pure(e.val))
  }

  /**
   * What `analyz` yields for a pure expression: a literal has its kind's
   * type, a name the type `get_ty` finds (UndeclaredVar when none), and an
   * operator coerces its operands' typings, fails with OperationNotGranted
   * when the left type does not support it, and is Bool for comparisons.
   * The first failure, left operand before right, is the result.
   */
  function TypeOf(env: Env, e: Expr, supportsOp: (ConstType, string) -> bool): (r: Result<TypedExpr>)
    requires Pure(e)
    ensures r.Err? ==> r.err == UndeclaredVar || r.err == OperationNotGranted
    ensures r.Ok? && e.BinaryExpr? ==> r.value.expr.BinaryExpr? && supportsOp(r.value.expr.left.ty, e.op)
    ensures r.Ok? && e.BinaryExpr? && IsComparison(e.op) ==> r.value.ty == Bool
  {
    match e
    case Literal(lit) => Ok(TypedExpr(AnalyzedExpr.Literal(lit), LiteralType(lit)))
    case Ident(id) =>
      if Has(env, id.val) then Ok(TypedExpr(Id(id.val), GetTy(env, id.val).value)) else Err(UndeclaredVar)
    case BinaryExpr(op, l, r) =>
      var lhs :- TypeOf(env, l, supportsOp);
      var rhs :- TypeOf(env, r, supportsOp);
      var c := Coerce(lhs, rhs);
      if !supportsOp(c.0.ty, op) then Err(OperationNotGranted)
      else Ok(TypedExpr(AnalyzedExpr.BinaryExpr(op, c.0, c.1), if IsComparison(op) then Bool else c.0.ty))
  }

  /** Whether every name a pure expression reads is declared. */
  predicate Declared(env: Env, e: Expr)
    requires Pure(e)
  {
    match e
    case Ident(id) => Has(env, id.val)
    case BinaryExpr(_, l, r) => Declared(env, l) && Declared(env, r)
    case _ => true
  }

  /**
   * A pure expression types only when every name it reads is declared; and
   * when every operator is supported, that is also enough.
   */
  lemma {:induction false} TypeOfDeclared(env: Env, e: Expr, supportsOp: (ConstType, string) -> bool)
    requires Pure(e)
    ensures TypeOf(env, e, supportsOp).Ok? ==> Declared(env, e)
    ensures (forall t, op :: supportsOp(t, op)) ==> (TypeOf(env, e, supportsOp).Ok? <==> Declared(env, e))
  {
    match e
    case Literal(_) =>
    case Ident(_) =>
    case BinaryExpr(_, l, r) =>
      TypeOfDeclared(env, l, supportsOp);
      TypeOfDeclared(env, r, supportsOp);
  }

  /** A pure expression types the same inside a fresh child scope. */
  lemma {:induction false} TypeOfChild(env: Env, e: Expr, supportsOp: (ConstType, string) -> bool)
    requires Pure(e)
    ensures TypeOf(Child(env), e, supportsOp) == TypeOf(env, e, supportsOp)
  {
    match e
    case Literal(_) =>
    case Ident(id) =>
      assert GetTy(Child(env), id.val) == GetTy(env, id.val);
    case BinaryExpr(_, l, r) =>
      TypeOfChild(env, l, supportsOp);
      TypeOfChild(env, r, supportsOp);
  }

  /**
   * What the item loop yields for pure items: each typed in turn, and the
   * first failure is the result.
   */
  function TypeOfAll(env: Env, items: seq<Expr>, supportsOp: (ConstType, string) -> bool): (r: Result<seq<TypedExpr>>)
    requires forall k | 0 <= k < |items| :: Pure(items[k])
    ensures r.Ok? <==> forall k | 0 <= k < |items| :: TypeOf(env, items[k], supportsOp).Ok?
    ensures r.Ok? ==> |r.value| == |items| && forall k | 0 <= k < |items| :: TypeOf(env, items[k], supportsOp) == Ok(r.value[k])
    ensures r.Err? ==> exists j | 0 <= j < |items| ::
      TypeOf(env, items[j], supportsOp) == Err(r.err) && forall k | 0 <= k < j :: TypeOf(env, items[k], supportsOp).Ok?
    decreases |items|
  {
    if items == [] then Ok([])
    else
      var first :- TypeOf(env, items[0], supportsOp);
      var rest :- TypeOfAll(env, items[1..], supportsOp);
      Ok([first] + rest)
  }

  /** A list of pure items types the same inside a fresh child scope. */
  lemma {:induction false} TypeOfAllChild(env: Env, items: seq<Expr>, supportsOp: (ConstType, string) -> bool)
    requires forall k | 0 <= k < |items| :: Pure(items[k])
    ensures TypeOfAll(Child(env), items, supportsOp) == TypeOfAll(env, items, supportsOp)
    decreases |items|
  {
    if items != [] {
      TypeOfChild(env, items[0], supportsOp);
      TypeOfAllChild(env, items[1..], supportsOp);
    }
  }

  /** When items `0..i-1` type and item `i` fails, the item loop fails as item `i` does. */
  lemma FirstFailure(env: Env, items: seq<Expr>, i: nat, supportsOp: (ConstType, string) -> bool)
    requires forall k | 0 <= k < |items| :: Pure(items[k])
    requires i < |items| && TypeOf(env, items[i], supportsOp).Err?
    requires forall k | 0 <= k < i :: TypeOf(env, items[k], supportsOp).Ok?
    ensures TypeOfAll(env, items, supportsOp) == Err(TypeOf(env, items[i], supportsOp).err)
  {
    var r := TypeOfAll(env, items, supportsOp);
    var j :| 0 <= j < |items| && TypeOf(env, items[j], supportsOp) == Err(r.err) &&
      forall k | 0 <= k < j :: TypeOf(env, items[k], supportsOp).Ok?;
    assert j == i;
  }

  /** When every item types, the item loop yields exactly those typings. */
  lemma AllTyped(env: Env, items: seq<Expr>, typed: seq<TypedExpr>, supportsOp: (ConstType, string) -> bool)
    requires forall k | 0 <= k < |items| :: Pure(items[k])
    requires |typed| == |items| && forall k | 0 <= k < |items| :: TypeOf(env, items[k], supportsOp) == Ok(typed[k])
    ensures TypeOfAll(env, items, supportsOp) == Ok(typed)
  {
    var r := TypeOfAll(env, items, supportsOp);
    assert r.Ok?;
    assert r.value == typed;
  }

  /** What a failed analysis writes to the log: only OperationNotGranted is logged. */
  function Logged<T>(r: Result<T>, line: nat, column: nat): seq<ATErr> {
    if r.Err? && r.err == OperationNotGranted then [ATErr(OperationNotGranted, line, column)] else []
  }

  // ----- The analyser -----------------------------------------------------

  class Analyzer {
    var env: Env
    var line: nat
    var column: nat
    var errors: seq<ATErr>
    /** `supports_op`: whether values of a type accept an operator. */
    const supportsOp: (ConstType, string) -> bool
    /** `get_fn_type`: a function's type from its analysed body. */
    const fnType: seq<TypedExpr> -> ConstType

    ghost predicate Valid()
      reads this
    {
      |env| > 0
    }

    /** The error log only grows. */
    twostate predicate Grew()
      reads this
    {
      old(errors) <= errors
    }

    constructor (env: Env, supportsOp: (ConstType, string) -> bool, fnType: seq<TypedExpr> -> ConstType)
      requires |env| > 0
      ensures Valid() && this.env == env && line == 0 && column == 0 && errors == []
      ensures this.supportsOp == supportsOp && this.fnType == fnType
    {
      this.env := env;
      line, column := 0, 0;
      errors := [];
      this.supportsOp := supportsOp;
      this.fnType := fnType;
    }

    /** `err`: log an error at the current position. */
    method RecordError(kind: ErrKind)
      modifies this`errors
      ensures errors == old(errors) + [ATErr(kind, line, column)]
    {
      errors := errors + [ATErr(kind, line, column)];
    }

    /** `analyz`: type one expression. */
    method Analyz(e: Expr) returns (r: Result<TypedExpr>)
      requires Valid()
      modifies this
      ensures Valid() && Grew()
      ensures r.Ok? ==> |env| == old(|env|)
      ensures e.Literal? ==> r == Ok(TypedExpr(AnalyzedExpr.Literal(e.lit), LiteralType(e.lit))) && unchanged(this)
      ensures e.PosInfo? ==>
        r == Ok(TypedExpr(Debug(e.x, e.line, e.column), Void)) &&
        line == e.line && column == e.column && env == old(env) && errors == old(errors)
      ensures e.Discard? && r.Ok? ==> r.value.ty == Void && r.value.expr.Discard?
      ensures e.RetExpr? && r.Ok? ==> r.value.expr.RetExpr? && r.value.ty == r.value.expr.inner.ty
      ensures Pure(e) ==>
        r == TypeOf(old(env), e, supportsOp) && env == old(env) && line == old(line) && column == old(column) &&
        errors == old(errors) + Logged(r, line, column)
      ensures Local(e) ==>
        |env| == old(|env|) && line == old(line) && column == old(column) &&
        forall k | 0 <= k < |env| - 1 :: env[k] == old(env)[k]
      decreases e, 1
    {
      match e
      case Literal(lit) =>
        r := Ok(TypedExpr(AnalyzedExpr.Literal(lit), LiteralType(lit)));
      case BinaryExpr(_, _, _) =>
        ghost var lhs, rhs, operandsOk, before;
        r, lhs, rhs, operandsOk, before := AnalyzBinaryExpr(e);
      case Ident(id) =>
        r := AnalyzId(id);
      case VarDeclare(_, _) =>
        ghost var val, mid, valOk;
        r, val, mid, valOk := AnalyzVarDeclare(e);
      case VarAssign(_, _) =>
        ghost var val, mid, valOk;
        r, val, mid, valOk := AnalyzVarAssign(e);
      case Discard(inner) =>
        var t :- Analyz(inner);
        r := Ok(TypedExpr(AnalyzedExpr.Discard(t), Void));
      case PosInfo(x, l, c) =>
        line, column := l, c;
        r := Ok(TypedExpr(Debug(x, l, c), Void));
      case RetExpr(inner) =>
        var t :- Analyz(inner);
        r := Ok(TypedExpr(AnalyzedExpr.RetExpr(t), t.ty));
      case FnCall(_, _) =>
        var sig;
        r, sig := AnalyzFnCall(e);
      case IfExpr(_, _, _) =>
        ghost var bodyEnv;
        r, bodyEnv := AnalyzIf(e);
      case Block(_) =>
        r := AnalyzBlock(e);
    }

    /**
     * `analyz_binary_expr`: type both operands, coerce them, and type the
     * result; an operator the (coerced) left type does not support is
     * logged and fails with OperationNotGranted.
     */
    method AnalyzBinaryExpr(e: Expr)
      returns (r: Result<TypedExpr>, ghost lhs: TypedExpr, ghost rhs: TypedExpr, ghost operandsOk: bool, ghost before: seq<ATErr>)
      requires e.BinaryExpr? && Valid()
      modifies this
      ensures Valid() && Grew()
      ensures r.Ok? ==> operandsOk && |env| == old(|env|)
      ensures operandsOk && supportsOp(Coerce(lhs, rhs).0.ty, e.op) ==>
        r.Ok? && r.value.expr == AnalyzedExpr.BinaryExpr(e.op, Coerce(lhs, rhs).0, Coerce(lhs, rhs).1)
      ensures r.Ok? && IsComparison(e.op) ==> r.value.ty == Bool
      ensures r.Ok? && !IsComparison(e.op) ==> r.value.ty == Coerce(lhs, rhs).0.ty
      ensures operandsOk && !supportsOp(Coerce(lhs, rhs).0.ty, e.op) ==>
        r == Err(OperationNotGranted) && errors == before + [ATErr(OperationNotGranted, line, column)]
      ensures Pure(e) ==>
        var tl := TypeOf(old(env), e.left, supportsOp);
        var tr := TypeOf(old(env), e.right, supportsOp);
        (operandsOk <==> tl.Ok? && tr.Ok?) &&
        (operandsOk ==> lhs == tl.value && rhs == tr.value && before == old(errors)) &&
        r == TypeOf(old(env), e, supportsOp) && env == old(env) && line == old(line) && column == old(column) &&
        errors == old(errors) + Logged(r, line, column)
      decreases e, 0
    {
      lhs, rhs, operandsOk, before := TypedExpr(Debug("", 0, 0), Void), TypedExpr(Debug("", 0, 0), Void), false, [];
      var l :- Analyz(e.left);
      var rt :- Analyz(e.right);
      lhs, rhs, operandsOk, before := l, rt, true, errors;
      var coerced := Coerce(l, rt);
      var ty := if IsComparison(e.op) then Bool else coerced.0.ty;
      if !supportsOp(coerced.0.ty, e.op) {
        RecordError(OperationNotGranted);
        return Err(OperationNotGranted), lhs, rhs, operandsOk, before;
      }
      r := Ok(TypedExpr(AnalyzedExpr.BinaryExpr(e.op, coerced.0, coerced.1), ty));
    }

    /** `analyz_id`: a declared name has its recorded type; an unknown one fails, unlogged. */
    method AnalyzId(id: Ident) returns (r: Result<TypedExpr>)
      ensures r.Ok? <==> Has(env, id.val)
      ensures r.Ok? ==> r.value == TypedExpr(Id(id.val), GetTy(env, id.val).value)
      ensures r.Err? ==> r.err == UndeclaredVar
    {
      if !Has(env, id.val) {
        return Err(UndeclaredVar);
      }
      var ty := GetTy(env, id.val).value;
      r := Ok(TypedExpr(Id(id.val), ty));
    }

    /**
     * `analyz_var_declare`: type the value first; a name any frame already
     * declares fails with VarAlreadyDeclared, otherwise it is added to the
     * innermost frame with the value's type.
     */
    method AnalyzVarDeclare(e: Expr)
      returns (r: Result<TypedExpr>, ghost val: TypedExpr, ghost mid: Env, ghost valOk: bool)
      requires e.VarDeclare? && Valid()
      modifies this
      ensures Valid() && Grew()
      ensures r.Ok? ==> valOk && |env| == old(|env|)
      ensures valOk && Has(mid, e.name.val) ==> r == Err(VarAlreadyDeclared) && env == mid
      ensures valOk && !Has(mid, e.name.val) ==>
        |mid| > 0 && env == Add(mid, e.name.val, val.ty) &&
        r == Ok(TypedExpr(AnalyzedExpr.VarDeclare(e.name.val, val), val.ty))
      ensures r.Ok? ==> GetTy(env, e.name.val) == Some(r.value.ty)
      ensures Pure(e.val) ==>
        var t := TypeOf(old(env), e.val, supportsOp);
        line == old(line) && column == old(column) && errors == old(errors) + Logged(t, line, column) &&
        (valOk <==> t.Ok?) && (t.Err? ==> r == Err(t.err) && env == old(env)) &&
        (t.Ok? ==> val == t.value && mid == old(env))
      decreases e, 0
    {
      val, mid, valOk := TypedExpr(Debug("", 0, 0), Void), [], false;
      var v :- Analyz(e.val);
      val, mid, valOk := v, env, true;
      if Has(env, e.name.val) {
        return Err(VarAlreadyDeclared), val, mid, valOk;
      }
      env := Add(env, e.name.val, v.ty);
      r := Ok(TypedExpr(AnalyzedExpr.VarDeclare(e.name.val, v), v.ty));
    }

    /**
     * `analyz_var_assign`: type the value first; an undeclared name fails
     * with UndeclaredVar, otherwise the name takes the value's type.
     */
    method AnalyzVarAssign(e: Expr)
      returns (r: Result<TypedExpr>, ghost val: TypedExpr, ghost mid: Env, ghost valOk: bool)
      requires e.VarAssign? && Valid()
      modifies this
      ensures Valid() && Grew()
      ensures r.Ok? ==> valOk && |env| == old(|env|)
      ensures valOk && !Has(mid, e.name.val) ==> r == Err(UndeclaredVar) && env == mid
      ensures valOk && Has(mid, e.name.val) ==>
        |mid| > 0 && env == Modify(mid, e.name.val, val.ty) &&
        r == Ok(TypedExpr(AnalyzedExpr.VarAssign(e.name.val, val), val.ty))
      ensures r.Ok? ==> GetTy(env, e.name.val) == Some(r.value.ty)
      ensures Pure(e.val) ==>
        var t := TypeOf(old(env), e.val, supportsOp);
        line == old(line) && column == old(column) && errors == old(errors) + Logged(t, line, column) &&
        (valOk <==> t.Ok?) && (t.Err? ==> r == Err(t.err) && env == old(env)) &&
        (t.Ok? ==> val == t.value && mid == old(env))
      decreases e, 0
    {
      val, mid, valOk := TypedExpr(Debug("", 0, 0), Void), [], false;
      var v :- Analyz(e.val);
      val, mid, valOk := v, env, true;
      if !Has(env, e.name.val) {
        return Err(UndeclaredVar), val, mid, valOk;
      }
      env := Modify(env, e.name.val, v.ty);
      r := Ok(TypedExpr(AnalyzedExpr.VarAssign(e.name.val, v), v.ty));
    }

    /**
     * The FnCall arm of `analyz`: an unknown function or a wrong argument
     * count is logged and fails with UndeclaredVar; otherwise every argument
     * is typed and cast to Dynamic, and the call takes the type recorded
     * for the function's name, or Dynamic.
     */
    method AnalyzFnCall(e: Expr) returns (r: Result<TypedExpr>, sig: Option<Signature>)
      requires e.FnCall? && Valid()
      modifies this
      ensures Valid() && Grew()
      ensures r.Ok? ==> |env| == old(|env|)
      ensures sig == GetFunction(old(env), e.name.val)
      ensures sig.None? ==>
        r == Err(UndeclaredVar) && unchanged(this`env, this`line, this`column) &&
        errors == old(errors) + [ATErr(UndeclaredVar, line, column)]
      ensures sig.Some? && |sig.value.args| != |e.args| ==>
        r == Err(UndeclaredVar) && unchanged(this`env, this`line, this`column) &&
        errors == old(errors) + [ATErr(UndeclaredVar, line, column)]
      ensures r.Ok? ==>
        sig.Some? && |sig.value.args| == |e.args| &&
        r.value.ty == (if GetTy(old(env), e.name.val).Some? then GetTy(old(env), e.name.val).value else Dynamic) &&
        r.value.expr.FnCall? && r.value.expr.name == e.name.val && |r.value.expr.args| == |e.args|
      ensures r.Ok? ==> forall k | 0 <= k < |r.value.expr.args| ::
        r.value.expr.args[k].ty == Dynamic && r.value.expr.args[k].expr.As?
      ensures sig.Some? && |sig.value.args| == |e.args| && (forall k | 0 <= k < |e.args| :: Pure(e.args[k])) ==>
        var t := TypeOfAll(old(env), e.args, supportsOp);
        env == old(env) && line == old(line) && column == old(column) &&
        errors == old(errors) + Logged(t, line, column) &&
        (t.Err? ==> r == Err(t.err)) &&
        (t.Ok? ==> r.Ok? && forall k | 0 <= k < |e.args| :: r.value.expr.args[k] == TypedExpr(AnalyzedExpr.As(t.value[k]), Dynamic))
      decreases e, 0
    {
      sig := GetFunction(env, e.name.val);
      if sig.None? {
        RecordError(UndeclaredVar);
        return Err(UndeclaredVar), sig;
      }
      if |sig.value.args| != |e.args| {
        RecordError(UndeclaredVar);
        return Err(UndeclaredVar), sig;
      }
      var found := GetTy(env, e.name.val);
      var ty := if found.Some? then found.value else Dynamic;
      var typed :- AnalyzItems(e.args);
      var args := seq(|typed|, k requires 0 <= k < |typed| => TypedExpr(AnalyzedExpr.As(typed[k]), Dynamic));
      r := Ok(TypedExpr(AnalyzedExpr.FnCall(e.name.val, args), ty));
    }

    /**
     * The IfExpr arm of `analyz`: the condition is typed in the current
     * scope, the body in a child scope that is dropped afterwards, and the
     * alternative in the current scope again; the `if` takes the type of
     * its body's last item, or Void.
     */
    method AnalyzIf(e: Expr) returns (r: Result<TypedExpr>, ghost bodyEnv: Env)
      requires e.IfExpr? && Valid()
      modifies this
      ensures Valid() && Grew()
      ensures r.Ok? ==> |env| == old(|env|) && |bodyEnv| == old(|env|) + 1
      ensures r.Ok? && e.alt.None? ==> env == bodyEnv[..|bodyEnv| - 1]
      ensures r.Ok? ==>
        r.value.expr.If? && |r.value.expr.body| == |e.body| &&
        (r.value.expr.alt.Some? <==> e.alt.Some?) &&
        r.value.ty == LastType(r.value.expr.body)
      ensures Pure(e.condition) ==>
        var c := TypeOf(old(env), e.condition, supportsOp);
        (c.Err? ==> r == Err(c.err) && env == old(env) && errors == old(errors) + Logged(c, line, column)) &&
        (r.Ok? ==> r.value.expr.cond == c.value)
      ensures Pure(e.condition) && (forall k | 0 <= k < |e.body| :: Local(e.body[k])) && r.Ok? ==>
        bodyEnv[..|old(env)|] == old(env)
      ensures Pure(e.condition) && (forall k | 0 <= k < |e.body| :: Local(e.body[k])) && e.alt.None? && r.Ok? ==>
        env == old(env)
      ensures Pure(e.condition) && (forall k | 0 <= k < |e.body| :: Pure(e.body[k])) && r.Ok? ==>
        forall k | 0 <= k < |e.body| :: TypeOf(old(env), e.body[k], supportsOp) == Ok(r.value.expr.body[k])
      ensures Pure(e.condition) && TypeOf(old(env), e.condition, supportsOp).Ok? &&
              (forall k | 0 <= k < |e.body| :: Pure(e.body[k])) ==>
        var b := TypeOfAll(old(env), e.body, supportsOp);
        (b.Err? ==> r == Err(b.err)) && (r.Ok? ==> b.Ok? && r.value.expr.body == b.value)
      ensures Pure(e.condition) && (forall k | 0 <= k < |e.body| :: Local(e.body[k])) &&
              e.alt.Some? && Pure(e.alt.value) ==>
        var a := TypeOf(old(env), e.alt.value, supportsOp);
        (a.Err? ==> r.Err?) && (r.Ok? ==> r.value.expr.alt == Some(a.value))
      decreases e, 0
    {
      bodyEnv := [];
      var cond :- Analyz(e.condition);
      var body;
      body, bodyEnv := AnalyzBody(e.body);
      var items :- body;
      var alt :- AnalyzAlt(e.alt);
      r := Ok(TypedExpr(If(cond, items, alt), LastType(items)));
    }

    /** The body of an `if`: its items analysed in a child scope, which is dropped afterwards. */
    method AnalyzBody(body: seq<Expr>) returns (r: Result<seq<TypedExpr>>, ghost bodyEnv: Env)
      requires Valid()
      modifies this
      ensures Valid() && Grew()
      ensures r.Ok? ==>
        |r.value| == |body| && |env| == old(|env|) && |bodyEnv| == old(|env|) + 1 && env == bodyEnv[..|bodyEnv| - 1]
      ensures (forall k | 0 <= k < |body| :: Local(body[k])) && r.Ok? ==>
        bodyEnv[..|old(env)|] == old(env) && env == old(env)
      ensures (forall k | 0 <= k < |body| :: Pure(body[k])) ==>
        r == TypeOfAll(old(env), body, supportsOp) && errors == old(errors) + Logged(r, line, column)
      decreases body, 1
    {
      bodyEnv := [];
      ghost var outer := env;
      env := Child(env);
      r := AnalyzItems(body);
      if forall k | 0 <= k < |body| :: Pure(body[k]) {
        TypeOfAllChild(outer, body, supportsOp);
      }
      if r.Err? {
        return;
      }
      bodyEnv := env;
      env := Parent(env);
      if forall k | 0 <= k < |body| :: Local(body[k]) {
        assert env == outer;
      }
    }

    /** The alternative of an `if`: analysed in the current scope when present. */
    method AnalyzAlt(alt: Option<Expr>) returns (r: Result<Option<TypedExpr>>)
      requires Valid()
      modifies this
      ensures Valid() && Grew()
      ensures r.Ok? ==> |env| == old(|env|) && (r.value.Some? <==> alt.Some?)
      ensures alt.None? ==> r == Ok(None) && unchanged(this)
      ensures alt.Some? && Pure(alt.value) ==>
        var a := TypeOf(old(env), alt.value, supportsOp);
        env == old(env) && (a.Err? ==> r == Err(a.err)) && (a.Ok? ==> r == Ok(Some(a.value)))
      decreases alt, 0
    {
      if alt.None? {
        return Ok(None);
      }
      var t :- Analyz(alt.value);
      r := Ok(Some(t));
    }

    /**
     * The Block arm of `analyz`: the items are typed in order in the
     * current scope (a block opens no scope of its own), and the block
     * takes the type of its last item, or Void.
     */
    method AnalyzBlock(e: Expr) returns (r: Result<TypedExpr>)
      requires e.Block? && Valid()
      modifies this
      ensures Valid() && Grew()
      ensures r.Ok? ==> |env| == old(|env|)
      ensures r.Ok? ==>
        r.value.expr.Block? && |r.value.expr.items| == |e.block| &&
        r.value.ty == LastType(r.value.expr.items)
      ensures (forall k | 0 <= k < |e.block| :: Pure(e.block[k])) ==>
        env == old(env) &&
        (r.Ok? ==> forall k | 0 <= k < |e.block| :: TypeOf(old(env), e.block[k], supportsOp) == Ok(r.value.expr.items[k]))
      decreases e, 0
    {
      var items :- AnalyzItems(e.block);
      r := Ok(TypedExpr(AnalyzedExpr.Block(items), LastType(items)));
    }

    /**
     * The loop the `if`, block and function arms share: each item is typed
     * in turn in the current scope, and the first failure ends it.
     */
    method AnalyzItems(items: seq<Expr>) returns (r: Result<seq<TypedExpr>>)
      requires Valid()
      modifies this
      ensures Valid() && Grew()
      ensures r.Ok? ==> |env| == old(|env|) && |r.value| == |items|
      ensures (forall k | 0 <= k < |items| :: Local(items[k])) ==>
        |env| == old(|env|) && forall k | 0 <= k < |env| - 1 :: env[k] == old(env)[k]
      ensures (forall k | 0 <= k < |items| :: Pure(items[k])) ==>
        r == TypeOfAll(old(env), items, supportsOp) && env == old(env) &&
        line == old(line) && column == old(column) && errors == old(errors) + Logged(r, line, column)
      decreases items, 0
    {
      ghost var local := forall k | 0 <= k < |items| :: Local(items[k]);
      ghost var pure := forall k | 0 <= k < |items| :: Pure(items[k]);
      var typed: seq<TypedExpr> := [];
      for i := 0 to |items|
        invariant Valid() && Grew() && |env| == old(|env|) && |typed| == i
        invariant local ==> forall k | 0 <= k < |env| - 1 :: env[k] == old(env)[k]
        invariant pure ==> env == old(env) && line == old(line) && column == old(column) && errors == old(errors)
        invariant pure ==> forall k | 0 <= k < i :: TypeOf(old(env), items[k], supportsOp) == Ok(typed[k])
      {
        var t := Analyz(items[i]);
        if t.Err? {
          if pure {
            FirstFailure(old(env), items, i, supportsOp);
          }
          return Err(t.err);
        }
        ghost var prev := typed;
        typed := typed + [t.value];
        if pure {
          forall k | 0 <= k < i + 1
            ensures TypeOf(old(env), items[k], supportsOp) == Ok(typed[k])
          {
            if k < i {
              assert typed[k] == prev[k];
            }
          }
        }
      }
      if pure {
        AllTyped(old(env), items, typed, supportsOp);
      }
      r := Ok(typed);
    }

    /**
     * The opening of `analyz_func`: a child scope in which each argument,
     * in order, is added with its annotated type (Dynamic when unannotated).
     */
    method EnterFunction(args: seq<Ident>)
      requires Valid()
      modifies this`env
      ensures Valid() && env == old(env) + [Frame(ArgTypes(args), map[])]
    {
      env := Child(env);
      for i := 0 to |args|
        invariant env == old(env) + [Frame(ArgTypes(args[..i]), map[])]
      {
        assert args[..i + 1][..i] == args[..i];
        assert (old(env) + [Frame(ArgTypes(args[..i]), map[])])[..|old(env)|] == old(env);
        env := Add(env, args[i].val, DeclaredType(args[i]));
      }
      assert args[..|args|] == args;
    }

    /**
     * `analyz_func`: the arguments are bound in a child scope with their
     * annotated types (Dynamic when unannotated), the body is typed there,
     * the child scope is dropped and the function's name takes the type
     * `get_fn_type` gives its analysed body.
     */
    method AnalyzFunc(func: Function) returns (r: Result<TypedExpr>, ghost bodyEnv: Env)
      requires Valid()
      modifies this
      ensures Valid() && Grew()
      ensures r.Ok? ==>
        |bodyEnv| == old(|env|) + 1 && env == Modify(bodyEnv[..|bodyEnv| - 1], func.name.val, r.value.ty)
      ensures r.Ok? ==>
        r.value.expr.Func? && r.value.ty == fnType(r.value.expr.body) && r.value.expr.ret == r.value.ty &&
        r.value.expr.name == func.name.val && r.value.expr.params == func.args &&
        |r.value.expr.body| == |func.body|
      ensures r.Ok? ==> |env| == old(|env|) && GetTy(env, func.name.val) == Some(r.value.ty)
      ensures (forall k | 0 <= k < |func.body| :: Local(func.body[k])) && r.Ok? ==>
        env == Modify(old(env), func.name.val, r.value.ty)
      ensures (forall k | 0 <= k < |func.body| :: Pure(func.body[k])) ==>
        var start := old(env) + [Frame(ArgTypes(func.args), map[])];
        (r.Ok? <==> forall k | 0 <= k < |func.body| :: TypeOf(start, func.body[k], supportsOp).Ok?) &&
        (r.Ok? ==>
           bodyEnv == start &&
           forall k | 0 <= k < |func.body| :: TypeOf(start, func.body[k], supportsOp) == Ok(r.value.expr.body[k]))
    {
      bodyEnv := [];
      ghost var outer := env;
      EnterFunction(func.args);
      var body :- AnalyzItems(func.body);
      var ty := fnType(body);
      bodyEnv := env;
      env := Parent(env);
      if forall k | 0 <= k < |func.body| :: Local(func.body[k]) {
        assert env == outer;
      }
      env := Modify(env, func.name.val, ty);
      r := Ok(TypedExpr(Func(ty, func.name.val, func.args, body), ty));
    }
  }

  /**
   * On entry to a function body every argument is visible with its declared
   * type, unless a later argument reuses its name.
   */
  lemma ArgumentsVisible(outer: Env, args: seq<Ident>, i: nat)
    requires i < |args|
    requires forall k | i < k < |args| :: args[k].val != args[i].val
    ensures GetTy(outer + [Frame(ArgTypes(args), map[])], args[i].val) == Some(DeclaredType(args[i]))
  {
    ArgTypeBound(args, i);
  }

  /**
   * In a function body, a name expression naming argument `i` types as that
   * argument's declared type (unless a later argument reuses the name).
   */
  lemma BodyReadsArgument(outer: Env, args: seq<Ident>, i: nat, tag: Option<ConstType>,
                          supportsOp: (ConstType, string) -> bool)
    requires i < |args|
    requires forall k | i < k < |args| :: args[k].val != args[i].val
    ensures TypeOf(outer + [Frame(ArgTypes(args), map[])], Expr.Ident(Ident.Ident(tag, args[i].val)), supportsOp) ==
            Ok(TypedExpr(Id(args[i].val), DeclaredType(args[i])))
  {
    ArgumentsVisible(outer, args, i);
  }
}
