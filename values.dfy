/**
 * The data shared by the Atomic runtime: the syntax tree the evaluator walks,
 * the runtime values it produces, the bindings held by environments, the
 * diagnostic codes it records and the faults that abort an evaluation.
 */
module Values {
  import opened Wrappers

  /** An environment is named by its position in the runtime's scope store. */
  type EnvId = nat

  /** An object is named by its position in the runtime's object store. */
  type ObjRef = nat

  /** Expression nodes (frontend/AST). */
  datatype Expr =
    | Id(symbol: string)
    | NumLit(num: real)
    | StrLit(text: string)
    | ObjectLit(properties: seq<Property>)
    | Binary(op: string, left: Expr, right: Expr)
    | Assign(assignee: Expr, value: Expr)
    | Member(obj: Expr, property: Expr, isIndexed: bool)
    | Call(caller: Expr, args: seq<Expr>)

  /** An object-literal property; an absent value is the shorthand `{ key }`. */
  datatype Property = Property(key: string, value: Option<Expr>)

  /** Statement nodes. */
  datatype Stmt =
    | VarCreation(name: string, init: Expr, isLocked: bool)
    | FuncCreation(name: string, parameters: seq<string>, body: seq<Stmt>)
    | ReturnStmt(result: Expr)
    | UseStmt(path: string)
    | ExprStmt(expr: Expr)

  /**
   * A JavaScript number. `Finite` numbers are exact reals; `NonFinite`
   * stands for the infinities and NaN, which the model does not tell apart.
   */
  datatype Number = Finite(r: real) | NonFinite

  /** Runtime values. An object is a reference into the object store. */
  datatype Value =
    | Num(n: Number)
    | Str(s: string)
    | Obj(ref: ObjRef)
    | Func(name: string, parameters: seq<string>, body: seq<Stmt>, env: EnvId)
    | NativeFunc(id: nat)
    | Null

  /**
   * What a statement yields: an ordinary value, or the `return` signal that
   * the nearest enclosing call consumes.
   */
  datatype Signal = Normal(value: Value) | Returned(value: Value)

  /** A variable binding: its value and whether it may be reassigned. */
  datatype Binding = Binding(value: Value, locked: bool)

  /** One environment: its parent, if any, and its own bindings. */
  datatype Scope = Scope(parent: Option<EnvId>, vars: map<string, Binding>)

  /** One property of an object; an object keeps them in insertion order. */
  datatype Entry = Entry(key: string, value: Value)

  type Props = seq<Entry>

  /** Diagnostic codes recorded by the evaluator and the environment. */
  datatype Code =
    | AT3003          // operator applied to operands of the wrong types
    | AT3004          // assignment to something that is not a name or a member
    | AT3007          // member access on a non-object, or a non-number index on read
    | AT3008          // a non-number index on write, or an index out of range
    | AT3010          // call of a value that is not a function
    | AT3011          // argument count differs from parameter count
    | UnknownVariable // a name bound nowhere on the scope chain
    | LockedVariable  // assignment to a name declared locked

  /** What an operation yields and the diagnostic it records, if any. */
  datatype Outcome = Outcome(value: Value, diag: Option<Code>)

  /** Failures that abort an evaluation instead of being recovered to Null. */
  datatype Fault = StackOverflow | UnreadableFile(path: string)

  /** The result of an evaluation step: a value, or an abort that propagates. */
  datatype Result<+T> = Ok(value: T) | Abort(fault: Fault) {
    predicate IsFailure() {
      Abort?
    }

    function PropagateFailure<U>(): Result<U>
      requires Abort?
    {
      Abort(fault)
    }

    function Extract(): T
      requires Ok?
    {
      value
    }
  }
}
