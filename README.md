# Atomic: evaluator and type analyser, modelled in Dafny

Atomic is a small scripting language. This project models the core of its
implementation in two parts.

**Runtime.** The first part is the tree-walking runtime written in TypeScript
(`src/runtime/eval/expr.ts` and `src/runtime/eval/stmt.ts`). It evaluates
four operators:

- `+` concatenates strings or adds numbers;
- `-` subtracts numbers, or removes the first occurrence of the right
  operand's text from a string;
- `*` multiplies numbers;
- `/` divides the right operand by the left, and a right operand of 0 gives 0.

It also builds objects, including shorthand properties. It reads and assigns
members, by key or by index. It calls user and native functions, runs
`var`, `const`, `func` and `return` statements, and includes modules with
`use`. Errors never stop the runtime: a failing construct records a
diagnostic code and yields Null.

**Analyser.** The second part is the static type analyser of the Rust
compiler (`src/analysis/analysis.rs`). It gives every expression a
`ConstType` and casts disagreeing binary operands. It tracks declared names in
a chain of scope frames and rejects three things:

- a duplicate declaration;
- an assignment to an undeclared name;
- a call to an unknown function, or with the wrong number of arguments.

## Files and modules

- `wrappers.dfy`: module `Wrappers`, holding `Option`.
- `values.dfy`: module `Values`, holding the runtime's data. That is its
  syntax tree, values, numbers, bindings, scopes, object property lists,
  diagnostic codes, and the `Result` of an evaluation, which may abort.
- `operators.dfy`: module `Operators`, the four binary operators as pure
  functions of the evaluated operands.
- `scopes.dfy`: module `Scopes`, the environment and object operations as
  pure functions on the scope store and on property lists, with lemmas
  about them.
- `runtime.dfy`: module `RuntimeState`, the class `Runtime`. Its fields
  are:
  - the scope store: environments numbered in creation order, each holding
    the number of its parent;
  - the object store;
  - the append-only diagnostic log;
  - the current module path.

  Its methods apply the `Scopes` functions to that state.
- `evaluator.dfy`: module `Evaluator`, one method per evaluation function
  of `expr.ts` and `stmt.ts`, each proved against the `Scopes` and
  `Operators` functions. Every method keeps three properties:
  - the runtime invariant `Valid()`: parents precede children, every stored
    reference names something that exists, and object keys are distinct;
  - `Grew()`: the stores only grow and the log is only appended to;
  - a returned value refers only to environments and objects that exist.
- `analysis.dfy`: module `Analysis`, holding the analyser's syntax trees,
  the scope-chain functions with their lemmas, the operand coercion, and
  the class `Analyzer`. Its methods replace the `env` field with a child
  frame and back, and record errors in a log.

**Exceptions and the stack.** A JavaScript exception stops an evaluation.
The model represents this with `Abort(fault)`, which `:-` passes up. The
parameter `depth` counts the stack frames still free, so running out of
stack also becomes an abort. Three things consume a frame:

- a user-function call;
- a module inclusion;
- each round of the member-access self-recursion described below.

**Where the model follows the code over the language description:**

- **Order of call evaluation.** The arguments of a call are evaluated
  before the callee (`src/runtime/eval/expr.ts:148-153`). The description
  says the callee comes first.
- **Diagnostic for a bad index.** An index that is not a number literal
  gives AT3007 when read (`src/runtime/eval/expr.ts:198-200`) but AT3008
  when written (`src/runtime/eval/expr.ts:29-31`). The description assigns
  AT3008 to both.
- **Arity check.** A call's environment is created before its argument
  count is checked (`src/runtime/eval/expr.ts:158-163`). On a mismatch the
  environment stays allocated, empty.
- **Member access whose property is a member expression.** The code calls
  itself on the very same node (`src/runtime/eval/expr.ts:206-208` and
  `:37-39`). It re-evaluates the receiver each round, until the receiver is
  not an object (AT3007, then Null) or the stack is exhausted. The model
  makes each round consume one unit of `depth`. It proves that this case
  never yields anything but Null.

**Reference specifications.** Pure functions say what evaluation and
analysis compute. The methods are proved against them.

- `Evaluator.ReadValue` covers the read-only expressions: literals, names,
  and operators applied to read-only expressions. Evaluating such an
  expression only reads the scope store. `ReadValue` gives its value and the
  diagnostics it records, in order. `ReadArgs` does the same for a list of
  call arguments.
- `Analysis.TypeOf` covers the pure expressions: literals, names, and
  operators applied to pure expressions. Analysing one only reads the scope
  chain. `TypeOf` gives its typing, or the first error. `TypeOfAll` does
  the same for a list of items, such as a call's arguments.
- `Evaluator.StepSimple` and `Evaluator.RunSimple` cover bodies of simple
  statements: `var`, `const`, `return` and expression statements over
  read-only expressions, and `func`. `RunSimple` runs such a body up to its
  first `return` and gives the result, the new scope store and the
  diagnostics. Function bodies and modules made of simple statements are
  proved to run exactly as it says.

For these expressions and bodies every method's result and new state are
pinned exactly. For the rest the methods state the structural
properties listed below.

## Model

| member | source | states |
|---|---|---|
| Operators.Plus | src/runtime/eval/expr.ts:95-106 | The result is a string exactly when either operand is a string. Its text is the left operand's text followed by the right one's. Two finite numbers give their sum. Any other pairing is Null with AT3003, and the only diagnostic is that one. |
| Operators.Minus | src/runtime/eval/expr.ts:108-119 | Two finite numbers give their difference. A string on the left gives a string without a diagnostic. If the right operand's text does not occur in it, the string is unchanged. Otherwise the result is exactly the string with the first occurrence cut out: the text before it followed by the text after it. Every other pairing is Null with AT3003. |
| Operators.RemoveFirst | src/runtime/eval/expr.ts:113 | `replace(p, "")` cuts out the first occurrence of `p` and nothing else. Without an occurrence the string is returned unchanged. |
| Operators.FirstOccurrenceFrom | src/runtime/eval/expr.ts:113 | The index found is an occurrence with none before it. None means there is no occurrence at all. |
| Operators.Multiply | src/runtime/eval/expr.ts:121-129 | Two numbers give a number, which is the product when both are finite. Any other pairing is Null with AT3003. |
| Operators.Divide | src/runtime/eval/expr.ts:130-142 | A right operand of 0 gives 0 without a diagnostic. Otherwise two finite non-zero numbers give right ÷ left, and a left operand of 0 gives a non-finite number. Non-numbers give Null with AT3003. |
| Operators.BinaryOp | src/runtime/eval/expr.ts:79-93 | The only diagnostic an operator can record is AT3003 with Null. An unknown operator yields Null silently. |
| Operators.RemoveAppended | src/runtime/eval/expr.ts:113 | Removing a string that was just appended restores the original, unless that string already occurs earlier. |
| Operators.PlusThenMinus | src/runtime/eval/expr.ts:95-118 | `(a + y) - y` is the string `a` again, for any value `y` whose text does not occur earlier in `a + y`. |
| Operators.DivideUndoesMultiply | src/runtime/eval/expr.ts:121-137 | Because `/` divides right by left, `a / (a * b)` is `b` for every non-zero `a`. |
| Scopes.Resolve | src/runtime/eval/expr.ts:15 | The environment found binds the name and is no newer than the starting one. A name bound in the starting environment resolves there. |
| Scopes.Lookup | src/runtime/eval/expr.ts:62 | A name bound in the starting environment has that binding. Any binding found is held by an environment no newer than the starting one. |
| Scopes.Declare | src/runtime/eval/stmt.ts:23 | `declareVar` binds the name in the given environment itself, replacing any earlier binding there. No other environment and no parent link changes. |
| Scopes.FindVar | src/runtime/eval/expr.ts:62 | A diagnostic is recorded exactly when no environment on the chain binds the name. Otherwise the value is that of the nearest binding. |
| Scopes.SetVar | src/runtime/eval/expr.ts:15 | The assignment succeeds exactly when the nearest binding exists and is unlocked, and then yields the value. An unbound or locked name leaves the store as it was and yields Null with a diagnostic. |
| Scopes.SetVarUpdatesNearest | src/runtime/eval/expr.ts:15 | A successful assignment updates the nearest binding and no other. Looking the name up from any environment whose chain reaches that binding gives the new value, unlocked. Every other lookup, of any name from any environment, is as before. |
| Scopes.NewScope | src/runtime/eval/expr.ts:158 | `new Enviroment(parent)` adds one empty environment with that parent and keeps the chain well-founded. |
| Scopes.Merge | src/runtime/eval/stmt.ts:73 | `addEnv` changes only the target environment and keeps its parent. |
| Scopes.ResolveAppend | src/runtime/eval/expr.ts:158 | Creating environments changes no lookup from an existing one. |
| Scopes.LookupDeclareOther | src/runtime/eval/stmt.ts:23 | A declaration changes no lookup of any other name, from any environment. |
| Scopes.LookupAfterSetVar | src/runtime/eval/expr.ts:15 | After a successful assignment the name holds the new value, unlocked. |
| Scopes.LockedSurvivesAssignment | src/runtime/eval/stmt.ts:40-45 | Assigning to a locked binding (a `const` or a function) records LockedVariable and leaves the binding as it was. |
| Scopes.LookupInNewChild | src/runtime/eval/expr.ts:158 | A fresh call environment sees exactly what its closure environment sees. |
| Scopes.MergeVisible | src/runtime/eval/stmt.ts:71-73 | After `addEnv`, each name bound in the module environment has that binding as seen from the including environment. Every other name is looked up as before. |
| Scopes.ParamBindings | src/runtime/eval/expr.ts:165-167 | Every parameter is declared unlocked. |
| Scopes.CallStore | src/runtime/eval/expr.ts:158-167 | A call adds exactly one environment, after all existing ones. Its parent is the closure environment and it holds the parameter bindings. No existing environment changes, and the chain stays well-founded. |
| Scopes.ParamBindingsKeys | src/runtime/eval/expr.ts:165-167 | The parameter loop binds exactly the parameter names. |
| Scopes.ParamBound | src/runtime/eval/expr.ts:165-167 | Parameter i is bound, unlocked, to argument i, unless a later parameter repeats its name. |
| Scopes.LookupParameter | src/runtime/eval/expr.ts:165-167 | In the call environment, parameter i reads as argument i, unlocked, unless a later parameter repeats its name. |
| Scopes.LookupNonParameter | src/runtime/eval/expr.ts:158-167 | In the call environment, a name that is no parameter reads as it does in the closure environment. |
| Scopes.KeyIndexFrom | src/runtime/eval/expr.ts:212 | The position found holds the key and is the first that does. None means no position holds it. |
| Scopes.Put | src/runtime/eval/expr.ts:67 | `Map.set` keeps every existing key at its position. Every entry under another key is unchanged. A key already present keeps the length. A new key is appended as the last entry, holding the value. Keys stay distinct. |
| Scopes.Get | src/runtime/eval/expr.ts:212 | A key the object does not hold reads as Null. Otherwise the value is that of the first entry holding the key. |
| Scopes.IndexOf | src/runtime/eval/expr.ts:202 | An index names a property exactly when it is a whole number within the property count. |
| Scopes.GetAt | src/runtime/eval/expr.ts:202 | An indexed read yields the value at that position, in insertion order. An index naming nothing is Null with AT3008. |
| Scopes.PutAt | src/runtime/eval/expr.ts:33 | An indexed write replaces only the value at that position and keeps every key. Reading the position back gives the value written. An index naming nothing is AT3008 and changes nothing. |
| Scopes.GetAfterPut | src/runtime/eval/expr.ts:43 | Reading a key just set gives the value set. |
| Scopes.GetOtherAfterPut | src/runtime/eval/expr.ts:43 | Setting one key leaves the value of every other key alone. |
| Scopes.PutAllKeeps | src/runtime/eval/expr.ts:57-68 | Setting entries one after another keeps the existing keys at their positions. It adds at most one entry per entry set and keeps keys distinct. The last key set reads back as its value. |
| Scopes.PutAllDistinct | src/runtime/eval/expr.ts:56-68 | An object literal with distinct keys holds exactly its properties, in the order written. |
| RuntimeState.Runtime.Report | src/runtime/eval/expr.ts:103 | `error` appends the code to the diagnostic log and nothing else. |
| RuntimeState.Runtime.NewEnv | src/runtime/eval/expr.ts:158 | The new environment is numbered after all existing ones, as `NewScope` gives it. |
| RuntimeState.Runtime.CreateEnv | src/runtime/eval/stmt.ts:71 | A fresh top-level environment holding the host's globals. |
| RuntimeState.Runtime.DeclareVar | src/runtime/eval/stmt.ts:23 | Applies `Declare` and yields the value declared. |
| RuntimeState.Runtime.SetVar | src/runtime/eval/expr.ts:15 | Applies `Scopes.SetVar`: the new store, its value, and its diagnostic appended to the log. |
| RuntimeState.Runtime.FindVar | src/runtime/eval/expr.ts:62 | Applies `Scopes.FindVar`. Only the log changes. |
| RuntimeState.Runtime.NewObject | src/runtime/eval/expr.ts:70-74 | The object is appended to the object store. |
| RuntimeState.Runtime.GetProperty | src/runtime/eval/expr.ts:212 | Reading a key changes nothing. A non-Null result is an entry the object holds under that key. |
| RuntimeState.Runtime.GetIndexed | src/runtime/eval/expr.ts:202 | Applies `GetAt`. Only the log changes. |
| RuntimeState.Runtime.SetProperty | src/runtime/eval/expr.ts:43 | Applies `Put` to that object alone and yields the value. The key then reads back as that value. |
| RuntimeState.Runtime.SetIndexed | src/runtime/eval/expr.ts:33 | Applies `PutAt` to that object alone, with its diagnostic. |
| RuntimeState.Runtime.AddEnv | src/runtime/eval/stmt.ts:73 | Applies `Merge`. |
| Evaluator.ReadValue | src/runtime/eval/expr.ts:79-142 | A read-only expression records no diagnostic other than AT3003 and UnknownVariable. Its value refers only to environments and objects that exist. |
| Evaluator.ReadArgs | src/runtime/eval/expr.ts:148-151 | There is one value per argument, and value k is the reading of argument k. |
| Evaluator.ReadValueDeclareOther | src/runtime/eval/stmt.ts:23 | Declaring a name that an expression does not read changes neither its value nor its diagnostics. |
| Evaluator.CallReadsArgument | src/runtime/eval/expr.ts:165-167 | In a call's environment, the name of parameter i evaluates to argument i without a diagnostic, unless a later parameter repeats the name. |
| Evaluator.StepSimple | src/runtime/eval/stmt.ts:17-58 | A simple statement is a `var`/`const` or `return` or expression statement over a read-only expression, or a `func`. It yields a return signal exactly when it is a `return`. It changes at most the environment it runs in, keeps that environment's parent, and keeps parents before children. |
| Evaluator.RunSimple | src/runtime/eval/expr.ts:168-177 | The reference run of a body of simple statements: each statement in order until the first `return`, whose payload is the result. It changes at most the body's environment, and a body without `return` yields Null. |
| Evaluator.RunSimpleIgnoresRest | src/runtime/eval/expr.ts:169-173 | Once a body holds a `return`, statements after it change nothing: the run of the body followed by more statements is the run of the body alone. |
| Evaluator.RunSimpleDeclareThenReturn | src/runtime/eval/expr.ts:168-177 | `var x = 1; return x` yields 1 and records no diagnostic, whatever the store. |
| Evaluator.EvalExpr | src/runtime/eval/expr.ts:79-93 | A literal evaluates to itself without touching state. A read-only expression evaluates to its reading. It appends exactly the reading's diagnostics and changes no environment, object or path. Every evaluation keeps the runtime invariant. |
| Evaluator.EvalBinary | src/runtime/eval/expr.ts:79-93 | Both operands are evaluated, left first. The value is `BinaryOp` of their values, and exactly its diagnostic is appended. With read-only operands the result is the reading of the whole expression: the left operand's diagnostics, then the right's, then the operator's. |
| Evaluator.EvalObject | src/runtime/eval/expr.ts:56-75 | A new object is allocated last. It holds the `Map.set` fold of one entry per property, with the properties' keys in the order written. When every property is shorthand or read-only, the object is always created and no environment changes. Each value is then what `findVar` finds for a shorthand, or the value's reading. |
| Evaluator.EvalProperties | src/runtime/eval/expr.ts:57-68 | The properties are the `Map.set` fold of one entry per property, keys in the order written and distinct. For shorthand or read-only properties each entry's value is `findVar` of the key or the reading, and no environment or object changes. |
| Evaluator.EvalProperty | src/runtime/eval/expr.ts:60-67 | One property's value is set under its key with `Put`, and keys stay distinct. A shorthand property takes `findVar` of its key. A read-only value takes its reading. Neither changes an environment or an object. |
| Evaluator.EvalAssign | src/runtime/eval/expr.ts:12-53 | An identifier target is assigned through `setVar` with the evaluated value. With a read-only value it is exactly `setVar` of the value's reading, its diagnostics before `setVar`'s. A key target with a read-only receiver and value writes `Put` on that object alone, or records AT3007 for a non-object. Any other target is AT3004 with Null and changes nothing else. |
| Evaluator.AssignName | src/runtime/eval/expr.ts:13-15 | The name is assigned through `setVar` with the evaluated value. With a read-only value it is exactly `setVar` of the value's reading, and the log gains the reading's diagnostics, then `setVar`'s. |
| Evaluator.AssignMember | src/runtime/eval/expr.ts:21-47 | A non-object receiver is AT3007. An indexed target whose index is not a number literal is AT3008. An indexed write applies `PutAt` and a key write applies `Put`, to that object alone. The key then reads back as the value. With a read-only value the value written is its reading. Any other property is Null. A member-expression property never yields anything but Null, and at depth 0 it overflows the stack. |
| Evaluator.EvalMember | src/runtime/eval/expr.ts:190-216 | A member whose property is itself a member expression never yields anything but Null. With a read-only receiver and an index or key property, the result is exactly `GetAt` or `Get` on the receiver's reading, or AT3007 with Null. No environment or object changes. |
| Evaluator.ReadMember | src/runtime/eval/expr.ts:193-215 | A non-object receiver is AT3007. An index that is not a number literal is AT3007 on read. An indexed read is `GetAt` and a key read is `Get`, changing nothing. Any other property is Null. At depth 0 a member property overflows the stack. |
| Evaluator.EvalCall | src/runtime/eval/expr.ts:147-185 | One value is computed per argument, before the callee. A native function's result is the host's on those values. A non-function is AT3010 with Null, and an arity mismatch is AT3011 with Null. With read-only arguments and callee, the values are the arguments' readings and the callee is the caller's reading. An arity mismatch then leaves one empty environment behind. A user function with simple statements returns exactly what `RunSimple` gives for its body in the call environment. The store is then what that run leaves, and the log is the readings' diagnostics followed by the run's. An empty body yields Null, and a body starting with a read-only `return` yields its reading. |
| Evaluator.EvalArgs | src/runtime/eval/expr.ts:148-151 | One value is computed per argument. For read-only arguments the values are their readings, left to right, and the log gains their diagnostics in that order. No environment or object changes. |
| Evaluator.EvalArg | src/runtime/eval/expr.ts:150 | Exactly one value is appended to those already computed. For a read-only argument it is the argument's reading, with its diagnostics. |
| Evaluator.ApplyCallee | src/runtime/eval/expr.ts:154-184 | A non-function is AT3010 with Null. A native function yields the host's result and changes nothing. A user function with the wrong arity is AT3011 with Null, after one empty environment is created. Otherwise, with no stack left, the call overflows. A body of simple statements gives exactly `RunSimple` of the body in the call environment: the same result, the store it leaves, and its diagnostics appended to the log. An empty body yields Null with the parameter bindings in place. A body starting with a read-only `return` yields its reading. |
| Evaluator.CallFunction | src/runtime/eval/expr.ts:155-177 | The call environment is new and its parent is the closure. On an arity mismatch it stays empty, the result is AT3011 with Null, and no object changes. Otherwise the store becomes `CallStore`: the new environment holds exactly the parameter bindings. A body of simple statements gives exactly `RunSimple` of the body from `CallStore`: the same result, the store it leaves, and its diagnostics appended to the log. For every body, the result is the payload of the first `return`, and a body without `return` yields Null. A body starting with a read-only `return` yields its reading. |
| Evaluator.BindParameters | src/runtime/eval/expr.ts:165-167 | The call environment gains exactly the unlocked parameter bindings. |
| Evaluator.RunBody | src/runtime/eval/expr.ts:168-177 | A body of simple statements gives exactly `RunSimple`: the same result, the store it leaves, and its diagnostics appended to the log, with no object changed. For every body, statement k's signal is a return signal exactly when statement k is a `return`. The result is the payload of the first such signal. A body without `return` yields Null. An empty body yields Null and changes nothing. |
| Evaluator.RunStatement | src/runtime/eval/expr.ts:169-173 | One statement of a body or module runs. Its signal is a return signal exactly when it is a `return`. When the statements from here on are simple, a `return` ends the reference run, and otherwise what remains of that run is the run from the next statement. |
| Evaluator.EvalStmt | src/runtime/eval/stmt.ts:17-58 | `var` and `const` bind the evaluated value with the statement's locked flag and yield it. `func` declares a function under its own name, locked. The function holds exactly the statement's name, parameters and body and the defining environment, and nothing else changes. Only `return` yields a return signal. A simple statement does exactly what `StepSimple` says: the same signal, the same store, its diagnostics appended to the log. |
| Evaluator.EvalModule | src/runtime/eval/stmt.ts:71 | The module's statements run in order in its top-level environment, which stays parentless, and the result is Null. A module of simple statements without `return` runs exactly as `RunSimple` says: the same store, its diagnostics appended to the log, and no object changed. |
| Evaluator.EvalUse | src/runtime/eval/stmt.ts:59-78 | An unreadable file aborts and changes nothing. On success every top-level binding of the module is visible from the including environment. The previous path is restored and the result is Null. A module of simple statements without `return` runs as `RunSimple` from a new top-level environment holding the globals. Its bindings are then merged into the including environment. Every other binding of that environment survives unchanged, and the log gains the run's diagnostics. |
| Analysis.GetTy | src/analysis/analysis.rs:291 | There is no type exactly when no frame declares the name. Otherwise it is the type some frame records. |
| Analysis.GetTyInnermost | src/analysis/analysis.rs:291 | The type found is the one held by the innermost frame that declares the name. |
| Analysis.Has | src/analysis/analysis.rs:287 | A name is declared exactly when some frame of the chain holds it. |
| Analysis.Add | src/analysis/analysis.rs:304 | The name takes the new type. Every other name keeps its type, and outer frames are untouched. |
| Analysis.Modify | src/analysis/analysis.rs:320 | The name takes the new type and every other name keeps its type. |
| Analysis.GetFunction | src/analysis/analysis.rs:159 | There is no function exactly when no frame declares one under the name. |
| Analysis.Child | src/analysis/analysis.rs:199 | A child frame keeps the chain below it and hides nothing. |
| Analysis.Parent | src/analysis/analysis.rs:204 | Returning to the parent drops exactly the innermost frame. |
| Analysis.ParentForgetsChild | src/analysis/analysis.rs:199-204 | A name declared inside a child scope is gone after the return to the parent. A retyping of an outer name made inside it survives. |
| Analysis.ArgTypeBound | src/analysis/analysis.rs:63-66 | Argument i is recorded with its annotated type, or Dynamic, unless a later argument repeats its name. |
| Analysis.ArgumentsVisible | src/analysis/analysis.rs:59-66 | On entry to a function body each argument has its declared type. |
| Analysis.BodyReadsArgument | src/analysis/analysis.rs:59-66 | In a function body, a name expression naming argument i types as that argument's declared type, unless a later argument repeats the name. |
| Analysis.TyAs | src/analysis/analysis.rs:8-13 | The result has the given type and is a cast wrapping the given expression. |
| Analysis.Coerce | src/analysis/analysis.rs:255-269 | At most one operand is wrapped, in an `As` cast to the other's type. Equal types are left alone. Float/Int casts the Int side to Float. A Str on either side makes both Str. Otherwise a Dynamic on either side makes both Dynamic. The types agree afterwards exactly when they agreed before or the pair is unifiable. |
| Analysis.LastType | src/analysis/analysis.rs:211-217 | The type is that of the last item, or Void for none. |
| Analysis.TypeOfDeclared | src/analysis/analysis.rs:246-295 | A pure expression types only if every name it reads is declared. When every operator is supported, that is also enough. |
| Analysis.TypeOfChild | src/analysis/analysis.rs:199 | A pure expression types the same inside a fresh child frame. |
| Analysis.TypeOf | src/analysis/analysis.rs:121-156 | The reference typing of a pure expression. It fails only with UndeclaredVar or OperationNotGranted. A typed operator is one its coerced left operand's type supports, and a comparison is Bool. |
| Analysis.TypeOfAll | src/analysis/analysis.rs:228-232 | The reference typing of a list of pure items. It succeeds exactly when every item's `TypeOf` does, and then holds one typing per item, each that item's `TypeOf`. Otherwise its error is that of the first item that fails. |
| Analysis.TypeOfAllChild | src/analysis/analysis.rs:199 | A list of pure items types the same inside a fresh child frame. |
| Analysis.FirstFailure | src/analysis/analysis.rs:228-232 | When the first i items type and item i fails, the list fails with item i's error. |
| Analysis.AllTyped | src/analysis/analysis.rs:228-232 | When every item types, the list's typing is exactly the items' typings. |
| Analysis.Analyzer.RecordError | src/analysis/analysis.rs:16-24 | `err` logs the kind at the current line and column. |
| Analysis.Analyzer.Analyz | src/analysis/analysis.rs:121-156 | A literal takes its kind's type. Position info moves the current position and is Void. A discard is Void. A return has its operand's type. A successful analysis leaves the scope depth as it was, and the error log only grows. A pure expression gets exactly its `TypeOf`, changes no scope, and logs only OperationNotGranted. A pure expression or a declaration of a pure value changes at most the innermost frame. |
| Analysis.Analyzer.AnalyzBinaryExpr | src/analysis/analysis.rs:246-284 | The operands are coerced. A comparison is Bool and any other operator has the coerced left type. An operator the left type does not support is logged and fails with OperationNotGranted. With pure operands, the operands succeed exactly when both `TypeOf`s do, the typed operands are those, and the result is the expression's `TypeOf`. |
| Analysis.Analyzer.AnalyzId | src/analysis/analysis.rs:286-295 | The analysis succeeds exactly when the name is declared, and then has its recorded type. Otherwise it fails with UndeclaredVar, unlogged. |
| Analysis.Analyzer.AnalyzVarDeclare | src/analysis/analysis.rs:297-311 | A name already declared fails with VarAlreadyDeclared and leaves the scopes alone. Otherwise the name is added with the value's type, which the result carries. With a pure value, the value's typing is its `TypeOf`; a failure there is the result, and leaves the scopes unchanged. |
| Analysis.Analyzer.AnalyzVarAssign | src/analysis/analysis.rs:313-327 | An undeclared name fails with UndeclaredVar. Otherwise the name is retyped to the value's type, which the result carries. With a pure value, the value's typing is its `TypeOf`; a failure there is the result, and leaves the scopes unchanged. |
| Analysis.Analyzer.AnalyzFnCall | src/analysis/analysis.rs:158-189 | An unknown function or a wrong argument count is logged and fails with UndeclaredVar. Otherwise every argument is cast to Dynamic, and the call has the type recorded for the name, or Dynamic. With pure arguments and a known function of the right arity, the call succeeds exactly when `TypeOfAll` of the arguments does. Argument k is then `TypeOf` of argument k cast to Dynamic. A failure is the first failing argument's error, and only OperationNotGranted is logged. |
| Analysis.Analyzer.AnalyzIf | src/analysis/analysis.rs:191-226 | The body is analysed one frame deeper. Without an alternative, the scope afterwards is the body's scope minus that frame. The type is that of the last body item, or Void. A pure condition gets its `TypeOf`, and its failure is the result. When the body's items are pure or declare pure values, the outer frames are untouched, and without an alternative the scope afterwards is the scope before. After a typed pure condition, pure body items give exactly `TypeOfAll` in the enclosing scope, and its failure is the result. A pure alternative after such a body gets its `TypeOf` in the scope before, and its failure fails the `if`. |
| Analysis.Analyzer.AnalyzBody | src/analysis/analysis.rs:199-204 | The body is analysed one frame deeper, and that frame is dropped afterwards: one item typing per body item. Items that are pure or declare pure values leave the scope as it was. Pure items give exactly `TypeOfAll` in the enclosing scope, and only an OperationNotGranted failure is logged. |
| Analysis.Analyzer.AnalyzAlt | src/analysis/analysis.rs:205-209 | A missing alternative is None and changes nothing. A present one is analysed in the current scope; a pure one gets exactly its `TypeOf`, and its failure is the result. |
| Analysis.Analyzer.AnalyzBlock | src/analysis/analysis.rs:227-242 | The items are typed in the current scope. The type is that of the last item, or Void. Pure items get exactly their `TypeOf`s and change no scope. |
| Analysis.Analyzer.AnalyzItems | src/analysis/analysis.rs:228-232 | Each item is analysed in order, stopping at the first failure. Items that are pure or declare pure values change at most the innermost frame. All-pure items give exactly `TypeOfAll`, change no scope and no position, and log only an OperationNotGranted failure. |
| Analysis.Analyzer.EnterFunction | src/analysis/analysis.rs:59-66 | Entering a function body adds exactly one frame, holding the argument types. |
| Analysis.Analyzer.AnalyzFunc | src/analysis/analysis.rs:58-87 | The body starts in a child frame holding exactly the argument types. The function's type is `get_fn_type` of its body, and its name is retyped to it in the restored scope. When the body's items are pure or declare pure values, the restored scope is the scope before with only that retyping. With a pure body the analysis succeeds exactly when every item's `TypeOf` in the argument frame does, and each typed item is its `TypeOf`. |

## Left out

Not modelled, and not in the scope of this model:

- **`analyz_prog` and `import`** (`src/analysis/analysis.rs:26-56`, `:89-119`). They register `writeln` and the program's functions, then call `correct_prog`, which is not part of this model. The analyser's starting environment is therefore a constructor argument.
- **Collaborators that are not part of this model.** They are `Literal::get_ty`, `supports_op`, `get_fn_type` and the analyser's environment type. Here, as assumptions:
  - a literal has the type of its kind;
  - `supports_op` and `get_fn_type` are host functions;
  - `has` and `get_ty` search every frame, innermost first;
  - `modify` retypes the innermost frame that declares the name, or the innermost frame when none does.
- **`enviroment.ts` is not part of this model.** Its operations follow the language's description. `declareVar` overwrites. `setVar` on an unbound or locked name, and `findVar` on an unbound name, record a diagnostic and yield Null; the codes `UnknownVariable` and `LockedVariable` stand for its own codes. A missing key reads as Null without a diagnostic.
- **`evaluate.ts` and `eval_enviroment.ts` are not part of this model.** `EvalExpr` and `EvalStmt` dispatch on the node. A module runs its statements in order in a fresh top-level environment holding the globals.
- **File-system work in `use`** (`src/runtime/eval/stmt.ts:67-71`). Reading the file, lexing and parsing it are the host function `modules`, which gives a module's statements or None for an unreadable file. `Deno.chdir` is left out.
- **Presentation.** The conversion of numbers and other non-strings to text is the host function `show`. The `color` field and the display string of a function are left out.
- **Native functions** are the host function `native`. Their results are assumed to hold no object or closure references.
- **`src/main.ts`** (CLI, REPL, printing, exit codes) and **`src/codegen/tools.rs`** (LLVM code generation). Both are I/O or foreign-library code.
- **Error message texts** are left out; the analyser's error log keeps the kind and position only.
- **The JavaScript call stack** is the `depth` parameter. Running out of it aborts the evaluation, as the thrown exception does. No other exception is modelled.
- **Mutation order after an abort.** The state is left as it was when the abort happened. An abort while a module runs leaves that module's path current, as the uncaught exception does.
- Operators.Divide: numbers are exact reals. Infinity and NaN are one value, NonFinite, which any further arithmetic keeps. JavaScript instead gives, for example, 0 for `x / Infinity`.
- Operators.Plus: number formatting is the host's `show`. The concatenation is proved for each operand's text as `show` gives it.
- Evaluator.EvalStmt: the statement's effect is tied to `StepSimple` only for simple statements. For a call, an object, an assignment or a member access it is the evaluated value, with the invariants above but no reference specification.
- Evaluator.RunBody: the stopping rule and the pairing of signals with statements hold for every body. The result, store and log are tied to `RunSimple` only for bodies of simple statements; `use` statements and non-read-only expressions have no reference run.
- Evaluator.EvalUse: that the including environment's other bindings survive is proved only for a module of simple statements without `return`. In general a module's statements could only reach that environment through a value naming it. Globals and native results hold no such value, but no reachability invariant proving this is part of the model.
- Evaluator.CallFunction: the result of a user function is pinned to `RunSimple` only for a body of simple statements, for the same reason. The same holds for Evaluator.ApplyCallee and Evaluator.EvalCall.
- Evaluator.ApplyCallee: see Evaluator.CallFunction above.
- Evaluator.EvalCall: the argument values and the callee are pinned to their readings only when they are read-only.
- Evaluator.EvalObject: the values are tied to their readings only for shorthand and read-only properties. Other values are the evaluated ones.
- Evaluator.EvalBinary: the operand values are tied to their readings only for read-only operands.
- Evaluator.EvalAssign: the value assigned is tied to its reading only for a read-only value.
- Evaluator.AssignMember: the value written is tied to its reading only for a read-only value.
- Analysis.Analyzer.Analyz: the result is tied to `TypeOf` only for pure expressions. Calls, conditionals, blocks, functions and declarations are described by the structural clauses above.
- Analysis.Analyzer.AnalyzIf: the body's items and the alternative are tied to `TypeOf` only when they are pure.
- Analysis.Analyzer.AnalyzFnCall: the arguments are tied to `TypeOfAll` only when they are pure.
- Analysis.Analyzer.AnalyzFunc: the body's items are tied to `TypeOf` only when they are pure.
