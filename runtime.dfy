/**
 * The process-wide state of the Atomic runtime: every environment created so
 * far (runtime/enviroment.ts keeps them as linked objects; here they are
 * numbered in creation order), every object, the diagnostics recorded through
 * `error`, and the current module path that `use` swaps. The host supplies
 * value rendering, native functions, module files and the global bindings.
 */
module RuntimeState {
  import opened Wrappers
  import opened Values
  import opened Scopes

  /** The diagnostics an optional code contributes to the log. */
  function DiagList(d: Option<Code>): (r: seq<Code>)
    ensures d.Some? ==> r == [d.value]
    ensures d.None? ==> r == []
  {
    if d.Some? then [d.value] else []
  }

  class Runtime {
    var scopes: seq<Scope>
    var objects: seq<Props>
    var diags: seq<Code>
    var currentPath: string

    /** The host's rendering of a non-string value (`String(x.value)`). */
    const show: Value -> string
    /** Native functions: result of calling native `id` with the arguments. */
    const native: (nat, seq<Value>, EnvId) -> Value
    /** The parsed contents of a module file, or None if it cannot be read. */
    const modules: string -> Option<seq<Stmt>>
    /** The bindings every fresh top-level environment starts with. */
    const globals: map<string, Binding>

    /** What the host hands over holds no references into the stores. */
    ghost predicate HostOk() {
      (forall n | n in globals :: Plain(globals[n].value)) &&
      (forall id, args, env :: Plain(native(id, args, env)))
    }

    ghost predicate Valid()
      reads this
    {
      ScopesOk(scopes, |objects|) && ObjectsOk(objects, |scopes|) && HostOk()
    }

    /** `v` names only environments and objects that exist now. */
    ghost predicate Holds(v: Value)
      reads this
    {
      RefsOk(v, |scopes|, |objects|)
    }

    /**
     * Stores only grow, the diagnostic log is append-only, and no
     * environment ever changes its parent.
     */
    twostate predicate Grew()
      reads this
    {
      old(|scopes|) <= |scopes| && old(|objects|) <= |objects| && old(diags) <= diags &&
      forall i | 0 <= i < old(|scopes|) :: scopes[i].parent == old(scopes)[i].parent
    }

    /** A runtime whose only environment is the global one (`createEnv`). */
    constructor (path: string, show: Value -> string, native: (nat, seq<Value>, EnvId) -> Value,
                 modules: string -> Option<seq<Stmt>>, globals: map<string, Binding>)
      requires forall n | n in globals :: Plain(globals[n].value)
      requires forall id, args, env :: Plain(native(id, args, env))
      ensures Valid()
      ensures scopes == [Scope(None, globals)] && objects == [] && diags == [] && currentPath == path
      ensures this.show == show && this.native == native && this.modules == modules && this.globals == globals
    {
      this.show, this.native, this.modules, this.globals := show, native, modules, globals;
      scopes, objects, diags, currentPath := [Scope(None, globals)], [], [], path;
    }

    /** `error(...)`: append a diagnostic, if there is one. */
    method Report(d: Option<Code>)
      requires Valid()
      modifies this`diags
      ensures Valid() && diags == old(diags) + DiagList(d)
    {
      diags := diags + DiagList(d);
    }

    /** `new Enviroment(parent)`: a fresh, empty environment. */
    method NewEnv(parent: Option<EnvId>) returns (id: EnvId)
      requires Valid() && (parent.Some? ==> parent.value < |scopes|)
      modifies this`scopes
      ensures Valid() && id == old(|scopes|) && scopes == NewScope(old(scopes), parent)
    {
      id := |scopes|;
      scopes := NewScope(scopes, parent);
    }

    /** `createEnv()`: a fresh top-level environment holding the globals. */
    method CreateEnv() returns (id: EnvId)
      requires Valid()
      modifies this`scopes
      ensures Valid() && id == old(|scopes|) && scopes == old(scopes) + [Scope(None, globals)]
    {
      id := |scopes|;
      scopes := scopes + [Scope(None, globals)];
    }

    method DeclareVar(env: EnvId, name: string, v: Value, locked: bool) returns (r: Value)
      requires Valid() && env < |scopes| && Holds(v)
      modifies this`scopes
      ensures Valid() && r == v && scopes == Declare(old(scopes), env, name, Binding(v, locked))
    {
      scopes := Declare(scopes, env, name, Binding(v, locked));
      r := v;
    }

    method SetVar(env: EnvId, name: string, v: Value) returns (r: Value)
      requires Valid() && env < |scopes| && Holds(v)
      modifies this`scopes, this`diags
      ensures Valid()
      ensures var u := Scopes.SetVar(old(scopes), env, name, v);
        scopes == u.scopes && r == u.value && diags == old(diags) + DiagList(u.diag)
    {
      var u := Scopes.SetVar(scopes, env, name, v);
      if u.diag.None? {
        var i := Resolve(scopes, env, name).value;
        assert u.scopes == Declare(scopes, i, name, Binding(v, false));
      }
      scopes := u.scopes;
      diags := diags + DiagList(u.diag);
      r := u.value;
    }

    method FindVar(env: EnvId, name: string) returns (r: Value)
      requires Valid() && env < |scopes|
      modifies this`diags
      ensures Valid() && Holds(r)
      ensures var o := Scopes.FindVar(scopes, env, name); r == o.value && diags == old(diags) + DiagList(o.diag)
    {
      var o := Scopes.FindVar(scopes, env, name);
      diags := diags + DiagList(o.diag);
      r := o.value;
    }

    /** A new object holding `p`. */
    method NewObject(p: Props) returns (ref: ObjRef)
      requires Valid() && DistinctKeys(p) && forall k | 0 <= k < |p| :: Holds(p[k].value)
      modifies this`objects
      ensures Valid() && ref == old(|objects|) && objects == old(objects) + [p]
    {
      ref := |objects|;
      objects := objects + [p];
    }

    /** `getObjProperty` by key. */
    method GetProperty(ref: ObjRef, key: string) returns (r: Value)
      requires Valid() && ref < |objects|
      ensures Holds(r) && r == Get(objects[ref], key)
      ensures r != Null ==> exists k :: 0 <= k < |objects[ref]| && objects[ref][k] == Entry(key, r)
    {
      match KeyIndex(objects[ref], key)
      case Some(i) => r := objects[ref][i].value;
      case None => r := Null;
    }

    /** `getObjProperty` by position: the property at an index, else AT3008. */
    method GetIndexed(ref: ObjRef, n: real) returns (r: Value)
      requires Valid() && ref < |objects|
      modifies this`diags
      ensures Valid() && Holds(r)
      ensures var o := GetAt(objects[ref], n); r == o.value && diags == old(diags) + DiagList(o.diag)
    {
      var o := GetAt(objects[ref], n);
      diags := diags + DiagList(o.diag);
      r := o.value;
    }

    /** `setObjProperty` by key: `Map.set` on the object, yielding the value. */
    method SetProperty(ref: ObjRef, key: string, v: Value) returns (r: Value)
      requires Valid() && ref < |objects| && Holds(v)
      modifies this`objects
      ensures Valid() && r == v && objects == old(objects)[ref := Put(old(objects)[ref], key, v)]
      ensures Get(objects[ref], key) == v
    {
      var p := objects[ref];
      var q := Put(p, key, v);
      objects := objects[ref := q];
      GetAfterPut(p, key, v);
      r := v;
    }

    /** `setObjProperty` by position: replace the value at an index, else AT3008. */
    method SetIndexed(ref: ObjRef, n: real, v: Value) returns (r: Value)
      requires Valid() && ref < |objects| && Holds(v)
      modifies this`objects, this`diags
      ensures Valid()
      ensures var u := PutAt(old(objects)[ref], n, v);
        objects == old(objects)[ref := u.props] && r == u.out.value && diags == old(diags) + DiagList(u.out.diag)
    {
      var u := PutAt(objects[ref], n, v);
      objects := objects[ref := u.props];
      diags := diags + DiagList(u.out.diag);
      r := u.out.value;
    }

    /** `addEnv`: merge the own bindings of `from` into `into`. */
    method AddEnv(into: EnvId, from: EnvId)
      requires Valid() && into < |scopes| && from < |scopes|
      modifies this`scopes
      ensures Valid() && scopes == Merge(old(scopes), into, from)
    {
      scopes := Merge(scopes, into, from);
    }
  }
}
