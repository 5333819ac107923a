/**
 * The environment and object operations of the Atomic runtime as pure
 * functions over the scope store and an object's property list. The
 * `Runtime` class applies them to its state; the lemmas here say what they
 * mean: lookups follow the scope chain, a locked binding survives
 * assignment, `use` makes a module's bindings visible, and an object keeps
 * one entry per key in insertion order.
 */
module Scopes {
  import opened Wrappers
  import opened Values

  /** Every parent was created before its child, so chains are finite. */
  predicate ChainOk(scopes: seq<Scope>) {
    forall i | 0 <= i < |scopes| :: scopes[i].parent.Some? ==> scopes[i].parent.value < i
  }

  /** The nearest environment on the chain from `env` that binds `name`. */
  function Resolve(scopes: seq<Scope>, env: EnvId, name: string): (r: Option<EnvId>)
    requires ChainOk(scopes) && env < |scopes|
    ensures r.Some? ==> r.value <= env && name in scopes[r.value].vars
    ensures name in scopes[env].vars ==> r == Some(env)
    decreases env
  {
    if name in scopes[env].vars then Some(env)
    else match scopes[env].parent
      case None => None
      case Some(p) => Resolve(scopes, p, name)
  }

  /** The binding `name` has when looked up from `env`. */
  function Lookup(scopes: seq<Scope>, env: EnvId, name: string): (r: Option<Binding>)
    requires ChainOk(scopes) && env < |scopes|
    ensures name in scopes[env].vars ==> r == Some(scopes[env].vars[name])
    ensures r.Some? ==> exists i | 0 <= i <= env :: name in scopes[i].vars && scopes[i].vars[name] == r.value
  {
    match Resolve(scopes, env, name)
    case None => None
    case Some(i) => Some(scopes[i].vars[name])
  }

  /** `declareVar`: bind `name` in `env` itself, replacing any binding there. */
  function Declare(scopes: seq<Scope>, env: EnvId, name: string, b: Binding): (r: seq<Scope>)
    requires env < |scopes|
    ensures |r| == |scopes| && name in r[env].vars && r[env].vars[name] == b
    ensures forall i | 0 <= i < |r| && i != env :: r[i] == scopes[i]
    ensures r[env].parent == scopes[env].parent
    ensures ChainOk(scopes) ==> ChainOk(r)
  {
    scopes[env := scopes[env].(vars := scopes[env].vars[name := b])]
  }

  /** `findVar`: the value bound to `name`, or Null and a diagnostic. */
  function FindVar(scopes: seq<Scope>, env: EnvId, name: string): (r: Outcome)
    requires ChainOk(scopes) && env < |scopes|
    ensures r.diag.Some? <==> Lookup(scopes, env, name).None?
    ensures r.diag.Some? ==> r == Outcome(Null, Some(UnknownVariable))
    ensures r.diag.None? ==> r.value == Lookup(scopes, env, name).value.value
  {
    match Lookup(scopes, env, name)
    case None => Outcome(Null, Some(UnknownVariable))
    case Some(b) => Outcome(b.value, None)
  }

  /** The new store, the value yielded and the diagnostic of an assignment. */
  datatype Update = Update(scopes: seq<Scope>, value: Value, diag: Option<Code>)

  /**
   * `setVar`: reassign the nearest binding of `name`. A name bound nowhere,
   * or bound locked, is a diagnostic that leaves the store as it was.
   */
  function SetVar(scopes: seq<Scope>, env: EnvId, name: string, v: Value): (r: Update)
    requires ChainOk(scopes) && env < |scopes|
    ensures r.diag.None? <==> Lookup(scopes, env, name).Some? && !Lookup(scopes, env, name).value.locked
    ensures r.diag.Some? ==> r.scopes == scopes && r.value == Null
    ensures Lookup(scopes, env, name).None? ==> r.diag == Some(UnknownVariable)
    ensures r.diag.None? ==> r.value == v && |r.scopes| == |scopes| && ChainOk(r.scopes)
  {
    match Resolve(scopes, env, name)
    case None => Update(scopes, Null, Some(UnknownVariable))
    case Some(i) =>
      if scopes[i].vars[name].locked then Update(scopes, Null, Some(LockedVariable))
      else Update(Declare(scopes, i, name, Binding(v, false)), v, None)
  }

  /** A fresh, empty environment whose parent is `parent`. */
  function NewScope(scopes: seq<Scope>, parent: Option<EnvId>): (r: seq<Scope>)
    ensures |r| == |scopes| + 1 && r[..|scopes|] == scopes
    ensures r[|scopes|] == Scope(parent, map[])
    ensures ChainOk(scopes) && (parent.Some? ==> parent.value < |scopes|) ==> ChainOk(r)
  {
    scopes + [Scope(parent, map[])]
  }

  /** `addEnv`: every own binding of `from` is copied into `into`, overwriting. */
  function Merge(scopes: seq<Scope>, into: EnvId, from: EnvId): (r: seq<Scope>)
    requires into < |scopes| && from < |scopes|
    ensures |r| == |scopes| && r[into].parent == scopes[into].parent
    ensures forall i | 0 <= i < |r| && i != into :: r[i] == scopes[i]
    ensures ChainOk(scopes) ==> ChainOk(r)
  {
    scopes[into := scopes[into].(vars := scopes[into].vars + scopes[from].vars)]
  }

  /**
   * Two stores with the same parents and the same environments binding
   * `name` resolve `name` to the same environment.
   */
  lemma {:induction false} ResolveSameShape(s: seq<Scope>, t: seq<Scope>, env: EnvId, name: string)
    requires ChainOk(s) && ChainOk(t) && |s| == |t| && env < |s|
    requires forall i | 0 <= i < |s| :: s[i].parent == t[i].parent && (name in s[i].vars <==> name in t[i].vars)
    ensures Resolve(s, env, name) == Resolve(t, env, name)
    decreases env
  {
    if name !in s[env].vars {
      match s[env].parent
      case None =>
      case Some(p) => ResolveSameShape(s, t, p, name);
    }
  }

  /** Adding environments leaves every lookup from an existing one unchanged. */
  lemma {:induction false} ResolveAppend(s: seq<Scope>, extra: seq<Scope>, env: EnvId, name: string)
    requires ChainOk(s) && ChainOk(s + extra) && env < |s|
    ensures Resolve(s + extra, env, name) == Resolve(s, env, name)
    decreases env
  {
    assert (s + extra)[env] == s[env];
    if name !in s[env].vars {
      match s[env].parent
      case None =>
      case Some(p) => ResolveAppend(s, extra, p, name);
    }
  }

  /** A declaration changes no lookup of another name, from any environment. */
  lemma LookupDeclareOther(s: seq<Scope>, e: EnvId, x: string, b: Binding, from: EnvId, y: string)
    requires ChainOk(s) && e < |s| && from < |s| && y != x
    ensures Lookup(Declare(s, e, x, b), from, y) == Lookup(s, from, y)
  {
    var t := Declare(s, e, x, b);
    ResolveSameShape(s, t, from, y);
  }

  /** After a successful assignment the name holds the new, unlocked value. */
  lemma LookupAfterSetVar(s: seq<Scope>, env: EnvId, name: string, v: Value)
    requires ChainOk(s) && env < |s|
    requires SetVar(s, env, name, v).diag.None?
    ensures Lookup(SetVar(s, env, name, v).scopes, env, name) == Some(Binding(v, false))
  {
    var i := Resolve(s, env, name).value;
    var t := Declare(s, i, name, Binding(v, false));
    ResolveSameShape(s, t, env, name);
  }

  /** Assigning to a locked binding records LockedVariable and changes nothing. */
  lemma LockedSurvivesAssignment(s: seq<Scope>, env: EnvId, name: string, old_v: Value, v: Value)
    requires ChainOk(s) && env < |s|
    requires Lookup(s, env, name) == Some(Binding(old_v, true))
    ensures SetVar(s, env, name, v) == Update(s, Null, Some(LockedVariable))
    ensures Lookup(SetVar(s, env, name, v).scopes, env, name) == Some(Binding(old_v, true))
  {
  }

  /**
   * `setVar` updates the binding it resolves to, where it is: afterwards
   * every environment whose lookup of `name` reached that same binding sees
   * the new value, and every other lookup is as before. An assignment made
   * inside a call is thus visible to the caller when the name is the
   * caller's.
   */
  lemma SetVarUpdatesNearest(s: seq<Scope>, env: EnvId, name: string, v: Value, from: EnvId, n: string)
    requires ChainOk(s) && env < |s| && from < |s|
    requires SetVar(s, env, name, v).diag.None?
    ensures Lookup(SetVar(s, env, name, v).scopes, from, n) ==
      if n == name && Resolve(s, from, name) == Resolve(s, env, name) then Some(Binding(v, false))
      else Lookup(s, from, n)
  {
    var i := Resolve(s, env, name).value;
    var t := Declare(s, i, name, Binding(v, false));
    assert SetVar(s, env, name, v).scopes == t;
    ResolveSameShape(s, t, from, n);
  }

  /** A fresh child sees exactly what its parent sees. */
  lemma {:induction false} LookupInNewChild(s: seq<Scope>, p: EnvId, name: string)
    requires ChainOk(s) && p < |s|
    ensures ChainOk(NewScope(s, Some(p)))
    ensures Lookup(NewScope(s, Some(p)), |s|, name) == Lookup(s, p, name)
  {
    var t := NewScope(s, Some(p));
    assert t == s + [Scope(Some(p), map[])];
    ResolveAppend(s, [Scope(Some(p), map[])], p, name);
  }

  /**
   * After `addEnv`, every binding of the merged environment is what `into`
   * sees, and every other name is looked up as before.
   */
  lemma MergeVisible(s: seq<Scope>, into: EnvId, from: EnvId, name: string)
    requires ChainOk(s) && into < |s| && from < |s|
    ensures name in s[from].vars ==> Lookup(Merge(s, into, from), into, name) == Some(s[from].vars[name])
    ensures name !in s[from].vars ==> Lookup(Merge(s, into, from), into, name) == Lookup(s, into, name)
  {
    var t := Merge(s, into, from);
    if name !in s[from].vars {
      ResolveSameShape(s, t, into, name);
    }
  }

  /**
   * The bindings a call declares, one parameter after another, each
   * unlocked; a repeated parameter name keeps the later argument.
   */
  function ParamBindings(params: seq<string>, args: seq<Value>): (r: map<string, Binding>)
    requires |params| == |args|
    ensures forall x | x in r :: !r[x].locked
    decreases |params|
  {
    if params == [] then map[]
    else
      var n := |params| - 1;
      ParamBindings(params[..n], args[..n])[params[n] := Binding(args[n], false)]
  }

  /**
   * The store once a call's fresh environment, child of `parent`, holds the
   * parameter bindings.
   */
  function CallStore(s: seq<Scope>, parent: EnvId, params: seq<string>, args: seq<Value>): (r: seq<Scope>)
    requires |params| == |args|
    ensures |r| == |s| + 1 && r[..|s|] == s
    ensures r[|s|] == Scope(Some(parent), ParamBindings(params, args))
    ensures ChainOk(s) && parent < |s| ==> ChainOk(r)
  {
    s + [Scope(Some(parent), ParamBindings(params, args))]
  }

  /** The call binds exactly the parameter names. */
  lemma {:induction false} ParamBindingsKeys(params: seq<string>, args: seq<Value>)
    requires |params| == |args|
    ensures ParamBindings(params, args).Keys == set k | 0 <= k < |params| :: params[k]
    decreases |params|
  {
    if params != [] {
      var n := |params| - 1;
      ParamBindingsKeys(params[..n], args[..n]);
      assert (set k | 0 <= k < |params| :: params[k]) == (set k | 0 <= k < n :: params[..n][k]) + {params[n]};
    }
  }

  /** Parameter `i` is bound to argument `i`, unless a later parameter has its name. */
  lemma {:induction false} ParamBound(params: seq<string>, args: seq<Value>, i: nat)
    requires |params| == |args| && i < |params|
    requires forall k | i < k < |params| :: params[k] != params[i]
    ensures params[i] in ParamBindings(params, args)
    ensures ParamBindings(params, args)[params[i]] == Binding(args[i], false)
    decreases |params|
  {
    var n := |params| - 1;
    if i < n {
      ParamBound(params[..n], args[..n], i);
    }
  }

  /** In the body of a call, parameter `i` reads as argument `i`, unless a later parameter has its name. */
  lemma LookupParameter(s: seq<Scope>, parent: EnvId, params: seq<string>, args: seq<Value>, i: nat)
    requires ChainOk(s) && parent < |s| && |params| == |args| && i < |params|
    requires forall k | i < k < |params| :: params[k] != params[i]
    ensures Lookup(CallStore(s, parent, params, args), |s|, params[i]) == Some(Binding(args[i], false))
  {
    ParamBound(params, args, i);
  }

  /** In the body of a call, a name that is no parameter reads as it does in the closure. */
  lemma LookupNonParameter(s: seq<Scope>, parent: EnvId, params: seq<string>, args: seq<Value>, x: string)
    requires ChainOk(s) && parent < |s| && |params| == |args|
    requires forall k | 0 <= k < |params| :: params[k] != x
    ensures Lookup(CallStore(s, parent, params, args), |s|, x) == Lookup(s, parent, x)
  {
    var t := CallStore(s, parent, params, args);
    ParamBindingsKeys(params, args);
    assert x !in t[|s|].vars;
    assert t == s + [t[|s|]];
    ResolveAppend(s, [t[|s|]], parent, x);
  }

  // ----- References held by values --------------------------------------

  /** `v` names only environments and objects that exist. */
  predicate RefsOk(v: Value, envs: nat, objs: nat) {
    match v
    case Obj(o) => o < objs
    case Func(_, _, _, e) => e < envs
    case _ => true
  }

  /** `v` holds no reference at all. */
  predicate Plain(v: Value) {
    !v.Obj? && !v.Func?
  }

  /** Every value bound in an environment names existing things. */
  predicate ScopesOk(scopes: seq<Scope>, objs: nat) {
    ChainOk(scopes) &&
    forall i, n | 0 <= i < |scopes| && n in scopes[i].vars :: RefsOk(scopes[i].vars[n].value, |scopes|, objs)
  }

  /** Every object has distinct keys and holds only values naming existing things. */
  predicate ObjectsOk(objects: seq<Props>, envs: nat) {
    (forall o | 0 <= o < |objects| :: DistinctKeys(objects[o])) &&
    forall o, k | 0 <= o < |objects| && 0 <= k < |objects[o]| :: RefsOk(objects[o][k].value, envs, |objects|)
  }

  // ----- Objects: insertion-ordered property lists ------------------------

  predicate DistinctKeys(p: Props) {
    forall i, j | 0 <= i < j < |p| :: p[i].key != p[j].key
  }

  /** The position of `key` in `p`, searching from `i`. */
  function KeyIndexFrom(p: Props, key: string, i: nat): (r: Option<nat>)
    requires i <= |p|
    ensures r.Some? ==> i <= r.value < |p| && p[r.value].key == key
    ensures r.Some? ==> forall j | i <= j < r.value :: p[j].key != key
    ensures r.None? ==> forall j | i <= j < |p| :: p[j].key != key
    decreases |p| - i
  {
    if i == |p| then None
    else if p[i].key == key then Some(i)
    else KeyIndexFrom(p, key, i + 1)
  }

  function KeyIndex(p: Props, key: string): Option<nat> {
    KeyIndexFrom(p, key, 0)
  }

  /** `Map.set`: replace the value of an existing key in place, else append. */
  function Put(p: Props, key: string, v: Value): (r: Props)
    ensures |r| == |p| || |r| == |p| + 1
    ensures forall k | 0 <= k < |r| :: r[k] == Entry(key, v) || r[k] in p
    ensures forall j | 0 <= j < |p| :: r[j].key == p[j].key
    ensures forall j | 0 <= j < |p| && p[j].key != key :: r[j] == p[j]
    ensures (exists j | 0 <= j < |p| :: p[j].key == key) ==> |r| == |p|
    ensures (forall j | 0 <= j < |p| :: p[j].key != key) ==> |r| == |p| + 1 && r[|p|] == Entry(key, v)
    ensures DistinctKeys(p) ==> DistinctKeys(r)
  {
    match KeyIndex(p, key)
    case Some(i) => p[i := Entry(key, v)]
    case None => p + [Entry(key, v)]
  }

  /** `Map.get`; a key the object does not have reads as Null. */
  function Get(p: Props, key: string): (r: Value)
    ensures (forall j | 0 <= j < |p| :: p[j].key != key) ==> r == Null
    ensures forall j | 0 <= j < |p| && p[j].key == key && (forall k | 0 <= k < j :: p[k].key != key) :: r == p[j].value
  {
    match KeyIndex(p, key)
    case Some(i) => p[i].value
    case None => Null
  }

  /** The insertion-order position an index literal names, if it names one. */
  function IndexOf(p: Props, n: real): (r: Option<nat>)
    ensures r.Some? ==> r.value < |p| && r.value as real == n
    ensures r.None? ==> n != n.Floor as real || n < 0.0 || n >= |p| as real
  {
    if n == n.Floor as real && 0.0 <= n && n < |p| as real then Some(n.Floor as nat) else None
  }

  /** Read the property at an index; an index naming none is AT3008. */
  function GetAt(p: Props, n: real): (r: Outcome)
    ensures r.diag.Some? <==> IndexOf(p, n).None?
    ensures r.diag.Some? ==> r == Outcome(Null, Some(AT3008))
    ensures r.diag.None? ==> exists i :: 0 <= i < |p| && i as real == n && r.value == p[i].value
  {
    match IndexOf(p, n)
    case Some(i) => Outcome(p[i].value, None)
    case None => Outcome(Null, Some(AT3008))
  }

  /** The object after writing `v` at an index, with what the write yields. */
  datatype PropsUpdate = PropsUpdate(props: Props, out: Outcome)

  /**
   * `setObjProperty` by position: the property at the index keeps its key
   * and takes the new value; an index naming no property is AT3008.
   */
  function PutAt(p: Props, n: real, v: Value): (r: PropsUpdate)
    ensures |r.props| == |p| && forall k | 0 <= k < |p| :: r.props[k].key == p[k].key
    ensures r.out.diag.Some? <==> IndexOf(p, n).None?
    ensures r.out.diag.Some? ==> r == PropsUpdate(p, Outcome(Null, Some(AT3008)))
    ensures r.out.diag.None? ==> r.out.value == v && GetAt(r.props, n) == Outcome(v, None)
    ensures forall k | 0 <= k < |p| && k as real != n :: r.props[k] == p[k]
  {
    match IndexOf(p, n)
    case Some(i) => PropsUpdate(p[i := Entry(p[i].key, v)], Outcome(v, None))
    case None => PropsUpdate(p, Outcome(Null, Some(AT3008)))
  }

  /** `properties.set` applied to each entry in turn. */
  function PutAll(p: Props, entries: Props): Props
    decreases |entries|
  {
    if entries == [] then p
    else
      var last := entries[|entries| - 1];
      Put(PutAll(p, entries[..|entries| - 1]), last.key, last.value)
  }

  /** The first position holding `key` is what `KeyIndex` finds. */
  lemma KeyIndexIs(p: Props, key: string, i: nat)
    requires i < |p| && p[i].key == key && forall j | 0 <= j < i :: p[j].key != key
    ensures KeyIndex(p, key) == Some(i)
  {
  }

  /** Setting a key and reading it back gives the value set. */
  lemma GetAfterPut(p: Props, key: string, v: Value)
    ensures Get(Put(p, key, v), key) == v
  {
    var r := Put(p, key, v);
    match KeyIndex(p, key)
    case Some(i) =>
      KeyIndexIs(r, key, i);
    case None =>
      assert forall j | 0 <= j < |p| :: r[j] == p[j];
      KeyIndexIs(r, key, |p|);
  }

  /** Setting one key leaves every other key's value alone. */
  lemma GetOtherAfterPut(p: Props, key: string, v: Value, other: string)
    requires other != key
    ensures Get(Put(p, key, v), other) == Get(p, other)
  {
    var r := Put(p, key, v);
    assert forall j | 0 <= j < |r| :: r[j].key == other ==> j < |p| && r[j] == p[j];
    match KeyIndex(p, other)
    case Some(i) =>
      KeyIndexIs(r, other, i);
    case None =>
      assert KeyIndex(r, other).None?;
  }

  /**
   * Setting entries one after another keeps the existing keys in their
   * positions, adds at most one entry per entry set, and keeps keys
   * distinct; every key set reads back as the last value set for it.
   */
  lemma {:induction false} PutAllKeeps(p: Props, entries: Props)
    ensures |p| <= |PutAll(p, entries)| <= |p| + |entries|
    ensures forall j | 0 <= j < |p| :: PutAll(p, entries)[j].key == p[j].key
    ensures DistinctKeys(p) ==> DistinctKeys(PutAll(p, entries))
    ensures entries != [] ==> Get(PutAll(p, entries), entries[|entries| - 1].key) == entries[|entries| - 1].value
    decreases |entries|
  {
    if entries != [] {
      var n := |entries| - 1;
      PutAllKeeps(p, entries[..n]);
      GetAfterPut(PutAll(p, entries[..n]), entries[n].key, entries[n].value);
    }
  }

  /**
   * Setting keys that are new and distinct only appends: an object literal
   * with distinct keys keeps them in the order written.
   */
  lemma {:induction false} PutAllDistinct(p: Props, entries: Props)
    requires DistinctKeys(p + entries)
    ensures PutAll(p, entries) == p + entries
    decreases |entries|
  {
    if entries != [] {
      var n := |entries| - 1;
      var front := entries[..n];
      assert p + entries == (p + front) + [entries[n]];
      assert DistinctKeys(p + front) by {
        forall i, j | 0 <= i < j < |p + front| ensures (p + front)[i].key != (p + front)[j].key {
          assert (p + front)[i] == (p + entries)[i] && (p + front)[j] == (p + entries)[j];
        }
      }
      PutAllDistinct(p, front);
      assert KeyIndex(p + front, entries[n].key).None? by {
        forall j | 0 <= j < |p + front| ensures (p + front)[j].key != entries[n].key {
          assert (p + front)[j] == (p + entries)[j];
          assert entries[n] == (p + entries)[|p| + n];
        }
      }
    }
  }
}
