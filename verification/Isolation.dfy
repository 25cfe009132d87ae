/** `isolation.py`: measuring and undoing what a test did to its module's globals and to the
    environment. Containers are objects on the heap that several names may share; their elements are
    immutable values. */
module Isolation {
  import opened Prelude
  import NodeIds

  // An immutable value, by what `==` says of it.
  type Scalar = int

  datatype Contents =
    | DictOf(entries: map<Scalar, Scalar>)
    | ListOf(items: seq<Scalar>)
    | SetOf(members: set<Scalar>)
    | BytesOf(bytes: seq<int>)

  predicate SameType(a: Contents, b: Contents) {
    match a
    case DictOf(_) => b.DictOf?
    case ListOf(_) => b.ListOf?
    case SetOf(_) => b.SetOf?
    case BytesOf(_) => b.BytesOf?
  }

  class Container {
    var contents: Contents

    constructor (contents: Contents)
      ensures this.contents == contents
    {
      this.contents := contents;
    }
  }

  // What a global is bound to. `Code` stands for functions, classes and modules, which no snapshot
  // holds; an `Uncopyable` value is one `deepcopy` refuses.
  datatype Value = Plain(s: Scalar) | Held(c: Container) | Code(id: nat) | Uncopyable(id: nat)

  datatype Snap = PlainCopy(s: Scalar) | Copy(contents: Contents) | Opaque

  class Module {
    var vars: map<string, Value>
  }

  class Environ {
    var vars: map<string, string>
  }

  function Containers(vars: map<string, Value>): set<Container> {
    set k | k in vars && vars[k].Held? :: vars[k].c
  }

  predicate Eligible(name: string, v: Value) {
    !NodeIds.HasPrefix(name, "__") && !v.Code?
  }

  function SnapOf(v: Value): Snap
    requires !v.Code?
    reads if v.Held? then {v.c} else {}
  {
    match v
    case Plain(s) => PlainCopy(s)
    case Held(c) => Copy(c.contents)
    case Uncopyable(_) => Opaque
  }

  // `_snapshot_shared`, as a map from the eligible names.
  function SnapshotOf(vars: map<string, Value>): map<string, Snap>
    reads Containers(vars)
  {
    map k | k in vars && Eligible(k, vars[k]) :: SnapOf(vars[k])
  }

  method Snapshot(mod: Module) returns (out: map<string, Snap>)
    ensures out == SnapshotOf(mod.vars)
  {
    out := map[];
    var todo := mod.vars.Keys;
    while todo != {}
      invariant todo <= mod.vars.Keys
      invariant out == map k | k in mod.vars && Eligible(k, mod.vars[k]) && k !in todo :: SnapOf(mod.vars[k])
      decreases todo
    {
      var k :| k in todo;
      todo := todo - {k};
      var v := mod.vars[k];
      if NodeIds.HasPrefix(k, "__") || v.Code? {
        continue;
      }
      match v {
        case Uncopyable(_) => out := out[k := Opaque];
        case Plain(s) => out := out[k := PlainCopy(s)];
        case Held(c) => out := out[k := Copy(c.contents)];
      }
    }
  }

  // ---- the verdict ----

  // Neither side of this name could be copied: nothing is said about it.
  predicate Unjudged(k: string, before: map<string, Snap>, current: map<string, Snap>) {
    (k in before && before[k].Opaque?) || (k in current && current[k].Opaque?)
  }

  predicate SameGlobal(k: string, before: map<string, Snap>, current: map<string, Snap>) {
    k in before && k in current && before[k] == current[k]
  }

  ghost predicate AllSame(before: map<string, Snap>, current: map<string, Snap>) {
    forall k :: k in before.Keys + current.Keys ==> Unjudged(k, before, current) || SameGlobal(k, before, current)
  }

  ghost predicate Pure(vars: map<string, Value>, env: map<string, string>,
                       before: map<string, Snap>, envBefore: map<string, string>)
    reads Containers(vars)
  {
    AllSame(before, SnapshotOf(vars)) && env == envBefore
  }

  // A global as a test sees it: there, and no function, class or module.
  function Seen(vars: map<string, Value>, k: string): Option<Value> {
    if k in vars && !vars[k].Code? then Some(vars[k]) else None
  }

  // The global is missing still, or the same plain value, or a container with the contents it had, the
  // same one or not. One that cannot be copied passes.
  twostate predicate AsItWas(mod: Module, k: string)
    reads mod, Containers(mod.vars)
  {
    var was, now := Seen(old(mod.vars), k), Seen(mod.vars, k);
    match (was, now)
    case (None, None) => true
    case (Some(Plain(s)), Some(Plain(u))) => s == u
    case (Some(Held(c)), Some(Held(e))) => old(c.contents) == e.contents
    case (Some(Uncopyable(_)), _) => true
    case (_, Some(Uncopyable(_))) => true
    case _ => false
  }

  // Measured against the snapshot taken before it, whatever a test did is pure exactly when it left every
  // global but the dunder names, and the environment, with the value they had.
  twostate lemma {:induction false} PureIff(mod: Module, env: Environ)
    ensures Pure(mod.vars, env.vars, old(SnapshotOf(mod.vars)), old(env.vars)) <==>
              && env.vars == old(env.vars)
              && forall k :: (|k| >= 2 && k[0] == '_' && k[1] == '_') || AsItWas(mod, k)
  {
    var before, now := old(SnapshotOf(mod.vars)), SnapshotOf(mod.vars);
    forall k: string
      ensures (|k| >= 2 && k[0] == '_' && k[1] == '_') <==> NodeIds.HasPrefix(k, "__")
      ensures (NodeIds.HasPrefix(k, "__") || AsItWas(mod, k)) <==>
                (k in before.Keys + now.Keys ==> Unjudged(k, before, now) || SameGlobal(k, before, now))
    {
      assert |k| >= 2 ==> k[..2] == [k[0], k[1]];
    }
  }

  datatype Impurity = MutatedGlobal(name: string) | MutatedEnviron

  method PurityVerdict(mod: Module, env: Environ, before: map<string, Snap>, envBefore: map<string, string>)
      returns (reason: Option<Impurity>)
    ensures reason.None? <==> Pure(mod.vars, env.vars, before, envBefore)
    ensures reason == Some(MutatedEnviron) ==> env.vars != envBefore
    ensures reason.Some? && reason.value.MutatedGlobal? ==>
              var k, current := reason.value.name, SnapshotOf(mod.vars);
              !Unjudged(k, before, current) && !SameGlobal(k, before, current)
  {
    var after := Snapshot(mod);
    var todo := before.Keys + after.Keys;
    while todo != {}
      invariant todo <= before.Keys + after.Keys
      invariant forall k :: k in before.Keys + after.Keys && k !in todo ==>
                  Unjudged(k, before, after) || SameGlobal(k, before, after)
      decreases todo
    {
      var k :| k in todo;
      todo := todo - {k};
      if (k in before && before[k].Opaque?) || (k in after && after[k].Opaque?) {
        continue;
      }
      if k !in before || k !in after || before[k] != after[k] {
        return Some(MutatedGlobal(k));
      }
    }
    reason := if env.vars != envBefore then Some(MutatedEnviron) else None;
  }

  // ---- the restore ----

  predicate Same(v: Value, old_: Snap)
    reads if v.Held? then {v.c} else {}
  {
    match v
    case Plain(s) => old_ == PlainCopy(s)
    case Held(c) => old_ == Copy(c.contents)
    case Code(_) => false
    case Uncopyable(_) => false
  }

  // The contents of a live container of unchanged type are put back where they are.
  method RestoreInPlace(live: Value, saved: Snap) returns (handled: bool)
    modifies if live.Held? then {live.c} else {}
    ensures handled <==> live.Held? && saved.Copy? && SameType(old(live.c.contents), saved.contents)
    ensures live.Held? ==> live.c.contents == if handled then saved.contents else old(live.c.contents)
  {
    if !live.Held? || !saved.Copy? || !SameType(live.c.contents, saved.contents) {
      return false;
    }
    match saved.contents {
      case DictOf(entries) =>
        live.c.contents := DictOf(map[]);
        live.c.contents := DictOf(live.c.contents.entries + entries);
      case ListOf(items) =>
        live.c.contents := ListOf(items);
      case SetOf(members) =>
        live.c.contents := SetOf({});
        live.c.contents := SetOf(live.c.contents.members + members);
      case BytesOf(bytes) =>
        live.c.contents := BytesOf(bytes);
    }
    handled := true;
  }

  method DeepCopy(saved: Snap) returns (v: Value)
    requires !saved.Opaque?
    ensures Same(v, saved) && (v.Held? ==> fresh(v.c)) && !v.Code? && !v.Uncopyable?
  {
    match saved {
      case PlainCopy(s) => v := Plain(s);
      case Copy(contents) =>
        var c := new Container(contents);
        v := Held(c);
    }
  }

  // The restore puts this snapshot back into the very container the value is.
  predicate PutBack(v: Value, saved: Snap)
    reads if v.Held? then {v.c} else {}
  {
    v.Held? && saved.Copy? && SameType(v.c.contents, saved.contents)
  }

  function ContainerAt(vars: map<string, Value>, k: string): set<Container> {
    if k in vars && vars[k].Held? then {vars[k].c} else {}
  }

  // What one name ends up bound to: its own container put back; else the same value, or a fresh copy.
  method RestoreName(mod: Module, k: string, saved: Snap)
    requires !saved.Opaque?
    modifies mod, ContainerAt(mod.vars, k)
    ensures mod.vars.Keys == old(mod.vars.Keys) + {k}
    ensures forall j :: j in old(mod.vars) && j != k ==> mod.vars[j] == old(mod.vars)[j]
    ensures Same(mod.vars[k], saved)
    ensures old(k in mod.vars && PutBack(mod.vars[k], saved)) ==> mod.vars == old(mod.vars)
    ensures !old(k in mod.vars && PutBack(mod.vars[k], saved)) ==>
              (mod.vars[k].Held? ==> fresh(mod.vars[k].c))
              && forall c :: c in old(ContainerAt(mod.vars, k)) ==> c.contents == old(c.contents)
    ensures old(k in mod.vars && Same(mod.vars[k], saved)) ==>
              mod.vars == old(mod.vars)
              && forall c :: c in old(ContainerAt(mod.vars, k)) ==> c.contents == old(c.contents)
  {
    if k in mod.vars && Same(mod.vars[k], saved) {
      return;
    }
    var handled := false;
    if k in mod.vars {
      handled := RestoreInPlace(mod.vars[k], saved);
    }
    if !handled {
      var v := DeepCopy(saved);
      mod.vars := mod.vars[k := v];
    }
  }

  // ---- what the loop over the names keeps; `vars0` and `contents0` are the state it starts from ----

  type Store = map<Container, Contents>

  ghost function ContentsOf(vars: map<string, Value>): Store
    reads Containers(vars)
  {
    map c | c in Containers(vars) :: c.contents
  }

  // A name is bound now as it was, or is bound neither now nor before.
  predicate SameBinding(k: string, now: map<string, Value>, was: map<string, Value>) {
    if k in was then k in now && now[k] == was[k] else k !in now
  }

  ghost predicate WasPutBack(k: string, vars0: map<string, Value>, contents0: Store, saved: Snap) {
    k in vars0 && vars0[k].Held? && vars0[k].c in contents0 && saved.Copy?
    && SameType(contents0[vars0[k].c], saved.contents)
  }

  ghost predicate Holds(k: string, vars: map<string, Value>, saved: Snap)
    reads ContainerAt(vars, k)
  {
    k in vars && Same(vars[k], saved)
  }

  // What one visited name has become.
  ghost predicate Settled(k: string, vars: map<string, Value>, vars0: map<string, Value>, contents0: Store,
                          before: map<string, Snap>)
    reads ContainerAt(vars, k)
  {
    if k !in before then k !in vars
    else if WasPutBack(k, vars0, contents0, before[k]) then SameBinding(k, vars, vars0)
    else Holds(k, vars, before[k]) && ContainerAt(vars, k) !! contents0.Keys
  }

  ghost predicate AsVisited(k: string, vars: map<string, Value>, vars0: map<string, Value>, contents0: Store,
                            before: map<string, Snap>, current: map<string, Snap>, todo: set<string>)
    reads ContainerAt(vars, k)
  {
    if (k in before || k in current) && k !in todo && !Unjudged(k, before, current)
    then Settled(k, vars, vars0, contents0, before)
    else SameBinding(k, vars, vars0)
  }

  ghost predicate Visited(vars: map<string, Value>, vars0: map<string, Value>, contents0: Store,
                          before: map<string, Snap>, current: map<string, Snap>, todo: set<string>)
    reads Containers(vars)
  {
    forall k :: AsVisited(k, vars, vars0, contents0, before, current, todo)
  }

  ghost predicate TypesKept(contents0: Store)
    reads contents0.Keys
  {
    forall c :: c in contents0 ==> SameType(c.contents, contents0[c])
  }

  // Names that share one container, and would each be put back into it, have equal snapshots.
  ghost predicate SharersAgree(vars0: map<string, Value>, contents0: Store,
                               before: map<string, Snap>, current: map<string, Snap>) {
    forall j, k :: Shared(j, k, vars0, contents0, before, current) ==> before[j] == before[k]
  }

  ghost predicate Shared(j: string, k: string, vars0: map<string, Value>, contents0: Store,
                         before: map<string, Snap>, current: map<string, Snap>) {
    && j in before && k in before && !Unjudged(j, before, current) && !Unjudged(k, before, current)
    && WasPutBack(j, vars0, contents0, before[j]) && WasPutBack(k, vars0, contents0, before[k])
    && vars0[j] == vars0[k]
  }

  ghost predicate VisitedHold(vars: map<string, Value>, before: map<string, Snap>, current: map<string, Snap>,
                              todo: set<string>)
    reads Containers(vars)
  {
    forall k :: k in before && k !in todo && !Unjudged(k, before, current) ==> Holds(k, vars, before[k])
  }

  ghost predicate Untouched(contents0: Store)
    reads contents0.Keys
  {
    forall c :: c in contents0 ==> c.contents == contents0[c]
  }

  // A name the snapshot holds.
  method VisitSnapshotted(mod: Module, k: string, before: map<string, Snap>, current: map<string, Snap>,
                          ghost todo: set<string>, ghost vars0: map<string, Value>, ghost contents0: Store)
    requires k in todo && k in before && !Unjudged(k, before, current) && contents0.Keys == Containers(vars0)
    requires Visited(mod.vars, vars0, contents0, before, current, todo) && TypesKept(contents0)
    modifies mod, ContainerAt(mod.vars, k)
    ensures Visited(mod.vars, vars0, contents0, before, current, todo - {k}) && TypesKept(contents0)
    ensures SharersAgree(vars0, contents0, before, current) && old(VisitedHold(mod.vars, before, current, todo)) ==>
              VisitedHold(mod.vars, before, current, todo - {k})
    ensures old(Holds(k, mod.vars, before[k])) && old(Untouched(contents0)) ==>
              mod.vars == old(mod.vars) && Untouched(contents0)
  {
    assert AsVisited(k, mod.vars, vars0, contents0, before, current, todo);
    assert ContainerAt(mod.vars, k) <= contents0.Keys;
    RestoreName(mod, k, before[k]);
    forall j ensures AsVisited(j, mod.vars, vars0, contents0, before, current, todo - {k}) {
      assert old(AsVisited(j, mod.vars, vars0, contents0, before, current, todo));
      assert j != k ==> SameBinding(j, mod.vars, old(mod.vars));
    }
    if SharersAgree(vars0, contents0, before, current) && old(VisitedHold(mod.vars, before, current, todo)) {
      forall j | j in before && j !in todo && !Unjudged(j, before, current) ensures Holds(j, mod.vars, before[j]) {
        assert SameBinding(j, mod.vars, old(mod.vars)) && old(Holds(j, mod.vars, before[j]));
        assert old(AsVisited(j, mod.vars, vars0, contents0, before, current, todo));
        assert Shared(j, k, vars0, contents0, before, current) ==> before[j] == before[k];
      }
    }
  }

  // One name of the union of the two snapshots.
  method VisitName(mod: Module, k: string, before: map<string, Snap>, current: map<string, Snap>,
                   ghost todo: set<string>, ghost vars0: map<string, Value>, ghost contents0: Store)
    requires k in todo && (k in before || k in current) && contents0.Keys == Containers(vars0)
    requires Visited(mod.vars, vars0, contents0, before, current, todo) && TypesKept(contents0)
    modifies mod, ContainerAt(mod.vars, k)
    ensures Visited(mod.vars, vars0, contents0, before, current, todo - {k}) && TypesKept(contents0)
    ensures SharersAgree(vars0, contents0, before, current) && old(VisitedHold(mod.vars, before, current, todo)) ==>
              VisitedHold(mod.vars, before, current, todo - {k})
    ensures (Unjudged(k, before, current) || (k in before && old(Holds(k, mod.vars, before[k]))))
            && old(Untouched(contents0)) ==>
              mod.vars == old(mod.vars) && Untouched(contents0)
  {
    if k in before && !before[k].Opaque? && !(k in current && current[k].Opaque?) {
      VisitSnapshotted(mod, k, before, current, todo, vars0, contents0);
      return;
    }
    if !Unjudged(k, before, current) {
      mod.vars := mod.vars - {k};
    }
    forall j ensures AsVisited(j, mod.vars, vars0, contents0, before, current, todo - {k}) {
      assert old(AsVisited(j, mod.vars, vars0, contents0, before, current, todo));
    }
  }

  ghost predicate IsSnapshot(snap: map<string, Snap>, vars0: map<string, Value>, contents0: Store) {
    && contents0.Keys == Containers(vars0)
    && (forall k :: k in snap <==> k in vars0 && Eligible(k, vars0[k]))
    && forall k :: k in snap ==>
         match vars0[k]
         case Plain(s) => snap[k] == PlainCopy(s)
         case Held(c) => c in contents0 && snap[k] == Copy(contents0[c])
         case Uncopyable(_) => snap[k] == Opaque
         case Code(_) => false
  }

  lemma {:induction false} AllHeldIsPure(vars: map<string, Value>, vars0: map<string, Value>, contents0: Store,
                                         before: map<string, Snap>, current: map<string, Snap>)
    requires IsSnapshot(current, vars0, contents0) && Visited(vars, vars0, contents0, before, current, {})
    requires VisitedHold(vars, before, current, {}) && forall k :: k in before ==> !NodeIds.HasPrefix(k, "__")
    ensures AllSame(before, SnapshotOf(vars))
  {
    var now := SnapshotOf(vars);
    forall k | k in before.Keys + now.Keys ensures Unjudged(k, before, now) || SameGlobal(k, before, now) {
      assert AsVisited(k, vars, vars0, contents0, before, current, {});
    }
  }

  lemma {:induction false} PureMeansSharersAgree(vars: map<string, Value>, vars0: map<string, Value>, contents0: Store,
                                                 before: map<string, Snap>, current: map<string, Snap>)
    requires IsSnapshot(current, vars0, contents0) && Visited(vars, vars0, contents0, before, current, {})
    requires AllSame(before, SnapshotOf(vars)) && forall k :: k in before ==> !NodeIds.HasPrefix(k, "__")
    ensures SharersAgree(vars0, contents0, before, current)
  {
    forall j, k | Shared(j, k, vars0, contents0, before, current) ensures before[j] == before[k] {
      assert AsVisited(j, vars, vars0, contents0, before, current, {});
      assert AsVisited(k, vars, vars0, contents0, before, current, {});
      var now := SnapshotOf(vars);
      assert vars[j] == vars[k] && now[j] == now[k] == Copy(vars[j].c.contents);
      assert j in before.Keys + now.Keys && k in before.Keys + now.Keys;
    }
  }

  // The globals' half of `_restore_shared`: `before` and what is there now, name by name in any order.
  method RestoreGlobals(mod: Module, before: map<string, Snap>)
    requires forall k :: k in before ==> !NodeIds.HasPrefix(k, "__")  // `before` is a snapshot
    modifies mod, Containers(mod.vars)
    ensures Visited(mod.vars, old(mod.vars), old(ContentsOf(mod.vars)), before, old(SnapshotOf(mod.vars)), {})
    ensures AllSame(before, SnapshotOf(mod.vars)) <==>
            SharersAgree(old(mod.vars), old(ContentsOf(mod.vars)), before, old(SnapshotOf(mod.vars)))
    ensures SharersAgree(old(mod.vars), old(ContentsOf(mod.vars)), before, old(SnapshotOf(mod.vars))) ==>
            VisitedHold(mod.vars, before, old(SnapshotOf(mod.vars)), {})
    ensures old(AllSame(before, SnapshotOf(mod.vars))) ==>
              mod.vars == old(mod.vars) && Untouched(old(ContentsOf(mod.vars)))
  {
    ghost var vars0, contents0 := mod.vars, ContentsOf(mod.vars);
    var current := Snapshot(mod);
    assert IsSnapshot(current, vars0, contents0);
    RestoreNames(mod, before, current, vars0, contents0);
    if SharersAgree(vars0, contents0, before, current) {
      AllHeldIsPure(mod.vars, vars0, contents0, before, current);
    }
    if AllSame(before, SnapshotOf(mod.vars)) {
      PureMeansSharersAgree(mod.vars, vars0, contents0, before, current);
    }
    assert contents0 == old(ContentsOf(mod.vars)) && current == old(SnapshotOf(mod.vars));
  }

  // Puts back what a test did to the globals and the environment.
  method RestoreShared(mod: Module, env: Environ, before: map<string, Snap>, envBefore: map<string, string>)
    requires forall k :: k in before ==> !NodeIds.HasPrefix(k, "__")  // `before` is a snapshot
    modifies mod, env, Containers(mod.vars)
    ensures env.vars == envBefore
    // every name, snapshotted or not, is as `AsVisited` says: a container of unchanged type is the same
    // object; any other snapshotted global holds its snapshot; what was added is gone; the rest stays
    ensures Visited(mod.vars, old(mod.vars), old(ContentsOf(mod.vars)), before, old(SnapshotOf(mod.vars)), {})
    // the verdict after the restore is pure exactly when names sharing a container had equal snapshots
    ensures Pure(mod.vars, env.vars, before, envBefore) <==>
            SharersAgree(old(mod.vars), old(ContentsOf(mod.vars)), before, old(SnapshotOf(mod.vars)))
    // then every snapshotted global holds its snapshot
    ensures SharersAgree(old(mod.vars), old(ContentsOf(mod.vars)), before, old(SnapshotOf(mod.vars))) ==>
            VisitedHold(mod.vars, before, old(SnapshotOf(mod.vars)), {})
    // a test the verdict calls pure leaves nothing to change, neither binding nor contents
    ensures old(Pure(mod.vars, env.vars, before, envBefore)) ==>
            mod.vars == old(mod.vars) && env.vars == old(env.vars) && Untouched(old(ContentsOf(mod.vars)))
  {
    RestoreGlobals(mod, before);
    label Restored:
    RestoreEnviron(env, envBefore);
    assert mod.vars == old@Restored(mod.vars);
    assert Containers(mod.vars) == old@Restored(Containers(mod.vars));
    assert SnapshotOf(mod.vars) == old@Restored(SnapshotOf(mod.vars));
    assert Visited(mod.vars, old(mod.vars), old(ContentsOf(mod.vars)), before, old(SnapshotOf(mod.vars)), {});
  }

  method RestoreEnviron(env: Environ, envBefore: map<string, string>)
    modifies env
    ensures env.vars == envBefore
  {
    if env.vars != envBefore {
      env.vars := map[];
      env.vars := env.vars + envBefore;
    }
  }

  method RestoreNames(mod: Module, before: map<string, Snap>, current: map<string, Snap>,
                      ghost vars0: map<string, Value>, ghost contents0: Store)
    requires vars0 == mod.vars && contents0 == ContentsOf(vars0) && IsSnapshot(current, vars0, contents0)
    modifies mod, Containers(mod.vars)
    ensures Visited(mod.vars, vars0, contents0, before, current, {})
    ensures SharersAgree(vars0, contents0, before, current) ==> VisitedHold(mod.vars, before, current, {})
    ensures AllSame(before, current) ==> mod.vars == vars0 && Untouched(contents0)
  {
    var todo := before.Keys + current.Keys;
    while todo != {}
      invariant todo <= before.Keys + current.Keys
      invariant Visited(mod.vars, vars0, contents0, before, current, todo) && TypesKept(contents0)
      invariant SharersAgree(vars0, contents0, before, current) ==> VisitedHold(mod.vars, before, current, todo)
      invariant AllSame(before, current) ==> mod.vars == vars0 && Untouched(contents0)
      decreases todo
    {
      var k :| k in todo;
      assert AsVisited(k, mod.vars, vars0, contents0, before, current, todo);
      assert ContainerAt(mod.vars, k) <= Containers(vars0);
      VisitName(mod, k, before, current, todo, vars0, contents0);
      todo := todo - {k};
    }
  }

  // Two globals that the test made share one container cannot both be put back.
  lemma {:induction false} AliasedGlobalsCannotBothBeRestored(c: Container)
    ensures var vars := map["a" := Held(c), "b" := Held(c)];
            var before := map["a" := Copy(ListOf([1])), "b" := Copy(ListOf([2]))];
            var current := map["a" := Copy(ListOf([1])), "b" := Copy(ListOf([1]))];
            && IsSnapshot(current, vars, map[c := ListOf([1])])
            && !SharersAgree(vars, map[c := ListOf([1])], before, current)
  {
    var vars := map["a" := Held(c), "b" := Held(c)];
    var before := map["a" := Copy(ListOf([1])), "b" := Copy(ListOf([2]))];
    var current := map["a" := Copy(ListOf([1])), "b" := Copy(ListOf([1]))];
    assert vars["a"].c in Containers(vars);
    assert Shared("a", "b", vars, map[c := ListOf([1])], before, current);
    assert "a"[0] != '_' && "b"[0] != '_';
  }
}
