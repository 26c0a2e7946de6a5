/** Nothing that a reachable module declares is lost on its way into the merged program. */
module ImportKeeps {
  import opened Wrappers
  import opened QuodTree
  import opened Wires
  import opened Rewiring
  import opened FirstWins
  import opened Imports
  import opened ImportSafety

  /** The module as declared, or with wires that bind exactly its wirables applied position by position. */
  ghost predicate IsForm(mod: Module, r: Module) {
    if mod.wirables == [] then r == mod
    else exists bs: seq<WireBinding> :: BoundNames(bs) == Elements(mod.wirables) && ModuleReplaced(mod, r, WireMapOf(bs))
  }

  lemma {:induction false} FetchedIsForm(loader: Loader, imp: Import)
    requires Fetched(loader, imp).Ok?
    ensures imp.name in loader.modules && IsForm(loader.modules[imp.name], Fetched(loader, imp).value)
  {
    var mod := loader.modules[imp.name];
    if mod.wirables != [] {
      var wires := WireMapOf(imp.wire);
      WireMapKeys(imp.wire);
      assert Rewired(mod, wires) == Some(Wired(mod, imp).value);
      RewiredKeeps(mod, wires);
      assert wires.Keys == Elements(mod.wirables);
    }
  }

  ghost predicate AreForms(loader: Loader, order: seq<string>, loads: seq<Module>) {
    && |order| == |loads|
    && forall k :: 0 <= k < |order| ==> order[k] in loader.modules && IsForm(loader.modules[order[k]], loads[k])
  }

  lemma {:induction false} FormsStep(loader: Loader, order: seq<string>, loads: seq<Module>, imp: Import)
    requires AreForms(loader, order, loads) && Fetched(loader, imp).Ok?
    ensures AreForms(loader, order + [imp.name], loads + [Fetched(loader, imp).value])
  {
    FetchedIsForm(loader, imp);
  }

  /** Throughout the worklist, each loaded module is a form of the declared one. */
  lemma {:induction false} WorkKeepsForms(loader: Loader, queue: seq<Import>, p: Progress)
    requires AreForms(loader, p.order, p.loads)
    ensures var r := Work(loader, queue, p); r.Ok? ==> AreForms(loader, r.value.order, r.value.loads)
    decreases |loader.modules.Keys - Elements(p.order)|, |queue|
  {
    if queue != [] {
      var name := queue[0].name;
      if name in Elements(p.order) {
        WorkKeepsForms(loader, queue[1..], p);
      } else {
        var loaded := Fetched(loader, queue[0]);
        if loaded.Ok? {
          FormsStep(loader, p.order, p.loads, queue[0]);
          LoadShrinks(loader.modules.Keys, p.order, name);
          var next := Advance(p, name, loaded.value);
          WorkKeepsForms(loader, queue[1..] + Unvisited(loaded.value.imports, Elements(next.order)), next);
        }
      }
    }
  }

  /** Every name that the module declares is in the merged program. */
  ghost predicate Arrives(mod: Module, defs: Defs) {
    && (forall x :: x in mod.constants ==> exists y :: y in defs.constants && y.name == x.name)
    && (forall x :: x in mod.structs ==> exists y :: y in defs.structs && y.name == x.name)
    && (forall x :: x in mod.enums ==> exists y :: y in defs.enums && y.name == x.name)
    && (forall x :: x in mod.externs ==> exists y :: y in defs.externs && y.name == x.name)
    && (forall x :: x in mod.functions ==> exists y :: y in defs.functions && y.name == x.name)
    && (forall x :: x in mod.traits ==> exists y :: y in defs.traits && y.name == x.name)
  }

  /** The impl is there for the type that its own becomes. */
  ghost predicate ImplArrives(mod: Module, d: ImplDef, defs: Defs) {
    exists e :: e in defs.impls && e.trt == d.trt && TypeArrives(mod, d, e.forType)
  }

  ghost predicate TypeArrives(mod: Module, d: ImplDef, t: Type) {
    if mod.wirables == [] then t == d.forType
    else exists bs: seq<WireBinding> ::
           BoundNames(bs) == Elements(mod.wirables) && Replaced(d.forType, t, WireMapOf(bs), Own(d.typeParams))
  }

  lemma {:induction false} SameKeys<T, K>(xs: seq<T>, ys: seq<T>, key: T -> K)
    requires |xs| == |ys| && forall i :: 0 <= i < |xs| ==> key(xs[i]) == key(ys[i])
    ensures Keys(xs, key) == Keys(ys, key)
  {
    forall k ensures k in Keys(xs, key) <==> k in Keys(ys, key) {
      if k in Keys(xs, key) {
        var i :| 0 <= i < |xs| && key(xs[i]) == k;
        assert ys[i] in ys;
      }
      if k in Keys(ys, key) {
        var i :| 0 <= i < |ys| && key(ys[i]) == k;
        assert xs[i] in xs;
      }
    }
  }

  /** Rewriting keeps every name. */
  lemma {:induction false} FormKeepsKeys(mod: Module, r: Module)
    requires IsForm(mod, r)
    ensures Keys(r.constants, ConstantKey) == Keys(mod.constants, ConstantKey)
    ensures Keys(r.structs, StructKey) == Keys(mod.structs, StructKey)
    ensures Keys(r.enums, EnumKey) == Keys(mod.enums, EnumKey)
    ensures Keys(r.externs, ExternKey) == Keys(mod.externs, ExternKey)
    ensures Keys(r.functions, FunctionKey) == Keys(mod.functions, FunctionKey)
    ensures Keys(r.traits, TraitKey) == Keys(mod.traits, TraitKey)
  {
    if mod.wirables != [] {
      var bs: seq<WireBinding> :| ModuleReplaced(mod, r, WireMapOf(bs));
      SameKeys(mod.structs, r.structs, StructKey);
      SameKeys(mod.enums, r.enums, EnumKey);
      SameKeys(mod.externs, r.externs, ExternKey);
      SameKeys(mod.functions, r.functions, FunctionKey);
    }
  }

  lemma {:induction false} KeysArrive<T, K>(xs: seq<T>, ys: seq<T>, key: T -> K)
    requires Keys(xs, key) <= Keys(ys, key)
    ensures forall x :: x in xs ==> exists y :: y in ys && key(y) == key(x)
  {
    forall x | x in xs ensures exists y :: y in ys && key(y) == key(x) {
      assert key(x) in Keys(xs, key);
    }
  }

  lemma {:induction false} ImplIsForm(mod: Module, r: Module, i: nat)
    requires IsForm(mod, r) && i < |mod.impls|
    ensures |r.impls| == |mod.impls| && r.impls[i].trt == mod.impls[i].trt && TypeArrives(mod, mod.impls[i], r.impls[i].forType)
  {
    if mod.wirables != [] {
      var bs: seq<WireBinding> :| BoundNames(bs) == Elements(mod.wirables) && ModuleReplaced(mod, r, WireMapOf(bs));
      assert ImplReplaced(mod.impls[i], r.impls[i], WireMapOf(bs));
    }
  }

  /** The item is declared as it is by a reachable module. */
  ghost predicate DeclaredReachably<T>(x: T, loader: Loader, roots: set<string>, get: Module -> seq<T>) {
    exists name :: name in loader.modules && Reachable(loader.modules, roots, name) && x in get(loader.modules[name])
  }

  lemma {:induction false} ResultForms(loader: Loader, user: Defs, imports: seq<Import>)
    requires Resolved(loader, user, imports).Ok?
    ensures var p := Resolved(loader, user, imports).value; AreForms(loader, p.order, p.loads)
  {
    WorkKeepsForms(loader, imports, Progress([], [], user));
  }

  /** Every constant, struct, enum, extern, function and trait that a reachable module declares arrives under its name. */
  lemma {:induction false} DefinitionsArrive(loader: Loader, user: Defs, imports: seq<Import>, x: string)
    requires Resolved(loader, user, imports).Ok? && Reachable(loader.modules, Imports.Names(imports), x)
    ensures x in loader.modules && Arrives(loader.modules[x], Resolved(loader, user, imports).value.defs)
  {
    var p := Resolved(loader, user, imports).value;
    var k := LoadedAt(loader, user, imports, x);
    var mod := loader.modules[x];
    FormKeepsKeys(mod, p.loads[k]);
    ResultIsFirstWins(loader, user, imports);
    KeysArrive(mod.constants, p.defs.constants, ConstantKey);
    KeysArrive(mod.structs, p.defs.structs, StructKey);
    KeysArrive(mod.enums, p.defs.enums, EnumKey);
    KeysArrive(mod.externs, p.defs.externs, ExternKey);
    KeysArrive(mod.functions, p.defs.functions, FunctionKey);
    KeysArrive(mod.traits, p.defs.traits, TraitKey);
  }

  lemma {:induction false} LoadedAt(loader: Loader, user: Defs, imports: seq<Import>, x: string) returns (k: nat)
    requires Resolved(loader, user, imports).Ok? && Reachable(loader.modules, Imports.Names(imports), x)
    ensures var p := Resolved(loader, user, imports).value;
            k < |p.order| == |p.loads| && p.order[k] == x && x in loader.modules && IsForm(loader.modules[x], p.loads[k])
  {
    var p := Resolved(loader, user, imports).value;
    ResultForms(loader, user, imports);
    LoadsTheReachable(loader, user, imports);
    k :| 0 <= k < |p.order| && p.order[k] == x;
  }

  /** So does every impl, for the type that its own becomes under wires that bind exactly the module's wirables. */
  lemma {:induction false} ImplsArrive(loader: Loader, user: Defs, imports: seq<Import>, x: string, i: nat)
    requires Resolved(loader, user, imports).Ok? && Reachable(loader.modules, Imports.Names(imports), x)
    requires x in loader.modules && i < |loader.modules[x].impls|
    ensures ImplArrives(loader.modules[x], loader.modules[x].impls[i], Resolved(loader, user, imports).value.defs)
  {
    var p := Resolved(loader, user, imports).value;
    var k := LoadedAt(loader, user, imports, x);
    ImplIsForm(loader.modules[x], p.loads[k], i);
    ResultIsFirstWins(loader, user, imports);
    var d := p.loads[k].impls[i];
    assert ImplKey(d) in Keys(p.loads[k].impls, ImplKey);
    var e :| e in p.defs.impls && ImplKey(e) == ImplKey(d);
    assert e.trt == d.trt && e.forType == d.forType;
  }

  /** The constants and traits of the result that are not the user's are those of reachable modules, unchanged. */
  lemma {:induction false} ConstantsAreDeclared(loader: Loader, user: Defs, imports: seq<Import>)
    requires Resolved(loader, user, imports).Ok?
    ensures var defs := Resolved(loader, user, imports).value.defs;
            && (forall i :: |user.constants| <= i < |defs.constants| ==>
                  DeclaredReachably(defs.constants[i], loader, Imports.Names(imports), Constants))
            && (forall i :: |user.traits| <= i < |defs.traits| ==>
                  DeclaredReachably(defs.traits[i], loader, Imports.Names(imports), Traits))
  {
    var p := Resolved(loader, user, imports).value;
    ResultForms(loader, user, imports);
    LoadsTheReachable(loader, user, imports);
    StartKeeps(loader, user, imports);
    forall i | |user.constants| <= i < |p.defs.constants|
      ensures DeclaredReachably(p.defs.constants[i], loader, Imports.Names(imports), Constants) {
      var k := FirstDeclarer(user.constants, p.loads, Constants, ConstantKey, i);
      LoadedConstants(loader, p, k);
      assert p.order[k] in p.order;
    }
    forall i | |user.traits| <= i < |p.defs.traits|
      ensures DeclaredReachably(p.defs.traits[i], loader, Imports.Names(imports), Traits) {
      var k := FirstDeclarer(user.traits, p.loads, Traits, TraitKey, i);
      LoadedConstants(loader, p, k);
      assert p.order[k] in p.order;
    }
  }

  lemma {:induction false} LoadedConstants(loader: Loader, p: Progress, k: nat)
    requires AreForms(loader, p.order, p.loads) && k < |p.order|
    ensures p.loads[k].constants == loader.modules[p.order[k]].constants
    ensures p.loads[k].traits == loader.modules[p.order[k]].traits
  {
    assert IsForm(loader.modules[p.order[k]], p.loads[k]);
  }

  // ---------- Tiers and errors ----------

  /** The dotted name lies in the package, or is it. */
  predicate LiesIn(name: string, package: string) {
    name == package || StartsWith(name, package + ".")
  }

  lemma {:induction false} HeadExactly(name: string, package: string)
    requires package != "" && '.' !in package
    ensures Head(name) == package <==> LiesIn(name, package)
  {
    if name != "" && name[0] != '.' {
      var rest := name[1..];
      assert name == [name[0]] + rest;
      if |package| == 1 {
        HeadIsEmpty(rest);
        SameStart(name, package);
      } else {
        assert package == [package[0]] + package[1..];
        HeadExactly(rest, package[1..]);
        SameStart(name, package);
      }
    } else {
      assert !LiesIn(name, package) by {
        assert (package + ".")[0] == package[0];
      }
    }
  }

  lemma {:induction false} HeadIsEmpty(name: string)
    ensures Head(name) == "" <==> name == "" || name[0] == '.'
  {}

  lemma {:induction false} SameStart(name: string, package: string)
    requires name != "" && package != ""
    ensures LiesIn(name, package) <==>
            (name[0] == package[0] && if |package| == 1 then |name| == 1 || name[1] == '.' else LiesIn(name[1..], package[1..]))
  {
    var dotted := package + ".";
    if |package| == 1 {
      if |name| > 1 {
        assert name[..2] == [name[0], name[1]] && dotted == [package[0], '.'];
      }
      assert |name| == 1 ==> name == [name[0]] && package == [package[0]];
    } else {
      var rest := package[1..] + ".";
      assert dotted == [package[0]] + rest;
      assert name == [name[0]] + name[1..] && package == [package[0]] + package[1..];
      if |name| >= |dotted| {
        assert name[..|dotted|] == [name[0]] + name[1..][..|rest|];
      }
    }
  }

  /** `alloc` and `std` are tiers of their own; everything else is `core`. */
  lemma {:induction false} TierExactly(name: string)
    ensures Tier(name) == "alloc" <==> LiesIn(name, "alloc")
    ensures Tier(name) == "std" <==> LiesIn(name, "std")
    ensures Tier(name) == "core" <==> !LiesIn(name, "alloc") && !LiesIn(name, "std")
  {
    HeadExactly(name, "alloc");
    HeadExactly(name, "std");
  }

  predicate Binds(bs: seq<WireBinding>, name: string) {
    exists i :: 0 <= i < |bs| && bs[i].name == name
  }

  /** What stands in the way of an import, in the order in which it is looked for. */
  ghost predicate Obstacle(loader: Loader, imp: Import, e: ImportError) {
    match e
    case DisabledTier(name, tier) => name == imp.name && tier == Tier(imp.name) && tier in loader.disabled
    case UnknownModule(name) => name == imp.name && Tier(imp.name) !in loader.disabled && imp.name !in loader.modules
    case UnexpectedWires(name) => name == imp.name && CanLoad(loader, imp) && WirablesOf(loader, imp) == [] && imp.wire != []
    case UnresolvedWire(name, wire, param) =>
      && name == imp.name && CanLoad(loader, imp) && WirablesOf(loader, imp) != []
      && exists i :: 0 <= i < |imp.wire| && imp.wire[i] == WireBinding(wire, TypeParamRef(param))
                     && forall j :: 0 <= j < i ==> !imp.wire[j].ty.TypeParamRef?
    case MissingWires(name, names) =>
      && name == imp.name && CanLoad(loader, imp) && NoBareWire(imp)
      && names != {} && forall w :: w in names <==> w in WirablesOf(loader, imp) && !Binds(imp.wire, w)
    case UnknownWires(name, names) =>
      && name == imp.name && CanLoad(loader, imp) && NoBareWire(imp) && WirablesOf(loader, imp) != []
      && (forall w :: w in WirablesOf(loader, imp) ==> Binds(imp.wire, w))
      && names != {} && forall w :: w in names <==> Binds(imp.wire, w) && w !in WirablesOf(loader, imp)
    case UnhandledNode(name) =>
      && name == imp.name && CanLoad(loader, imp) && NoBareWire(imp) && WirablesOf(loader, imp) != []
      && (forall w :: w in WirablesOf(loader, imp) <==> Binds(imp.wire, w))
      && !Rewritable(loader.modules[imp.name])
  }

  predicate CanLoad(loader: Loader, imp: Import) {
    Tier(imp.name) !in loader.disabled && imp.name in loader.modules
  }

  function WirablesOf(loader: Loader, imp: Import): seq<string> {
    if imp.name in loader.modules then loader.modules[imp.name].wirables else []
  }

  predicate NoBareWire(imp: Import) {
    forall i :: 0 <= i < |imp.wire| ==> !imp.wire[i].ty.TypeParamRef?
  }

  lemma {:induction false} UnresolvedIsFirst(bs: seq<WireBinding>, from: nat)
    requires from <= |bs| && FirstUnresolved(bs, from).Some?
    ensures exists i :: from <= i < |bs| && bs[i] == FirstUnresolved(bs, from).value && bs[i].ty.TypeParamRef?
                        && forall j :: from <= j < i ==> !bs[j].ty.TypeParamRef?
    decreases |bs| - from
  {
    if !bs[from].ty.TypeParamRef? {
      UnresolvedIsFirst(bs, from + 1);
    }
  }

  lemma {:induction false} BoundNamesExactly(bs: seq<WireBinding>, w: string)
    ensures w in WireMapOf(bs) <==> Binds(bs, w)
  {
    WireMapKeys(bs);
    if w in BoundNames(bs) {
      var b :| b in bs && b.name == w;
      var i :| 0 <= i < |bs| && bs[i] == b;
    }
  }

  /** An import fails exactly for such an obstacle, and each obstacle with its own error. */
  lemma {:induction false} FetchFailsExactly(loader: Loader, imp: Import, e: ImportError)
    ensures Fetched(loader, imp) == Err(e) <==> Obstacle(loader, imp, e)
  {
    if CanLoad(loader, imp) && WirablesOf(loader, imp) != [] {
      WiredFailsExactly(loader, imp, e);
    }
  }

  /** The two differences between what is bound and what is to be bound. */
  lemma {:induction false} DifferencesExactly(mod: Module, imp: Import, some: set<string>)
    ensures var missing, unknown := Elements(mod.wirables) - WireMapOf(imp.wire).Keys, WireMapOf(imp.wire).Keys - Elements(mod.wirables);
            && (some == missing <==> forall w :: w in some <==> w in mod.wirables && !Binds(imp.wire, w))
            && (some == unknown <==> forall w :: w in some <==> Binds(imp.wire, w) && w !in mod.wirables)
            && (missing == {} <==> forall w :: w in mod.wirables ==> Binds(imp.wire, w))
            && (missing == {} && unknown == {} <==> forall w :: w in mod.wirables <==> Binds(imp.wire, w))
  {
    forall w ensures w in WireMapOf(imp.wire) <==> Binds(imp.wire, w) {
      BoundNamesExactly(imp.wire, w);
    }
    var missing, unknown := Elements(mod.wirables) - WireMapOf(imp.wire).Keys, WireMapOf(imp.wire).Keys - Elements(mod.wirables);
    assert forall w :: w in missing <==> w in mod.wirables && !Binds(imp.wire, w);
    assert forall w :: w in unknown <==> Binds(imp.wire, w) && w !in mod.wirables;
  }

  lemma {:induction false} WiredFailsExactly(loader: Loader, imp: Import, e: ImportError)
    requires CanLoad(loader, imp) && WirablesOf(loader, imp) != []
    ensures Wired(loader.modules[imp.name], imp) == Err(e) <==> Obstacle(loader, imp, e)
  {
    if FirstUnresolved(imp.wire, 0).Some? {
      UnresolvedIsFirst(imp.wire, 0);
    } else {
      assert NoBareWire(imp);
      RewiredExactly(loader.modules[imp.name], WireMapOf(imp.wire));
      DifferencesExactly(loader.modules[imp.name], imp, if e.MissingWires? || e.UnknownWires? then e.names else {});
    }
  }
}
