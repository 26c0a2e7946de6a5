/**
 * What holds throughout the import worklist and of its result: the loaded modules are
 * the reachable ones, the merge is first-wins, and every wire is closed when it is applied.
 */
module ImportSafety {
  import opened Wrappers
  import opened QuodTree
  import opened Wires
  import opened Imports
  import opened FirstWins
  import opened Substitution

  // ---------- Reachability ----------

  /** `name` is `n` imports away from the program. */
  ghost predicate Reaches(modules: map<string, Module>, roots: set<string>, name: string, n: nat)
    decreases n
  {
    if n == 0 then name in roots
    else exists via :: via in modules && Reaches(modules, roots, via, n - 1) && name in Names(modules[via].imports)
  }

  ghost predicate Reachable(modules: map<string, Module>, roots: set<string>, name: string) {
    exists n: nat :: Reaches(modules, roots, name, n)
  }

  lemma {:induction false} ImportIsReachable(modules: map<string, Module>, roots: set<string>, via: string, name: string)
    requires via in modules && Reachable(modules, roots, via) && name in Names(modules[via].imports)
    ensures Reachable(modules, roots, name)
  {
    var n: nat :| Reaches(modules, roots, via, n);
    assert Reaches(modules, roots, name, n + 1);
  }

  // ---------- What every turn of the worklist keeps ----------

  predicate LoadedFrom(loader: Loader, name: string, mod: Module) {
    && name in loader.modules
    && Tier(name) !in loader.disabled
    && Names(mod.imports) == Names(loader.modules[name].imports)
  }

  predicate LoadsAre(loader: Loader, order: seq<string>, loads: seq<Module>) {
    && |order| == |loads|
    && (forall i, j :: 0 <= i < j < |order| ==> order[i] != order[j])
    && (forall k :: 0 <= k < |order| ==> LoadedFrom(loader, order[k], loads[k]))
  }

  /** What is imported by the program or a loaded module is loaded or queued ... */
  predicate Covered(loader: Loader, roots: set<string>, queue: seq<Import>, order: seq<string>) {
    && roots <= Elements(order) + Names(queue)
    && (forall x :: x in order ==> x in loader.modules && Names(loader.modules[x].imports) <= Elements(order) + Names(queue))
  }

  /** ... and nothing else is. */
  ghost predicate OnlyReachable(loader: Loader, roots: set<string>, queue: seq<Import>, order: seq<string>) {
    forall x :: x in Elements(order) + Names(queue) ==> Reachable(loader.modules, roots, x)
  }

  function Constants(m: Module): seq<StringConstant> { m.constants }
  function Structs(m: Module): seq<StructDef> { m.structs }
  function Enums(m: Module): seq<EnumDef> { m.enums }
  function Externs(m: Module): seq<ExternFunction> { m.externs }
  function Functions(m: Module): seq<Function> { m.functions }
  function Traits(m: Module): seq<TraitDef> { m.traits }
  function Impls(m: Module): seq<ImplDef> { m.impls }

  function Merged(user: Defs, loads: seq<Module>): Defs {
    Defs(AddNew(user.constants, Flat(loads, Constants), ConstantKey), AddNew(user.structs, Flat(loads, Structs), StructKey),
         AddNew(user.enums, Flat(loads, Enums), EnumKey), AddNew(user.externs, Flat(loads, Externs), ExternKey),
         AddNew(user.functions, Flat(loads, Functions), FunctionKey), AddNew(user.traits, Flat(loads, Traits), TraitKey),
         AddNew(user.impls, Flat(loads, Impls), ImplKey))
  }

  lemma {:induction false} MergedStep(user: Defs, loads: seq<Module>, mod: Module)
    ensures AddModule(Merged(user, loads), mod) == Merged(user, loads + [mod])
  {
    assert (loads + [mod])[..|loads|] == loads;
    AddNewTwice(user.constants, Flat(loads, Constants), mod.constants, ConstantKey);
    AddNewTwice(user.structs, Flat(loads, Structs), mod.structs, StructKey);
    AddNewTwice(user.enums, Flat(loads, Enums), mod.enums, EnumKey);
    AddNewTwice(user.externs, Flat(loads, Externs), mod.externs, ExternKey);
    AddNewTwice(user.functions, Flat(loads, Functions), mod.functions, FunctionKey);
    AddNewTwice(user.traits, Flat(loads, Traits), mod.traits, TraitKey);
    AddNewTwice(user.impls, Flat(loads, Impls), mod.impls, ImplKey);
  }

  lemma {:induction false} WiringKeepsImportNames(mod: Module, imp: Import)
    requires Wired(mod, imp).Ok?
    ensures Names(Wired(mod, imp).value.imports) == Names(mod.imports)
  {
    var wires := WireMapOf(imp.wire);
    var r := Each(mod.imports, OnImport(wires));
    assert forall i :: 0 <= i < |r| ==> r[i].name == mod.imports[i].name;
    forall x ensures x in Names(r) <==> x in Names(mod.imports) {
      if x in Names(r) {
        var i :| 0 <= i < |r| && r[i].name == x;
        assert mod.imports[i] in mod.imports;
      }
      if x in Names(mod.imports) {
        var i :| 0 <= i < |r| && mod.imports[i].name == x;
        assert r[i] in r;
      }
    }
  }

  lemma {:induction false} LoadIsFrom(loader: Loader, imp: Import)
    requires Fetched(loader, imp).Ok?
    ensures LoadedFrom(loader, imp.name, Fetched(loader, imp).value)
  {
    var mod := loader.modules[imp.name];
    if mod.wirables != [] {
      WiringKeepsImportNames(mod, imp);
    }
  }

  lemma {:induction false} StepCovers(loader: Loader, roots: set<string>, queue: seq<Import>, order: seq<string>, mod: Module)
    requires queue != [] && Covered(loader, roots, queue, order) && LoadedFrom(loader, queue[0].name, mod)
    ensures var next := order + [queue[0].name];
            Covered(loader, roots, queue[1..] + Unvisited(mod.imports, Elements(next)), next)
  {
    var next := order + [queue[0].name];
    var added := Unvisited(mod.imports, Elements(next));
    var queue' := queue[1..] + added;
    assert Elements(next) == Elements(order) + {queue[0].name};
    assert forall i :: i in queue ==> i == queue[0] || i in queue[1..];
    assert Names(queue) <= {queue[0].name} + Names(queue[1..]);
    assert Names(queue[1..]) <= Names(queue') && Names(added) <= Names(queue') by {
      assert forall i :: i in queue[1..] ==> i in queue';
      assert forall i :: i in added ==> i in queue';
    }
    assert Names(mod.imports) <= Elements(next) + Names(added);
  }

  lemma {:induction false} SkipCovers(loader: Loader, roots: set<string>, queue: seq<Import>, order: seq<string>)
    requires queue != [] && queue[0].name in order && Covered(loader, roots, queue, order)
    ensures Covered(loader, roots, queue[1..], order)
  {
    assert forall i :: i in queue ==> i == queue[0] || i in queue[1..];
    assert Names(queue) <= {queue[0].name} + Names(queue[1..]);
  }

  lemma {:induction false} StepStaysReachable(loader: Loader, roots: set<string>, queue: seq<Import>, order: seq<string>, mod: Module)
    requires queue != [] && OnlyReachable(loader, roots, queue, order) && LoadedFrom(loader, queue[0].name, mod)
    ensures var next := order + [queue[0].name];
            OnlyReachable(loader, roots, queue[1..] + Unvisited(mod.imports, Elements(next)), next)
  {
    var name := queue[0].name;
    var next := order + [name];
    assert queue[0] in queue && name in Names(queue);
    forall x | x in Elements(next) + Names(queue[1..] + Unvisited(mod.imports, Elements(next)))
      ensures Reachable(loader.modules, roots, x) {
      if x !in Elements(order) + Names(queue) {
        assert x in Names(mod.imports);
        ImportIsReachable(loader.modules, roots, name, x);
      }
    }
  }

  lemma {:induction false} LoadsStep(loader: Loader, order: seq<string>, loads: seq<Module>, name: string, mod: Module)
    requires LoadsAre(loader, order, loads) && LoadedFrom(loader, name, mod) && name !in Elements(order)
    ensures LoadsAre(loader, order + [name], loads + [mod])
  {
    assert forall i :: 0 <= i < |order| ==> order[i] in Elements(order);
  }

  /** From any point of the worklist to its end. */
  lemma {:induction false} WorkLoads(loader: Loader, queue: seq<Import>, p: Progress)
    requires LoadsAre(loader, p.order, p.loads)
    ensures var r := Work(loader, queue, p); r.Ok? ==> LoadsAre(loader, r.value.order, r.value.loads)
    decreases |loader.modules.Keys - Elements(p.order)|, |queue|
  {
    if queue != [] {
      var name := queue[0].name;
      if name in Elements(p.order) {
        WorkLoads(loader, queue[1..], p);
      } else {
        var loaded := Fetched(loader, queue[0]);
        if loaded.Ok? {
          LoadIsFrom(loader, queue[0]);
          LoadsStep(loader, p.order, p.loads, name, loaded.value);
          LoadShrinks(loader.modules.Keys, p.order, name);
          var next := Advance(p, name, loaded.value);
          WorkLoads(loader, queue[1..] + Unvisited(loaded.value.imports, Elements(next.order)), next);
        }
      }
    }
  }

  lemma {:induction false} WorkMerges(loader: Loader, user: Defs, queue: seq<Import>, p: Progress)
    requires p.defs == Merged(user, p.loads)
    ensures var r := Work(loader, queue, p); r.Ok? ==> r.value.defs == Merged(user, r.value.loads)
    decreases |loader.modules.Keys - Elements(p.order)|, |queue|
  {
    if queue != [] {
      var name := queue[0].name;
      if name in Elements(p.order) {
        WorkMerges(loader, user, queue[1..], p);
      } else {
        var loaded := Fetched(loader, queue[0]);
        if loaded.Ok? {
          MergedStep(user, p.loads, loaded.value);
          LoadShrinks(loader.modules.Keys, p.order, name);
          var next := Advance(p, name, loaded.value);
          WorkMerges(loader, user, queue[1..] + Unvisited(loaded.value.imports, Elements(next.order)), next);
        }
      }
    }
  }

  lemma {:induction false} WorkCovers(loader: Loader, roots: set<string>, queue: seq<Import>, p: Progress)
    requires Covered(loader, roots, queue, p.order)
    ensures var r := Work(loader, queue, p); r.Ok? ==> Covered(loader, roots, [], r.value.order)
    decreases |loader.modules.Keys - Elements(p.order)|, |queue|
  {
    if queue != [] {
      var name := queue[0].name;
      if name in Elements(p.order) {
        SkipCovers(loader, roots, queue, p.order);
        WorkCovers(loader, roots, queue[1..], p);
      } else {
        var loaded := Fetched(loader, queue[0]);
        if loaded.Ok? {
          LoadIsFrom(loader, queue[0]);
          StepCovers(loader, roots, queue, p.order, loaded.value);
          LoadShrinks(loader.modules.Keys, p.order, name);
          var next := Advance(p, name, loaded.value);
          WorkCovers(loader, roots, queue[1..] + Unvisited(loaded.value.imports, Elements(next.order)), next);
        }
      }
    }
  }

  lemma {:induction false} WorkStaysReachable(loader: Loader, roots: set<string>, queue: seq<Import>, p: Progress)
    requires OnlyReachable(loader, roots, queue, p.order)
    ensures var r := Work(loader, queue, p); r.Ok? ==> OnlyReachable(loader, roots, [], r.value.order)
    decreases |loader.modules.Keys - Elements(p.order)|, |queue|
  {
    if queue != [] {
      var name := queue[0].name;
      if name in Elements(p.order) {
        assert Names(queue[1..]) <= Names(queue);
        WorkStaysReachable(loader, roots, queue[1..], p);
      } else {
        var loaded := Fetched(loader, queue[0]);
        if loaded.Ok? {
          LoadIsFrom(loader, queue[0]);
          StepStaysReachable(loader, roots, queue, p.order, loaded.value);
          LoadShrinks(loader.modules.Keys, p.order, name);
          var next := Advance(p, name, loaded.value);
          WorkStaysReachable(loader, roots, queue[1..] + Unvisited(loaded.value.imports, Elements(next.order)), next);
        }
      }
    }
  }

  lemma {:induction false} CoveredHasReachable(loader: Loader, roots: set<string>, order: seq<string>, name: string, n: nat)
    requires Covered(loader, roots, [], order) && Reaches(loader.modules, roots, name, n)
    ensures name in Elements(order)
    decreases n
  {
    assert Names([]) == {};
    if n > 0 {
      var via :| via in loader.modules && Reaches(loader.modules, roots, via, n - 1) && name in Names(loader.modules[via].imports);
      CoveredHasReachable(loader, roots, order, via, n - 1);
    }
  }

  /** On success exactly the reachable modules are loaded, each once; all exist and none is in a disabled tier. */
  lemma {:induction false} LoadsTheReachable(loader: Loader, user: Defs, imports: seq<Import>)
    requires Resolved(loader, user, imports).Ok?
    ensures var p := Resolved(loader, user, imports).value;
            && (forall x :: x in p.order <==> Reachable(loader.modules, Names(imports), x))
            && (forall i, j :: 0 <= i < j < |p.order| ==> p.order[i] != p.order[j])
            && (forall x :: x in p.order ==> x in loader.modules && Tier(x) !in loader.disabled)
  {
    StartKeeps(loader, user, imports);
    var p := Resolved(loader, user, imports).value;
    forall x ensures x in p.order <==> Reachable(loader.modules, Names(imports), x) {
      if Reachable(loader.modules, Names(imports), x) {
        var n: nat :| Reaches(loader.modules, Names(imports), x, n);
        CoveredHasReachable(loader, Names(imports), p.order, x, n);
      }
      if x in p.order {
        assert x in Elements(p.order) + Names([]);
      }
    }
  }

  lemma {:induction false} StartKeeps(loader: Loader, user: Defs, imports: seq<Import>)
    ensures var r := Resolved(loader, user, imports);
            r.Ok? ==> && LoadsAre(loader, r.value.order, r.value.loads) && r.value.defs == Merged(user, r.value.loads)
                      && Covered(loader, Names(imports), [], r.value.order)
                      && OnlyReachable(loader, Names(imports), [], r.value.order)
  {
    assert Merged(user, []) == user;
    assert Elements([]) == {};
    forall x | x in Names(imports) ensures Reachable(loader.modules, Names(imports), x) {
      assert Reaches(loader.modules, Names(imports), x, 0);
    }
    WorkLoads(loader, imports, Progress([], [], user));
    WorkMerges(loader, user, imports, Progress([], [], user));
    WorkCovers(loader, Names(imports), imports, Progress([], [], user));
    WorkStaysReachable(loader, Names(imports), imports, Progress([], [], user));
  }

  /** Every collection of the result is merged first-wins from the loaded modules. */
  lemma {:induction false} ResultIsFirstWins(loader: Loader, user: Defs, imports: seq<Import>)
    requires Resolved(loader, user, imports).Ok?
    ensures var p := Resolved(loader, user, imports).value;
            && MergedFirstWins(p.defs.constants, user.constants, p.loads, Constants, ConstantKey)
            && MergedFirstWins(p.defs.structs, user.structs, p.loads, Structs, StructKey)
            && MergedFirstWins(p.defs.enums, user.enums, p.loads, Enums, EnumKey)
            && MergedFirstWins(p.defs.externs, user.externs, p.loads, Externs, ExternKey)
            && MergedFirstWins(p.defs.functions, user.functions, p.loads, Functions, FunctionKey)
            && MergedFirstWins(p.defs.traits, user.traits, p.loads, Traits, TraitKey)
            && MergedFirstWins(p.defs.impls, user.impls, p.loads, Impls, ImplKey)
  {
    StartKeeps(loader, user, imports);
    var loads := Resolved(loader, user, imports).value.loads;
    MergeIsFirstWins(user.constants, loads, Constants, ConstantKey);
    MergeIsFirstWins(user.structs, loads, Structs, StructKey);
    MergeIsFirstWins(user.enums, loads, Enums, EnumKey);
    MergeIsFirstWins(user.externs, loads, Externs, ExternKey);
    MergeIsFirstWins(user.functions, loads, Functions, FunctionKey);
    MergeIsFirstWins(user.traits, loads, Traits, TraitKey);
    MergeIsFirstWins(user.impls, loads, Impls, ImplKey);
  }

  // ---------- Wires ----------

  /** The wires of a module's imports mention only the module's own wirables. */
  predicate ForwardsOwn(mod: Module) {
    forall i :: i in mod.imports ==> FreeInBindings(i.wire) <= Elements(mod.wirables)
  }

  predicate AllForwardOwn(loader: Loader) {
    forall x :: x in loader.modules ==> ForwardsOwn(loader.modules[x])
  }

  predicate AllClosed(queue: seq<Import>) {
    forall i :: i in queue ==> ClosedImport(i)
  }

  /** No merged definition of a loaded module has one of its wirables free where types are rewritten. */
  predicate AllWired(loader: Loader, order: seq<string>, loads: seq<Module>) {
    && |order| == |loads|
    && forall k :: 0 <= k < |order| ==>
         order[k] in loader.modules && FreeOf(loads[k], Elements(loader.modules[order[k]].wirables))
  }

  lemma {:induction false} LoadIsWired(loader: Loader, imp: Import)
    requires AllForwardOwn(loader) && ClosedImport(imp)
    ensures var r := Fetched(loader, imp);
            && (r.Err? ==> !r.error.UnresolvedWire?)
            && (r.Ok? ==> && imp.name in loader.modules
                          && FreeOf(r.value, Elements(loader.modules[imp.name].wirables))
                          && AllClosed(r.value.imports))
  {
    if imp.name in loader.modules {
      var mod := loader.modules[imp.name];
      assert ForwardsOwn(mod);
      if mod.wirables != [] {
        ClosedWiresApply(mod, imp);
      } else {
        assert Elements(mod.wirables) == {};
      }
    }
  }

  predicate WiredSoFar(loader: Loader, queue: seq<Import>, p: Progress) {
    AllForwardOwn(loader) && AllClosed(queue) && AllWired(loader, p.order, p.loads)
  }

  lemma {:induction false} StepIsWired(loader: Loader, queue: seq<Import>, p: Progress, mod: Module)
    requires WiredSoFar(loader, queue, p) && queue != [] && Fetched(loader, queue[0]) == Ok(mod)
    ensures var next := Advance(p, queue[0].name, mod);
            WiredSoFar(loader, queue[1..] + Unvisited(mod.imports, Elements(next.order)), next)
  {
    LoadIsWired(loader, queue[0]);
  }

  lemma {:induction false} WorkIsWired(loader: Loader, queue: seq<Import>, p: Progress)
    requires WiredSoFar(loader, queue, p)
    ensures var r := Work(loader, queue, p);
            && (r.Err? ==> !r.error.UnresolvedWire?)
            && (r.Ok? ==> WiredSoFar(loader, [], r.value))
    decreases |loader.modules.Keys - Elements(p.order)|, |queue|
  {
    if queue != [] {
      var name := queue[0].name;
      if name in Elements(p.order) {
        WorkIsWired(loader, queue[1..], p);
      } else {
        LoadIsWired(loader, queue[0]);
        var loaded := Fetched(loader, queue[0]);
        if loaded.Ok? {
          StepIsWired(loader, queue, p, loaded.value);
          LoadShrinks(loader.modules.Keys, p.order, name);
          var next := Advance(p, name, loaded.value);
          WorkIsWired(loader, queue[1..] + Unvisited(loaded.value.imports, Elements(next.order)), next);
        }
      }
    }
  }

  ghost predicate WiredSomewhere<T>(x: T, loader: Loader, p: Progress, get: Module -> seq<T>, free: T -> set<string>)
    requires AllWired(loader, p.order, p.loads)
  {
    exists k :: 0 <= k < |p.order| && x in get(p.loads[k]) && free(x) !! Elements(loader.modules[p.order[k]].wirables)
  }

  ghost predicate AddedAreWired<T>(merged: seq<T>, user: seq<T>, loader: Loader, p: Progress, get: Module -> seq<T>,
                                   free: T -> set<string>)
    requires AllWired(loader, p.order, p.loads)
  {
    forall i :: |user| <= i < |merged| ==> WiredSomewhere(merged[i], loader, p, get, free)
  }

  lemma {:induction false} AddedComeWired<T, K>(user: seq<T>, loader: Loader, p: Progress, get: Module -> seq<T>, key: T -> K,
                                                free: T -> set<string>)
    requires AllWired(loader, p.order, p.loads)
    requires forall k, x :: 0 <= k < |p.order| && x in get(p.loads[k]) ==>
               free(x) !! Elements(loader.modules[p.order[k]].wirables)
    ensures AddedAreWired(AddNew(user, Flat(p.loads, get), key), user, loader, p, get, free)
  {
    var merged := AddNew(user, Flat(p.loads, get), key);
    forall i | |user| <= i < |merged| ensures WiredSomewhere(merged[i], loader, p, get, free) {
      var k := FirstDeclarer(user, p.loads, get, key, i);
      assert merged[i] in get(p.loads[k]);
    }
  }

  /**
   * With closed wires in the program and modules that forward only their own wirables,
   * the unresolved-wire error never occurs, and every added struct, enum, extern, function
   * and impl comes from a loaded module none of whose wirables is free in it.
   */
  lemma {:induction false} WiresAreClosed(loader: Loader, user: Defs, imports: seq<Import>)
    requires AllForwardOwn(loader) && AllClosed(imports)
    ensures var r := Resolved(loader, user, imports);
            && (r.Err? ==> !r.error.UnresolvedWire?)
            && (r.Ok? ==>
                  var p := r.value;
                  && AllWired(loader, p.order, p.loads)
                  && AddedAreWired(p.defs.structs, user.structs, loader, p, Structs, FreeInStruct)
                  && AddedAreWired(p.defs.enums, user.enums, loader, p, Enums, FreeInEnum)
                  && AddedAreWired(p.defs.externs, user.externs, loader, p, Externs, FreeInExtern)
                  && AddedAreWired(p.defs.functions, user.functions, loader, p, Functions, FreeInFunction)
                  && AddedAreWired(p.defs.impls, user.impls, loader, p, Impls, FreeInImpl))
  {
    WorkIsWired(loader, imports, Progress([], [], user));
    StartKeeps(loader, user, imports);
    if Resolved(loader, user, imports).Ok? {
      var p := Resolved(loader, user, imports).value;
      AddedComeWired(user.structs, loader, p, Structs, StructKey, FreeInStruct);
      AddedComeWired(user.enums, loader, p, Enums, EnumKey, FreeInEnum);
      AddedComeWired(user.externs, loader, p, Externs, ExternKey, FreeInExtern);
      AddedComeWired(user.functions, loader, p, Functions, FunctionKey, FreeInFunction);
      AddedComeWired(user.impls, loader, p, Impls, ImplKey, FreeInImpl);
    }
  }

  // ---------- When resolution succeeds ----------

  /** An import of the program or of a reachable module, as it is written there. */
  ghost predicate Imported(loader: Loader, imports: seq<Import>, i: Import) {
    || i in imports
    || exists x :: x in loader.modules && Reachable(loader.modules, Names(imports), x) && i in loader.modules[x].imports
  }

  function BoundNames(bs: seq<WireBinding>): set<string> {
    set b | b in bs :: b.name
  }

  /** The walker has a case for every node of every body. */
  predicate Rewritable(mod: Module) {
    && (forall i :: 0 <= i < |mod.functions| ==> HandledAll(mod.functions[i].body))
    && (forall i :: 0 <= i < |mod.impls| ==> MethodsHandled(mod.impls[i]))
  }

  predicate MethodsHandled(d: ImplDef) {
    forall i :: 0 <= i < |d.methods| ==> HandledAll(d.methods[i].body)
  }

  /** The module exists in an enabled tier and the import wires exactly its wirables. */
  predicate Fits(loader: Loader, imp: Import) {
    && Tier(imp.name) !in loader.disabled
    && imp.name in loader.modules
    && var mod := loader.modules[imp.name];
       if mod.wirables == [] then imp.wire == [] else BoundNames(imp.wire) == Elements(mod.wirables) && Rewritable(mod)
  }

  lemma {:induction false} WireMapKeys(bs: seq<WireBinding>)
    ensures WireMapOf(bs).Keys == BoundNames(bs)
  {
    if bs != [] {
      WireMapKeys(bs[..|bs| - 1]);
      assert bs == bs[..|bs| - 1] + [bs[|bs| - 1]];
    }
  }

  lemma {:induction false} FunctionsRewrite(fns: seq<Function>, wires: WireMap, banned: set<string>)
    ensures EachOrNone(fns, OnFunction(wires, banned)).Some? <==> forall i :: 0 <= i < |fns| ==> HandledAll(fns[i].body)
  {
    forall i | 0 <= i < |fns| ensures SubFunction(fns[i], wires, banned).Some? <==> HandledAll(fns[i].body) {
      Substitutes(fns[i].body, Wiring(wires, banned + Own(fns[i].typeParams)));
    }
  }

  lemma {:induction false} ImplsRewrite(ds: seq<ImplDef>, wires: WireMap)
    ensures EachOrNone(ds, OnImpl(wires)).Some? <==> forall i :: 0 <= i < |ds| ==> MethodsHandled(ds[i])
  {
    forall i | 0 <= i < |ds| ensures SubImpl(ds[i], wires).Some? <==> MethodsHandled(ds[i]) {
      FunctionsRewrite(ds[i].methods, wires, Own(ds[i].typeParams));
    }
  }

  lemma {:induction false} RewiredExactly(mod: Module, wires: WireMap)
    ensures Rewired(mod, wires).Some? <==> Rewritable(mod)
  {
    FunctionsRewrite(mod.functions, wires, {});
    ImplsRewrite(mod.impls, wires);
  }

  /** A closed import is fetched exactly when it fits. */
  lemma {:induction false} FetchedExactly(loader: Loader, imp: Import)
    requires ClosedImport(imp)
    ensures Fetched(loader, imp).Ok? <==> Fits(loader, imp)
  {
    if imp.name in loader.modules {
      ClosedBindings(imp.wire);
      WireMapKeys(imp.wire);
      RewiredExactly(loader.modules[imp.name], WireMapOf(imp.wire));
    }
  }

  /** Rewriting the types of its wires does not change whether an import fits. */
  predicate SameShape(q: Import, i: Import) {
    q.name == i.name && BoundNames(q.wire) == BoundNames(i.wire) && (q.wire == [] <==> i.wire == [])
  }

  lemma {:induction false} BindingsKeepNames(bs: seq<WireBinding>, wires: WireMap)
    ensures BoundNames(SubBindings(bs, wires)) == BoundNames(bs)
  {
    if bs != [] {
      BindingsKeepNames(bs[1..], wires);
      assert SubBindings(bs, wires)[1..] == SubBindings(bs[1..], wires);
      assert BoundNames(bs) == {bs[0].name} + BoundNames(bs[1..]);
      assert BoundNames(SubBindings(bs, wires)) == {bs[0].name} + BoundNames(SubBindings(bs[1..], wires));
    }
  }

  /** Every import of a loaded module has the shape of one that the module declares. */
  lemma {:induction false} LoadedImportShape(loader: Loader, imp: Import, q: Import) returns (i: Import)
    requires Fetched(loader, imp).Ok? && q in Fetched(loader, imp).value.imports
    ensures imp.name in loader.modules && i in loader.modules[imp.name].imports && SameShape(q, i)
  {
    var mod, r := loader.modules[imp.name], Fetched(loader, imp).value;
    i := q;
    if mod.wirables != [] {
      var wires := WireMapOf(imp.wire);
      assert r.imports == Each(mod.imports, OnImport(wires));
      var k :| 0 <= k < |r.imports| && r.imports[k] == q;
      i := mod.imports[k];
      BindingsKeepNames(i.wire, wires);
    }
  }

  /** Each queued import has the shape of one declared by the program or a reachable module. */
  ghost predicate FromImported(loader: Loader, imports: seq<Import>, queue: seq<Import>) {
    forall q :: q in queue ==> ShapeImported(loader, imports, q)
  }

  ghost predicate ShapeImported(loader: Loader, imports: seq<Import>, q: Import) {
    exists i :: Imported(loader, imports, i) && SameShape(q, i)
  }

  /** The declared import behind the first queued one; they fit alike. */
  lemma {:induction false} HeadImported(loader: Loader, imports: seq<Import>, queue: seq<Import>) returns (i: Import)
    requires queue != [] && FromImported(loader, imports, queue)
    ensures Imported(loader, imports, i) && SameShape(queue[0], i)
    ensures Fits(loader, queue[0]) <==> Fits(loader, i)
  {
    assert ShapeImported(loader, imports, queue[0]);
    i :| Imported(loader, imports, i) && SameShape(queue[0], i);
  }

  lemma {:induction false} ImportedIsReachable(loader: Loader, imports: seq<Import>, i: Import)
    requires Imported(loader, imports, i)
    ensures Reachable(loader.modules, Names(imports), i.name)
  {
    if i in imports {
      assert Reaches(loader.modules, Names(imports), i.name, 0);
    } else {
      var x :| x in loader.modules && Reachable(loader.modules, Names(imports), x) && i in loader.modules[x].imports;
      ImportIsReachable(loader.modules, Names(imports), x, i.name);
    }
  }

  lemma {:induction false} StepFromImported(loader: Loader, imports: seq<Import>, queue: seq<Import>, visited: set<string>)
    requires queue != [] && FromImported(loader, imports, queue) && Fetched(loader, queue[0]).Ok?
    ensures FromImported(loader, imports, queue[1..] + Unvisited(Fetched(loader, queue[0]).value.imports, visited))
  {
    var mod := Fetched(loader, queue[0]).value;
    var j := HeadImported(loader, imports, queue);
    ImportedIsReachable(loader, imports, j);
    forall q | q in mod.imports ensures ShapeImported(loader, imports, q) {
      var i := LoadedImportShape(loader, queue[0], q);
      assert Imported(loader, imports, i);
    }
  }

  /** If every declared import fits, the worklist never fails. */
  lemma {:induction false} WorkSucceeds(loader: Loader, imports: seq<Import>, queue: seq<Import>, p: Progress)
    requires WiredSoFar(loader, queue, p) && FromImported(loader, imports, queue)
    requires forall i :: Imported(loader, imports, i) ==> Fits(loader, i)
    ensures Work(loader, queue, p).Ok?
    decreases |loader.modules.Keys - Elements(p.order)|, |queue|
  {
    if queue != [] {
      var name := queue[0].name;
      if name in Elements(p.order) {
        WorkSucceeds(loader, imports, queue[1..], p);
      } else {
        var j := HeadImported(loader, imports, queue);
        FetchedExactly(loader, queue[0]);
        var mod := Fetched(loader, queue[0]).value;
        StepIsWired(loader, queue, p, mod);
        LoadShrinks(loader.modules.Keys, p.order, name);
        var next := Advance(p, name, mod);
        StepFromImported(loader, imports, queue, Elements(next.order));
        WorkSucceeds(loader, imports, queue[1..] + Unvisited(mod.imports, Elements(next.order)), next);
      }
    }
  }

  /** Each module was loaded through an import that fits. */
  ghost predicate LoadedByFitting(loader: Loader, imports: seq<Import>, order: seq<string>) {
    forall x :: x in order ==> FitsSomewhere(loader, imports, x)
  }

  ghost predicate FitsSomewhere(loader: Loader, imports: seq<Import>, x: string) {
    exists i :: Imported(loader, imports, i) && i.name == x && Fits(loader, i)
  }

  lemma {:induction false} StepLoadsFitting(loader: Loader, imports: seq<Import>, queue: seq<Import>, order: seq<string>)
    requires queue != [] && FromImported(loader, imports, queue) && LoadedByFitting(loader, imports, order)
    requires ClosedImport(queue[0]) && Fetched(loader, queue[0]).Ok?
    ensures LoadedByFitting(loader, imports, order + [queue[0].name])
  {
    FetchedExactly(loader, queue[0]);
    var j := HeadImported(loader, imports, queue);
    assert FitsSomewhere(loader, imports, queue[0].name);
  }

  ghost predicate FittingSoFar(loader: Loader, imports: seq<Import>, queue: seq<Import>, p: Progress) {
    WiredSoFar(loader, queue, p) && FromImported(loader, imports, queue) && LoadedByFitting(loader, imports, p.order)
  }

  lemma {:induction false} StepFits(loader: Loader, imports: seq<Import>, queue: seq<Import>, p: Progress, mod: Module)
    requires FittingSoFar(loader, imports, queue, p) && queue != [] && Fetched(loader, queue[0]) == Ok(mod)
    ensures var next := Advance(p, queue[0].name, mod);
            FittingSoFar(loader, imports, queue[1..] + Unvisited(mod.imports, Elements(next.order)), next)
  {
    StepIsWired(loader, queue, p, mod);
    StepFromImported(loader, imports, queue, Elements(p.order + [queue[0].name]));
    StepLoadsFitting(loader, imports, queue, p.order);
  }

  lemma {:induction false} WorkLoadsFitting(loader: Loader, imports: seq<Import>, queue: seq<Import>, p: Progress)
    requires FittingSoFar(loader, imports, queue, p)
    ensures var r := Work(loader, queue, p); r.Ok? ==> LoadedByFitting(loader, imports, r.value.order)
    decreases |loader.modules.Keys - Elements(p.order)|, |queue|
  {
    if queue != [] {
      var name := queue[0].name;
      if name in Elements(p.order) {
        WorkLoadsFitting(loader, imports, queue[1..], p);
      } else {
        var loaded := Fetched(loader, queue[0]);
        if loaded.Ok? {
          StepFits(loader, imports, queue, p, loaded.value);
          LoadShrinks(loader.modules.Keys, p.order, name);
          var next := Advance(p, name, loaded.value);
          WorkLoadsFitting(loader, imports, queue[1..] + Unvisited(loaded.value.imports, Elements(next.order)), next);
        }
      }
    }
  }

  lemma {:induction false} StartsFromImported(loader: Loader, imports: seq<Import>)
    ensures FromImported(loader, imports, imports)
  {
    forall q | q in imports ensures ShapeImported(loader, imports, q) {
      assert Imported(loader, imports, q) && SameShape(q, q);
    }
  }

  /**
   * With closed wires in the program and modules that forward only their own wirables, it is
   * enough for success that every import of the program and of a reachable module fits; and
   * on success every reachable module has an import that fits.
   */
  lemma {:induction false} SucceedsWhenAllFit(loader: Loader, user: Defs, imports: seq<Import>)
    requires AllForwardOwn(loader) && AllClosed(imports)
    ensures (forall i :: Imported(loader, imports, i) ==> Fits(loader, i)) ==> Resolved(loader, user, imports).Ok?
    ensures Resolved(loader, user, imports).Ok? ==>
              forall x :: Reachable(loader.modules, Names(imports), x) ==> FitsSomewhere(loader, imports, x)
  {
    StartsFromImported(loader, imports);
    var start := Progress([], [], user);
    if forall i :: Imported(loader, imports, i) ==> Fits(loader, i) {
      WorkSucceeds(loader, imports, imports, start);
    }
    WorkLoadsFitting(loader, imports, imports, start);
    if Resolved(loader, user, imports).Ok? {
      LoadsTheReachable(loader, user, imports);
    }
  }

  /**
   * A module is wired by the import that is dequeued first and later ones are not looked at.
   * So when the imports of one module agree on whether they fit, resolution succeeds exactly
   * when every import of the program and of a reachable module fits.
   */
  lemma {:induction false} SucceedsExactly(loader: Loader, user: Defs, imports: seq<Import>)
    requires AllForwardOwn(loader) && AllClosed(imports)
    requires forall i, j :: Imported(loader, imports, i) && Imported(loader, imports, j) && i.name == j.name ==>
               (Fits(loader, i) <==> Fits(loader, j))
    ensures Resolved(loader, user, imports).Ok? <==> forall i :: Imported(loader, imports, i) ==> Fits(loader, i)
  {
    SucceedsWhenAllFit(loader, user, imports);
    if Resolved(loader, user, imports).Ok? {
      forall i | Imported(loader, imports, i) ensures Fits(loader, i) {
        ImportedIsReachable(loader, imports, i);
        assert FitsSomewhere(loader, imports, i.name);
        var j :| Imported(loader, imports, j) && j.name == i.name && Fits(loader, j);
      }
    }
  }

  /** A later import of a loaded module is skipped whatever it wires, also if it would not fit. */
  lemma {:induction false} LaterWiresAreIgnored(loader: Loader, imp: Import, queue: seq<Import>, p: Progress)
    requires imp.name in p.order
    ensures Work(loader, [imp] + queue, p) == Work(loader, queue, p)
  {
    assert ([imp] + queue)[1..] == queue;
  }
}
