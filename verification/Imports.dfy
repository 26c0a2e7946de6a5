/**
 * Import resolution: a worklist loads the modules that a program imports, directly or
 * through other modules, and merges their definitions first-wins into the program's.
 */
module Imports {
  import opened Wrappers
  import opened QuodTree
  import opened Wires
  import opened FirstWins

  /** Every module that can be loaded, and the tiers that must not be. */
  datatype Loader = Loader(modules: map<string, Module>, disabled: set<string>)

  datatype Defs = Defs(
    constants: seq<StringConstant>,
    structs: seq<StructDef>,
    enums: seq<EnumDef>,
    externs: seq<ExternFunction>,
    functions: seq<Function>,
    traits: seq<TraitDef>,
    impls: seq<ImplDef>)

  /** The names loaded so far, the rewritten modules they gave, and the merged definitions. */
  datatype Progress = Progress(order: seq<string>, loads: seq<Module>, defs: Defs)

  // ---------- Tiers ----------

  function Head(name: string): string {
    if name == "" || name[0] == '.' then "" else [name[0]] + Head(name[1..])
  }

  function Tier(name: string): string {
    var head := Head(name);
    if head == "core" || head == "alloc" || head == "std" then head else "core"
  }

  // ---------- First-wins merging ----------

  function ConstantKey(c: StringConstant): string { c.name }
  function StructKey(d: StructDef): string { d.name }
  function EnumKey(d: EnumDef): string { d.name }
  function ExternKey(d: ExternFunction): string { d.name }
  function FunctionKey(fn: Function): string { fn.name }
  function TraitKey(d: TraitDef): string { d.name }
  function ImplKey(d: ImplDef): (string, Type) { (d.trt, d.forType) }

  function AddModule(defs: Defs, mod: Module): Defs {
    Defs(AddNew(defs.constants, mod.constants, ConstantKey), AddNew(defs.structs, mod.structs, StructKey),
         AddNew(defs.enums, mod.enums, EnumKey), AddNew(defs.externs, mod.externs, ExternKey),
         AddNew(defs.functions, mod.functions, FunctionKey), AddNew(defs.traits, mod.traits, TraitKey),
         AddNew(defs.impls, mod.impls, ImplKey))
  }

  // ---------- The worklist ----------

  function Names(imports: seq<Import>): set<string> {
    set i | i in imports :: i.name
  }

  /** A module as it is merged: its wires applied, which must bind exactly its wirables. */
  function Fetched(loader: Loader, imp: Import): Result<Module, ImportError> {
    if Tier(imp.name) in loader.disabled then Err(DisabledTier(imp.name, Tier(imp.name)))
    else if imp.name !in loader.modules then Err(UnknownModule(imp.name))
    else
      var mod := loader.modules[imp.name];
      if mod.wirables != [] then Wired(mod, imp)
      else if imp.wire != [] then Err(UnexpectedWires(imp.name))
      else Ok(mod)
  }

  function Unvisited(imports: seq<Import>, visited: set<string>): (r: seq<Import>)
    ensures forall i :: i in r <==> i in imports && i.name !in visited
  {
    if imports == [] then []
    else
      var last := imports[|imports| - 1];
      Unvisited(imports[..|imports| - 1], visited) + (if last.name in visited then [] else [last])
  }

  function Advance(p: Progress, name: string, mod: Module): Progress {
    Progress(p.order + [name], p.loads + [mod], AddModule(p.defs, mod))
  }

  /** The whole loop from a queue on. */
  function Work(loader: Loader, queue: seq<Import>, p: Progress): Result<Progress, ImportError>
    decreases |loader.modules.Keys - Elements(p.order)|, |queue|
  {
    if queue == [] then Ok(p)
    else if queue[0].name in Elements(p.order) then Work(loader, queue[1..], p)
    else
      var name := queue[0].name;
      var mod :- Fetched(loader, queue[0]);
      var next := Advance(p, name, mod);
      LoadShrinks(loader.modules.Keys, p.order, name);
      Work(loader, queue[1..] + Unvisited(mod.imports, Elements(next.order)), next)
  }

  lemma {:induction false} LoadShrinks(names: set<string>, order: seq<string>, name: string)
    requires name in names && name !in Elements(order)
    ensures |names - Elements(order + [name])| < |names - Elements(order)|
  {
    assert Elements(order + [name]) == Elements(order) + {name};
    assert names - Elements(order + [name]) == (names - Elements(order)) - {name};
  }

  function Resolved(loader: Loader, user: Defs, imports: seq<Import>): Result<Progress, ImportError> {
    Work(loader, imports, Progress([], [], user))
  }

  // ---------- The resolver's loop ----------

  /** The names already taken in each collection. */
  datatype Seen = Seen(
    constants: set<string>,
    structs: set<string>,
    enums: set<string>,
    externs: set<string>,
    functions: set<string>,
    traits: set<string>,
    impls: set<(string, Type)>)

  function SeenIn(defs: Defs): Seen {
    Seen(Keys(defs.constants, ConstantKey), Keys(defs.structs, StructKey), Keys(defs.enums, EnumKey),
         Keys(defs.externs, ExternKey), Keys(defs.functions, FunctionKey), Keys(defs.traits, TraitKey),
         Keys(defs.impls, ImplKey))
  }

  method MergeModule(defs: Defs, seen: Seen, mod: Module) returns (merged: Defs, mergedSeen: Seen)
    requires seen == SeenIn(defs)
    ensures merged == AddModule(defs, mod) && mergedSeen == SeenIn(merged)
  {
    var constants, seenConstants := AddAll(defs.constants, seen.constants, mod.constants, ConstantKey);
    var structs, seenStructs := AddAll(defs.structs, seen.structs, mod.structs, StructKey);
    var enums, seenEnums := AddAll(defs.enums, seen.enums, mod.enums, EnumKey);
    var externs, seenExterns := AddAll(defs.externs, seen.externs, mod.externs, ExternKey);
    var functions, seenFunctions := AddAll(defs.functions, seen.functions, mod.functions, FunctionKey);
    var traits, seenTraits := AddAll(defs.traits, seen.traits, mod.traits, TraitKey);
    var impls, seenImpls := AddAll(defs.impls, seen.impls, mod.impls, ImplKey);
    merged := Defs(constants, structs, enums, externs, functions, traits, impls);
    mergedSeen := Seen(seenConstants, seenStructs, seenEnums, seenExterns, seenFunctions, seenTraits, seenImpls);
  }

  method LoadModule(loader: Loader, imp: Import) returns (r: Result<Module, ImportError>)
    ensures r == Fetched(loader, imp)
  {
    var tier := Tier(imp.name);
    if tier in loader.disabled {
      return Err(DisabledTier(imp.name, tier));
    }
    if imp.name !in loader.modules {
      return Err(UnknownModule(imp.name));
    }
    var mod := loader.modules[imp.name];
    if mod.wirables != [] {
      r := ApplyWires(mod, imp);
    } else if imp.wire != [] {
      r := Err(UnexpectedWires(imp.name));
    } else {
      r := Ok(mod);
    }
  }

  method Enqueue(queue: seq<Import>, imports: seq<Import>, visited: set<string>) returns (r: seq<Import>)
    ensures r == queue + Unvisited(imports, visited)
  {
    r := queue;
    for i := 0 to |imports|
      invariant r == queue + Unvisited(imports[..i], visited)
    {
      assert imports[..i + 1][..i] == imports[..i];
      if imports[i].name !in visited {
        r := r + [imports[i]];
      }
    }
    assert imports[..|imports|] == imports;
  }

  /** Takes imports from the front of the queue until it is empty; cyclic imports end too. */
  method ResolveImports(loader: Loader, user: Defs, imports: seq<Import>)
    returns (r: Result<Defs, ImportError>, order: seq<string>)
    ensures match Resolved(loader, user, imports)
            case Ok(p) => r == Ok(p.defs) && order == p.order
            case Err(e) => r == Err(e)
  {
    var defs, seen := user, SeenIn(user);
    var queue, visited := imports, {};
    order := [];
    ghost var loads: seq<Module> := [];
    while queue != []
      invariant visited == Elements(order) && seen == SeenIn(defs)
      invariant Work(loader, queue, Progress(order, loads, defs)) == Resolved(loader, user, imports)
      decreases |loader.modules.Keys - visited|, |queue|
    {
      var imp := queue[0];
      queue := queue[1..];
      if imp.name !in visited {
        var loaded := LoadModule(loader, imp);
        if loaded.Err? {
          return Err(loaded.error), order;
        }
        var mod := loaded.value;
        LoadShrinks(loader.modules.Keys, order, imp.name);
        assert Elements(order + [imp.name]) == visited + {imp.name};
        visited := visited + {imp.name};
        queue := Enqueue(queue, mod.imports, visited);
        order := order + [imp.name];
        loads := loads + [mod];
        defs, seen := MergeModule(defs, seen, mod);
      }
    }
    r := Ok(defs);
  }

  // ---------- First wins ----------

  /** One collection of all loaded modules, in load order. */
  function Flat<T>(loads: seq<Module>, get: Module -> seq<T>): seq<T> {
    if loads == [] then [] else Flat(loads[..|loads| - 1], get) + get(loads[|loads| - 1])
  }

  /** An added item is not the user's and comes from the first loaded module that declares its key. */
  lemma {:induction false} FirstDeclarer<T, K>(user: seq<T>, loads: seq<Module>, get: Module -> seq<T>, key: T -> K, i: nat)
    returns (k: nat)
    requires |user| <= i < |AddNew(user, Flat(loads, get), key)|
    ensures var x := AddNew(user, Flat(loads, get), key)[i];
            && k < |loads|
            && x in get(loads[k])
            && key(x) !in Keys(user, key)
            && forall j :: 0 <= j < k ==> key(x) !in Keys(get(loads[j]), key)
    decreases |loads|
  {
    var n := |loads| - 1;
    if n < 0 {
      assert false;
    } else {
      var init := loads[..n];
      var before := AddNew(user, Flat(init, get), key);
      AddNewTwice(user, Flat(init, get), get(loads[n]), key);
      AddNewKeys(before, get(loads[n]), key);
      AddNewKeys(user, Flat(init, get), key);
      if i < |before| {
        k := FirstDeclarer(user, init, get, key, i);
      } else {
        k := n;
        FlatKeys(init, get, key);
      }
    }
  }

  lemma {:induction false} FlatKeys<T, K>(loads: seq<Module>, get: Module -> seq<T>, key: T -> K)
    ensures forall j :: 0 <= j < |loads| ==> Keys(get(loads[j]), key) <= Keys(Flat(loads, get), key)
    decreases |loads|
  {
    if loads != [] {
      FlatKeys(loads[..|loads| - 1], get, key);
    }
  }

  /**
   * The merged list of one collection: the user's own definitions as an unchanged prefix,
   * every declared key, each added key once and from the first module that declares it.
   */
  ghost predicate MergedFirstWins<T, K>(merged: seq<T>, user: seq<T>, loads: seq<Module>, get: Module -> seq<T>, key: T -> K) {
    && user <= merged
    && Distinct(merged, |user|, key)
    && (forall j :: 0 <= j < |loads| ==> Keys(get(loads[j]), key) <= Keys(merged, key))
    && (forall i :: |user| <= i < |merged| ==> FromFirst(merged[i], user, loads, get, key))
  }

  ghost predicate FromFirst<T, K>(x: T, user: seq<T>, loads: seq<Module>, get: Module -> seq<T>, key: T -> K) {
    && key(x) !in Keys(user, key)
    && exists k :: 0 <= k < |loads| && DeclaredFirst(x, k, loads, get, key)
  }

  ghost predicate DeclaredFirst<T, K>(x: T, k: nat, loads: seq<Module>, get: Module -> seq<T>, key: T -> K)
    requires k < |loads|
  {
    x in get(loads[k]) && forall j :: 0 <= j < k ==> key(x) !in Keys(get(loads[j]), key)
  }

  lemma {:induction false} MergeIsFirstWins<T, K>(user: seq<T>, loads: seq<Module>, get: Module -> seq<T>, key: T -> K)
    ensures MergedFirstWins(AddNew(user, Flat(loads, get), key), user, loads, get, key)
  {
    var merged := AddNew(user, Flat(loads, get), key);
    AddNewKeys(user, Flat(loads, get), key);
    AddNewDistinct(user, Flat(loads, get), key, |user|);
    FlatKeys(loads, get, key);
    forall i | |user| <= i < |merged| ensures FromFirst(merged[i], user, loads, get, key) {
      var k := FirstDeclarer(user, loads, get, key, i);
      assert DeclaredFirst(merged[i], k, loads, get, key);
    }
  }
}
