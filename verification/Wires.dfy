/**
 * Wires: a module declares wirable type names and an import binds each of them to a
 * type, which replaces the name throughout the module before it is merged.
 */
module Wires {
  import opened Wrappers
  import opened QuodTree
  import opened Substitution

  datatype WireBinding = WireBinding(name: string, ty: Type)

  datatype Import = Import(name: string, wire: seq<WireBinding>)

  datatype Module = Module(
    wirables: seq<string>,
    imports: seq<Import>,
    constants: seq<StringConstant>,
    structs: seq<StructDef>,
    enums: seq<EnumDef>,
    externs: seq<ExternFunction>,
    functions: seq<Function>,
    traits: seq<TraitDef>,
    impls: seq<ImplDef>)

  datatype ImportError =
    | UnknownModule(name: string)
    | DisabledTier(name: string, tier: string)
    | UnexpectedWires(name: string)
    | UnresolvedWire(name: string, wire: string, param: string)
    | MissingWires(name: string, names: set<string>)
    | UnknownWires(name: string, names: set<string>)
    | UnhandledNode(name: string)

  type WireMap = map<string, Type>

  // ---------- Substitution in a type ----------

  /** Replaces wired names, except those that the definition around declares itself. */
  function SubType(t: Type, wires: WireMap, banned: set<string>): Type {
    match t
    case TypeParamRef(name) => if name in wires && name !in banned then wires[name] else t
    case StructType(name, args) => StructType(name, SubTypes(args, wires, banned))
    case EnumType(name, args) => EnumType(name, SubTypes(args, wires, banned))
    case _ => t
  }

  function SubTypes(ts: seq<Type>, wires: WireMap, banned: set<string>): seq<Type> {
    if ts == [] then [] else [SubType(ts[0], wires, banned)] + SubTypes(ts[1..], wires, banned)
  }

  /** Type parameter names in a type. */
  function TypeNames(t: Type): set<string> {
    match t
    case TypeParamRef(name) => {name}
    case StructType(_, args) => AllTypeNames(args)
    case EnumType(_, args) => AllTypeNames(args)
    case _ => {}
  }

  function AllTypeNames(ts: seq<Type>): set<string> {
    if ts == [] then {} else TypeNames(ts[0]) + AllTypeNames(ts[1..])
  }

  predicate Closed(t: Type) {
    TypeNames(t) == {}
  }

  predicate ClosedMap(wires: WireMap) {
    forall w :: w in wires ==> Closed(wires[w])
  }

  /** Names that the images of wired names bring in. */
  function Brought(names: set<string>, wires: WireMap): set<string> {
    set n, x | n in names && n in wires && x in TypeNames(wires[n]) :: x
  }

  /** What becomes of names under wires: unshielded wired ones give way to the names of their images. */
  function Through(names: set<string>, wires: WireMap, banned: set<string>): set<string> {
    (names - (wires.Keys - banned)) + Brought(names - banned, wires)
  }

  lemma {:induction false} ThroughUnion(a: set<string>, b: set<string>, wires: WireMap, banned: set<string>)
    ensures Through(a + b, wires, banned) == Through(a, wires, banned) + Through(b, wires, banned)
  {
    assert a + b - banned == (a - banned) + (b - banned);
  }

  lemma {:induction false} ClosedBringsNothing(names: set<string>, wires: WireMap)
    requires ClosedMap(wires)
    ensures Brought(names, wires) == {}
  {}

  /** The names of a rewritten type, for any wires. */
  lemma {:induction false} SubTypeNames(t: Type, wires: WireMap, banned: set<string>)
    ensures TypeNames(SubType(t, wires, banned)) == Through(TypeNames(t), wires, banned)
  {
    match t {
      case StructType(_, args) => SubTypesNames(args, wires, banned);
      case EnumType(_, args) => SubTypesNames(args, wires, banned);
      case _ =>
    }
  }

  lemma {:induction false} SubTypesNames(ts: seq<Type>, wires: WireMap, banned: set<string>)
    ensures AllTypeNames(SubTypes(ts, wires, banned)) == Through(AllTypeNames(ts), wires, banned)
  {
    if ts != [] {
      SubTypeNames(ts[0], wires, banned);
      SubTypesNames(ts[1..], wires, banned);
      ThroughUnion(TypeNames(ts[0]), AllTypeNames(ts[1..]), wires, banned);
    }
  }

  lemma {:induction false} Shielded(t: Type, wires: WireMap, banned: set<string>)
    requires TypeNames(t) * wires.Keys <= banned
    ensures SubType(t, wires, banned) == t
  {
    match t {
      case StructType(_, args) => AllShielded(args, wires, banned);
      case EnumType(_, args) => AllShielded(args, wires, banned);
      case _ =>
    }
  }

  lemma {:induction false} AllShielded(ts: seq<Type>, wires: WireMap, banned: set<string>)
    requires AllTypeNames(ts) * wires.Keys <= banned
    ensures SubTypes(ts, wires, banned) == ts
  {
    if ts != [] {
      Shielded(ts[0], wires, banned);
      AllShielded(ts[1..], wires, banned);
    }
  }

  /** Two closed wire maps over disjoint names, one after the other, are their union. */
  lemma {:induction false} SubTypeUnion(t: Type, x: WireMap, y: WireMap, banned: set<string>)
    requires ClosedMap(x) && ClosedMap(y) && x.Keys !! y.Keys
    ensures SubType(SubType(t, x, banned), y, banned) == SubType(t, x + y, banned)
  {
    match t {
      case TypeParamRef(name) =>
        if name in x && name !in banned {
          Shielded(x[name], y, banned);
        }
      case StructType(_, args) => SubTypesUnion(args, x, y, banned);
      case EnumType(_, args) => SubTypesUnion(args, x, y, banned);
      case _ =>
    }
  }

  lemma {:induction false} SubTypesUnion(ts: seq<Type>, x: WireMap, y: WireMap, banned: set<string>)
    requires ClosedMap(x) && ClosedMap(y) && x.Keys !! y.Keys
    ensures SubTypes(SubTypes(ts, x, banned), y, banned) == SubTypes(ts, x + y, banned)
  {
    if ts != [] {
      SubTypeUnion(ts[0], x, y, banned);
      SubTypesUnion(ts[1..], x, y, banned);
      assert SubTypes(ts, x, banned)[1..] == SubTypes(ts[1..], x, banned);
    }
  }

  /** The order of the two does not matter in a type ... */
  lemma {:induction false} WiresCommute(t: Type, x: WireMap, y: WireMap, banned: set<string>)
    requires ClosedMap(x) && ClosedMap(y) && x.Keys !! y.Keys
    ensures SubType(SubType(t, x, banned), y, banned) == SubType(SubType(t, y, banned), x, banned)
  {
    SubTypeUnion(t, x, y, banned);
    SubTypeUnion(t, y, x, banned);
    assert x + y == y + x;
  }

  /** ... nor in a body. */
  lemma {:induction false} WiresCommuteInBody(ss: seq<Stmt>, x: WireMap, y: WireMap, banned: set<string>)
    requires HandledAll(ss) && ClosedMap(x) && ClosedMap(y) && x.Keys !! y.Keys
    ensures var first, second := SubstStmts(ss, Wiring(x, banned)), SubstStmts(ss, Wiring(y, banned));
            && first.Some? && second.Some?
            && SubstStmts(first.value, Wiring(y, banned)) == SubstStmts(second.value, Wiring(x, banned))
  {
    var f, g := Wiring(x, banned), Wiring(y, banned);
    Substitutes(ss, f);
    Substitutes(ss, g);
    Substitutes(ss, Wiring(x + y, banned));
    forall t ensures Wiring(x + y, banned)(t) == g(f(t)) == f(g(t)) {
      SubTypeUnion(t, x, y, banned);
      WiresCommute(t, x, y, banned);
    }
    AgreeOnEach(Types(ss), f, g, Wiring(x + y, banned));
    AgreeOnEach(Types(ss), g, f, Wiring(x + y, banned));
    Laws(ss, f, g, Wiring(x + y, banned));
    Laws(ss, g, f, Wiring(x + y, banned));
  }

  function Wiring(wires: WireMap, banned: set<string>): TypeFn {
    (t: Type) => SubType(t, wires, banned)
  }

  // ---------- Substitution in a module ----------

  function Own(params: seq<TypeParam>): set<string> {
    set p | p in params :: p.name
  }

  function EachOrNone<T>(items: seq<T>, f: T -> Option<T>): (r: Option<seq<T>>)
    ensures r.Some? ==> |r.value| == |items| && forall i :: 0 <= i < |items| ==> f(items[i]) == Some(r.value[i])
    ensures r.None? ==> exists i :: 0 <= i < |items| && f(items[i]).None?
  {
    if items == [] then Some([]) else
      var head :- f(items[0]);
      var rest :- EachOrNone(items[1..], f);
      Some([head] + rest)
  }

  function Prepend<T>(head: seq<T>, rest: Option<seq<T>>): Option<seq<T>> {
    match rest
    case None => None
    case Some(tail) => Some(head + tail)
  }

  /** One item further, or the first item without a result. */
  lemma {:induction false} PrependStep<T>(done: seq<T>, items: seq<T>, i: nat, f: T -> Option<T>)
    requires i < |items|
    ensures Prepend(done, EachOrNone(items[i..], f)) ==
            (match f(items[i])
             case None => None
             case Some(x) => Prepend(done + [x], EachOrNone(items[i + 1..], f)))
  {
    assert items[i..][0] == items[i] && items[i..][1..] == items[i + 1..];
    var x := f(items[i]);
    if x.Some? {
      PrependTwice(done, x.value, EachOrNone(items[i + 1..], f));
    }
  }

  lemma {:induction false} PrependTwice<T>(head: seq<T>, x: T, rest: Option<seq<T>>)
    ensures Prepend([], rest) == rest
    ensures Prepend(head, Prepend([x], rest)) == Prepend(head + [x], rest)
  {
    if rest.Some? {
      assert head + ([x] + rest.value) == head + [x] + rest.value;
      assert [] + rest.value == rest.value;
    }
  }

  function SubParams(ps: seq<Param>, f: TypeFn): seq<Param> {
    if ps == [] then [] else [Param(ps[0].name, f(ps[0].ty))] + SubParams(ps[1..], f)
  }

  function SubStruct(d: StructDef, wires: WireMap): StructDef {
    d.(fields := SubParams(d.fields, Wiring(wires, Own(d.typeParams))))
  }

  function SubVariants(vs: seq<EnumVariant>, f: TypeFn): seq<EnumVariant> {
    if vs == [] then [] else [EnumVariant(vs[0].name, SubParams(vs[0].fields, f))] + SubVariants(vs[1..], f)
  }

  function SubEnum(d: EnumDef, wires: WireMap): EnumDef {
    d.(variants := SubVariants(d.variants, Wiring(wires, Own(d.typeParams))))
  }

  function SubExtern(d: ExternFunction, wires: WireMap): ExternFunction {
    d.(paramTypes := Each(d.paramTypes, Wiring(wires, {})), returnType := SubType(d.returnType, wires, {}))
  }

  /** Claims and notes of a function are not rewritten. */
  function SubFunction(fn: Function, wires: WireMap, banned: set<string>): Option<Function> {
    var f := Wiring(wires, banned + Own(fn.typeParams));
    var body :- SubstStmts(fn.body, f);
    Some(fn.(params := SubParams(fn.params, f), returnType := f(fn.returnType), body := body))
  }

  function OnFunction(wires: WireMap, banned: set<string>): Function -> Option<Function> {
    (fn: Function) => SubFunction(fn, wires, banned)
  }

  function SubImpl(d: ImplDef, wires: WireMap): Option<ImplDef> {
    var own := Own(d.typeParams);
    var methods :- EachOrNone(d.methods, OnFunction(wires, own));
    Some(d.(forType := SubType(d.forType, wires, own), methods := methods))
  }

  /** The module's own imports are rewritten too: this is how a wire is forwarded. */
  function SubBindings(bs: seq<WireBinding>, wires: WireMap): seq<WireBinding> {
    if bs == [] then [] else [WireBinding(bs[0].name, SubType(bs[0].ty, wires, {}))] + SubBindings(bs[1..], wires)
  }

  function SubImport(imp: Import, wires: WireMap): Import {
    Import(imp.name, SubBindings(imp.wire, wires))
  }

  function OnStruct(wires: WireMap): StructDef -> StructDef {
    (d: StructDef) => SubStruct(d, wires)
  }

  function OnEnum(wires: WireMap): EnumDef -> EnumDef {
    (d: EnumDef) => SubEnum(d, wires)
  }

  function OnExtern(wires: WireMap): ExternFunction -> ExternFunction {
    (d: ExternFunction) => SubExtern(d, wires)
  }

  function OnImport(wires: WireMap): Import -> Import {
    (imp: Import) => SubImport(imp, wires)
  }

  function OnImpl(wires: WireMap): ImplDef -> Option<ImplDef> {
    (d: ImplDef) => SubImpl(d, wires)
  }

  /** The rewritten module; wirables are gone, constants and traits are as they were. */
  function Rewired(mod: Module, wires: WireMap): Option<Module> {
    var functions :- EachOrNone(mod.functions, OnFunction(wires, {}));
    var impls :- EachOrNone(mod.impls, OnImpl(wires));
    Some(Module([], Each(mod.imports, OnImport(wires)), mod.constants, Each(mod.structs, OnStruct(wires)),
                Each(mod.enums, OnEnum(wires)), Each(mod.externs, OnExtern(wires)), functions, mod.traits, impls))
  }

  // ---------- Free names at the rewritten positions ----------

  function ParamNamesFree(ps: seq<Param>): set<string> {
    if ps == [] then {} else TypeNames(ps[0].ty) + ParamNamesFree(ps[1..])
  }

  function VariantNamesFree(vs: seq<EnumVariant>): set<string> {
    if vs == [] then {} else ParamNamesFree(vs[0].fields) + VariantNamesFree(vs[1..])
  }

  function FreeInStruct(d: StructDef): set<string> {
    ParamNamesFree(d.fields) - Own(d.typeParams)
  }

  function FreeInEnum(d: EnumDef): set<string> {
    VariantNamesFree(d.variants) - Own(d.typeParams)
  }

  function FreeInExtern(d: ExternFunction): set<string> {
    AllTypeNames(d.paramTypes) + TypeNames(d.returnType)
  }

  function FreeInFunction(fn: Function): set<string> {
    ParamNamesFree(fn.params) + TypeNames(fn.returnType) + AllTypeNames(Types(fn.body)) - Own(fn.typeParams)
  }

  function FreeInFunctions(fns: seq<Function>): set<string> {
    if fns == [] then {} else FreeInFunction(fns[0]) + FreeInFunctions(fns[1..])
  }

  function FreeInImpl(d: ImplDef): set<string> {
    TypeNames(d.forType) + FreeInFunctions(d.methods) - Own(d.typeParams)
  }

  function FreeInBindings(bs: seq<WireBinding>): set<string> {
    if bs == [] then {} else TypeNames(bs[0].ty) + FreeInBindings(bs[1..])
  }

  lemma {:induction false} SubParamsFree(ps: seq<Param>, wires: WireMap, banned: set<string>)
    ensures ParamNamesFree(SubParams(ps, Wiring(wires, banned))) == Through(ParamNamesFree(ps), wires, banned)
  {
    if ps != [] {
      SubTypeNames(ps[0].ty, wires, banned);
      SubParamsFree(ps[1..], wires, banned);
      ThroughUnion(TypeNames(ps[0].ty), ParamNamesFree(ps[1..]), wires, banned);
      var r := SubParams(ps, Wiring(wires, banned));
      assert r[1..] == SubParams(ps[1..], Wiring(wires, banned));
    }
  }

  lemma {:induction false} SubVariantsFree(vs: seq<EnumVariant>, wires: WireMap, banned: set<string>)
    ensures VariantNamesFree(SubVariants(vs, Wiring(wires, banned))) == Through(VariantNamesFree(vs), wires, banned)
  {
    if vs != [] {
      SubParamsFree(vs[0].fields, wires, banned);
      SubVariantsFree(vs[1..], wires, banned);
      ThroughUnion(ParamNamesFree(vs[0].fields), VariantNamesFree(vs[1..]), wires, banned);
      var r := SubVariants(vs, Wiring(wires, banned));
      assert r[1..] == SubVariants(vs[1..], Wiring(wires, banned));
    }
  }

  lemma {:induction false} EachIsSubTypes(ts: seq<Type>, wires: WireMap, banned: set<string>)
    ensures Each(ts, Wiring(wires, banned)) == SubTypes(ts, wires, banned)
  {
    if ts != [] {
      EachIsSubTypes(ts[1..], wires, banned);
    }
  }

  /** Leaving the scope of own type parameters, inside a scope that shields `banned`. */
  lemma {:induction false} ThroughOwn(names: set<string>, wires: WireMap, banned: set<string>, own: set<string>)
    ensures Through(names, wires, banned + own) - own ==
            (names - own - (wires.Keys - banned)) + (Brought(names - own - banned, wires) - own)
  {
    assert names - (banned + own) == names - own - banned;
  }

  /**
   * For any wires, the free names of a rewritten struct are its other free names and those
   * that the wires it uses bring in and its own type parameters do not bind.
   */
  lemma {:induction false} StructIsWired(d: StructDef, wires: WireMap)
    ensures FreeInStruct(SubStruct(d, wires)) ==
            (FreeInStruct(d) - wires.Keys) + (Brought(FreeInStruct(d), wires) - Own(d.typeParams))
  {
    SubParamsFree(d.fields, wires, Own(d.typeParams));
    ThroughOwn(ParamNamesFree(d.fields), wires, {}, Own(d.typeParams));
    assert {} + Own(d.typeParams) == Own(d.typeParams);
  }

  lemma {:induction false} EnumIsWired(d: EnumDef, wires: WireMap)
    ensures FreeInEnum(SubEnum(d, wires)) ==
            (FreeInEnum(d) - wires.Keys) + (Brought(FreeInEnum(d), wires) - Own(d.typeParams))
  {
    SubVariantsFree(d.variants, wires, Own(d.typeParams));
    ThroughOwn(VariantNamesFree(d.variants), wires, {}, Own(d.typeParams));
    assert {} + Own(d.typeParams) == Own(d.typeParams);
  }

  lemma {:induction false} ExternIsWired(d: ExternFunction, wires: WireMap)
    ensures FreeInExtern(SubExtern(d, wires)) == (FreeInExtern(d) - wires.Keys) + Brought(FreeInExtern(d), wires)
  {
    EachIsSubTypes(d.paramTypes, wires, {});
    SubTypesNames(d.paramTypes, wires, {});
    SubTypeNames(d.returnType, wires, {});
    ThroughUnion(AllTypeNames(d.paramTypes), TypeNames(d.returnType), wires, {});
    assert FreeInExtern(d) - {} == FreeInExtern(d) && wires.Keys - {} == wires.Keys;
  }

  /** A rewritten function, which may be a method of an impl that shields more names. */
  lemma {:induction false} FunctionIsWired(fn: Function, wires: WireMap, banned: set<string>)
    requires SubFunction(fn, wires, banned).Some?
    ensures FreeInFunction(SubFunction(fn, wires, banned).value) ==
            (FreeInFunction(fn) - (wires.Keys - banned)) + BroughtInto(fn, wires, banned)
  {
    var own := Own(fn.typeParams);
    var all := banned + own;
    Substitutes(fn.body, Wiring(wires, all));
    TypesAreMapped(fn.body, Wiring(wires, all));
    EachIsSubTypes(Types(fn.body), wires, all);
    SubTypesNames(Types(fn.body), wires, all);
    SubParamsFree(fn.params, wires, all);
    SubTypeNames(fn.returnType, wires, all);
    var a, b, c := ParamNamesFree(fn.params), TypeNames(fn.returnType), AllTypeNames(Types(fn.body));
    ThroughUnion(a, b, wires, all);
    ThroughUnion(a + b, c, wires, all);
    ThroughOwn(a + b + c, wires, banned, own);
  }

  /** Names that wires bring into a function: unshielded there and not bound by its type parameters. */
  function BroughtInto(fn: Function, wires: WireMap, banned: set<string>): set<string> {
    Brought(FreeInFunction(fn) - banned, wires) - Own(fn.typeParams)
  }

  function BroughtIntoAll(fns: seq<Function>, wires: WireMap, banned: set<string>): set<string> {
    if fns == [] then {} else BroughtInto(fns[0], wires, banned) + BroughtIntoAll(fns[1..], wires, banned)
  }

  lemma {:induction false} FunctionsAreWired(fns: seq<Function>, wires: WireMap, banned: set<string>)
    requires EachOrNone(fns, OnFunction(wires, banned)).Some?
    ensures FreeInFunctions(EachOrNone(fns, OnFunction(wires, banned)).value) ==
            (FreeInFunctions(fns) - (wires.Keys - banned)) + BroughtIntoAll(fns, wires, banned)
  {
    if fns != [] {
      FunctionIsWired(fns[0], wires, banned);
      FunctionsAreWired(fns[1..], wires, banned);
      assert EachOrNone(fns, OnFunction(wires, banned)).value[1..] == EachOrNone(fns[1..], OnFunction(wires, banned)).value;
    }
  }

  /** Names that wires bring into an impl, at its type and in its methods. */
  function BroughtIntoImpl(d: ImplDef, wires: WireMap): set<string> {
    var own := Own(d.typeParams);
    Brought(TypeNames(d.forType) - own, wires) + BroughtIntoAll(d.methods, wires, own) - own
  }

  lemma {:induction false} ImplIsWired(d: ImplDef, wires: WireMap)
    requires SubImpl(d, wires).Some?
    ensures FreeInImpl(SubImpl(d, wires).value) == (FreeInImpl(d) - wires.Keys) + BroughtIntoImpl(d, wires)
  {
    SubTypeNames(d.forType, wires, Own(d.typeParams));
    FunctionsAreWired(d.methods, wires, Own(d.typeParams));
  }

  lemma {:induction false} BindingsAreWired(bs: seq<WireBinding>, wires: WireMap)
    ensures FreeInBindings(SubBindings(bs, wires)) == Through(FreeInBindings(bs), wires, {})
  {
    if bs != [] {
      SubTypeNames(bs[0].ty, wires, {});
      BindingsAreWired(bs[1..], wires);
      ThroughUnion(TypeNames(bs[0].ty), FreeInBindings(bs[1..]), wires, {});
      assert SubBindings(bs, wires)[1..] == SubBindings(bs[1..], wires);
    }
  }

  lemma {:induction false} ClosedBringsNothingIntoAll(fns: seq<Function>, wires: WireMap, banned: set<string>)
    requires ClosedMap(wires)
    ensures BroughtIntoAll(fns, wires, banned) == {}
  {
    if fns != [] {
      ClosedBringsNothing(FreeInFunction(fns[0]) - banned, wires);
      ClosedBringsNothingIntoAll(fns[1..], wires, banned);
    }
  }

  /** No merged definition has a free occurrence of a wired name where types are rewritten. */
  predicate FreeOf(mod: Module, names: set<string>) {
    && (forall d :: d in mod.structs ==> FreeInStruct(d) !! names)
    && (forall d :: d in mod.enums ==> FreeInEnum(d) !! names)
    && (forall d :: d in mod.externs ==> FreeInExtern(d) !! names)
    && (forall d :: d in mod.functions ==> FreeInFunction(d) !! names)
    && (forall d :: d in mod.impls ==> FreeInImpl(d) !! names)
  }

  predicate ClosedImport(imp: Import) {
    FreeInBindings(imp.wire) == {}
  }

  lemma {:induction false} FunctionIsFree(fn: Function, wires: WireMap)
    requires ClosedMap(wires) && SubFunction(fn, wires, {}).Some?
    ensures FreeInFunction(SubFunction(fn, wires, {}).value) !! wires.Keys
  {
    FunctionIsWired(fn, wires, {});
    ClosedBringsNothing(FreeInFunction(fn) - {}, wires);
  }

  lemma {:induction false} ImplIsFree(d: ImplDef, wires: WireMap)
    requires ClosedMap(wires) && SubImpl(d, wires).Some?
    ensures FreeInImpl(SubImpl(d, wires).value) !! wires.Keys
  {
    ImplIsWired(d, wires);
    ClosedBringsNothing(TypeNames(d.forType) - Own(d.typeParams), wires);
    ClosedBringsNothingIntoAll(d.methods, wires, Own(d.typeParams));
  }

  lemma {:induction false} RewiredIsFree(mod: Module, wires: WireMap)
    requires ClosedMap(wires) && Rewired(mod, wires).Some?
    ensures FreeOf(Rewired(mod, wires).value, wires.Keys)
  {
    var r := Rewired(mod, wires).value;
    forall i | 0 <= i < |mod.structs| ensures FreeInStruct(r.structs[i]) !! wires.Keys {
      StructIsWired(mod.structs[i], wires);
      ClosedBringsNothing(FreeInStruct(mod.structs[i]), wires);
    }
    forall i | 0 <= i < |mod.enums| ensures FreeInEnum(r.enums[i]) !! wires.Keys {
      EnumIsWired(mod.enums[i], wires);
      ClosedBringsNothing(FreeInEnum(mod.enums[i]), wires);
    }
    forall i | 0 <= i < |mod.externs| ensures FreeInExtern(r.externs[i]) !! wires.Keys {
      ExternIsWired(mod.externs[i], wires);
      ClosedBringsNothing(FreeInExtern(mod.externs[i]), wires);
    }
    forall i | 0 <= i < |mod.functions| ensures FreeInFunction(r.functions[i]) !! wires.Keys {
      FunctionIsFree(mod.functions[i], wires);
    }
    forall i | 0 <= i < |mod.impls| ensures FreeInImpl(r.impls[i]) !! wires.Keys {
      ImplIsFree(mod.impls[i], wires);
    }
  }

  lemma {:induction false} ImportsAreForwarded(imports: seq<Import>, wires: WireMap)
    requires ClosedMap(wires) && forall i :: i in imports ==> FreeInBindings(i.wire) <= wires.Keys
    ensures forall i :: i in Each(imports, OnImport(wires)) ==> ClosedImport(i)
  {
    forall i | 0 <= i < |imports| ensures ClosedImport(SubImport(imports[i], wires)) {
      BindingsAreWired(imports[i].wire, wires);
      ClosedBringsNothing(FreeInBindings(imports[i].wire) - {}, wires);
    }
  }

  // ---------- Applying the wires of one import ----------

  /** A repeated binding wins over the earlier one. */
  function WireMapOf(bs: seq<WireBinding>): WireMap {
    if bs == [] then map[]
    else WireMapOf(bs[..|bs| - 1])[bs[|bs| - 1].name := bs[|bs| - 1].ty]
  }

  /** The first binding whose right side is still a bare name. */
  function FirstUnresolved(bs: seq<WireBinding>, from: nat): (b: Option<WireBinding>)
    requires from <= |bs|
    ensures b.Some? ==> b.value in bs && b.value.ty.TypeParamRef?
    ensures b.None? ==> forall i :: from <= i < |bs| ==> !bs[i].ty.TypeParamRef?
    decreases |bs| - from
  {
    if from == |bs| then None
    else if bs[from].ty.TypeParamRef? then Some(bs[from])
    else FirstUnresolved(bs, from + 1)
  }

  function Wired(mod: Module, imp: Import): Result<Module, ImportError> {
    var unresolved := FirstUnresolved(imp.wire, 0);
    if unresolved.Some? then
      Err(UnresolvedWire(imp.name, unresolved.value.name, unresolved.value.ty.name))
    else
      var wires, names := WireMapOf(imp.wire), Elements(mod.wirables);
      if names - wires.Keys != {} then Err(MissingWires(imp.name, names - wires.Keys))
      else if wires.Keys - names != {} then Err(UnknownWires(imp.name, wires.Keys - names))
      else match Rewired(mod, wires) {
        case None => Err(UnhandledNode(imp.name))
        case Some(r) => Ok(r)
      }
  }

  lemma {:induction false} ClosedBindings(bs: seq<WireBinding>)
    requires FreeInBindings(bs) == {}
    ensures ClosedMap(WireMapOf(bs)) && FirstUnresolved(bs, 0).None?
    ensures forall i :: 0 <= i < |bs| ==> Closed(bs[i].ty)
  {
    EveryBindingClosed(bs);
    forall w | w in WireMapOf(bs) ensures Closed(WireMapOf(bs)[w]) {
      var i := WireMapValue(bs, w);
    }
  }

  lemma {:induction false} EveryBindingClosed(bs: seq<WireBinding>)
    requires FreeInBindings(bs) == {}
    ensures forall i :: 0 <= i < |bs| ==> Closed(bs[i].ty)
  {
    if bs != [] {
      assert TypeNames(bs[0].ty) <= FreeInBindings(bs) && FreeInBindings(bs[1..]) <= FreeInBindings(bs);
      EveryBindingClosed(bs[1..]);
      assert forall i :: 1 <= i < |bs| ==> bs[i] == bs[1..][i - 1];
    }
  }

  lemma {:induction false} WireMapValue(bs: seq<WireBinding>, w: string) returns (i: nat)
    requires w in WireMapOf(bs)
    ensures i < |bs| && WireMapOf(bs)[w] == bs[i].ty
  {
    i := |bs| - 1;
    if w != bs[i].name {
      i := WireMapValue(bs[..|bs| - 1], w);
    }
  }

  /**
   * Closed wires never hit the unresolved-wire error; what they yield has no free
   * wirable left, and its own imports are closed if they mention only wirables.
   */
  lemma {:induction false} ClosedWiresApply(mod: Module, imp: Import)
    requires ClosedImport(imp)
    requires forall i :: i in mod.imports ==> FreeInBindings(i.wire) <= Elements(mod.wirables)
    ensures var r := Wired(mod, imp);
            && (r.Err? ==> !r.error.UnresolvedWire?)
            && (r.Ok? ==> && FreeOf(r.value, Elements(mod.wirables))
                               && r.value.wirables == []
                               && forall i :: i in r.value.imports ==> ClosedImport(i))
  {
    ClosedBindings(imp.wire);
    var wires := WireMapOf(imp.wire);
    if Wired(mod, imp).Ok? {
      assert wires.Keys == Elements(mod.wirables);
      RewiredIsFree(mod, wires);
      ImportsAreForwarded(mod.imports, wires);
    }
  }

  lemma {:induction false} OpenBindings(bs: seq<WireBinding>)
    ensures FreeInBindings(bs) != {} <==> exists i :: 0 <= i < |bs| && TypeNames(bs[i].ty) != {}
  {
    if bs != [] {
      OpenBindings(bs[1..]);
      assert forall i :: 1 <= i < |bs| ==> bs[i] == bs[1..][i - 1];
    }
  }

  lemma {:induction false} UnresolvedExactly(bs: seq<WireBinding>, from: nat)
    requires from <= |bs|
    ensures FirstUnresolved(bs, from).Some? <==> exists i :: from <= i < |bs| && bs[i].ty.TypeParamRef?
    decreases |bs| - from
  {
    if from < |bs| {
      UnresolvedExactly(bs, from + 1);
    }
  }

  /**
   * Wires that match the wirables and still mention a name are applied without an error
   * exactly when none of them is a bare name and some type holds one.
   */
  lemma {:induction false} OpenWiresPassExactly(mod: Module, imp: Import)
    requires WireMapOf(imp.wire).Keys == Elements(mod.wirables) && Rewired(mod, WireMapOf(imp.wire)).Some?
    ensures Wired(mod, imp).Ok? && !ClosedImport(imp) <==>
            && (forall i :: 0 <= i < |imp.wire| ==> !imp.wire[i].ty.TypeParamRef?)
            && (exists i :: 0 <= i < |imp.wire| && TypeNames(imp.wire[i].ty) != {})
  {
    UnresolvedExactly(imp.wire, 0);
    OpenBindings(imp.wire);
  }

  /** No free names but these. */
  predicate StructsWithin(ds: seq<StructDef>, names: set<string>) {
    forall i :: 0 <= i < |ds| ==> FreeInStruct(ds[i]) <= names
  }

  predicate EnumsWithin(ds: seq<EnumDef>, names: set<string>) {
    forall i :: 0 <= i < |ds| ==> FreeInEnum(ds[i]) <= names
  }

  predicate ExternsWithin(ds: seq<ExternFunction>, names: set<string>) {
    forall i :: 0 <= i < |ds| ==> FreeInExtern(ds[i]) <= names
  }

  predicate FunctionsWithin(ds: seq<Function>, names: set<string>) {
    forall i :: 0 <= i < |ds| ==> FreeInFunction(ds[i]) <= names
  }

  predicate ImplsWithin(ds: seq<ImplDef>, names: set<string>) {
    forall i :: 0 <= i < |ds| ==> FreeInImpl(ds[i]) <= names
  }

  predicate DefsWithin(mod: Module, names: set<string>) {
    && StructsWithin(mod.structs, names)
    && EnumsWithin(mod.enums, names)
    && ExternsWithin(mod.externs, names)
    && FunctionsWithin(mod.functions, names)
    && ImplsWithin(mod.impls, names)
  }

  /** Own type parameters and wirables are all the names that the module uses. */
  predicate WellScoped(mod: Module) {
    DefsWithin(mod, Elements(mod.wirables))
  }

  /** No wire that a definition uses unshielded brings a name that the definition does not bind. */
  predicate StructsBringNothing(ds: seq<StructDef>, wires: WireMap) {
    forall i :: 0 <= i < |ds| ==> Brought(FreeInStruct(ds[i]), wires) <= Own(ds[i].typeParams)
  }

  predicate EnumsBringNothing(ds: seq<EnumDef>, wires: WireMap) {
    forall i :: 0 <= i < |ds| ==> Brought(FreeInEnum(ds[i]), wires) <= Own(ds[i].typeParams)
  }

  predicate ExternsBringNothing(ds: seq<ExternFunction>, wires: WireMap) {
    forall i :: 0 <= i < |ds| ==> Brought(FreeInExtern(ds[i]), wires) == {}
  }

  predicate FunctionsBringNothing(ds: seq<Function>, wires: WireMap) {
    forall i :: 0 <= i < |ds| ==> BroughtInto(ds[i], wires, {}) == {}
  }

  predicate ImplsBringNothing(ds: seq<ImplDef>, wires: WireMap) {
    forall i :: 0 <= i < |ds| ==> BroughtIntoImpl(ds[i], wires) == {}
  }

  predicate BringsNothing(mod: Module, wires: WireMap) {
    && StructsBringNothing(mod.structs, wires)
    && EnumsBringNothing(mod.enums, wires)
    && ExternsBringNothing(mod.externs, wires)
    && FunctionsBringNothing(mod.functions, wires)
    && ImplsBringNothing(mod.impls, wires)
  }

  lemma {:induction false} StructsClosedExactly(ds: seq<StructDef>, wires: WireMap)
    requires StructsWithin(ds, wires.Keys)
    ensures StructsWithin(Each(ds, OnStruct(wires)), {}) <==> StructsBringNothing(ds, wires)
  {
    var r := Each(ds, OnStruct(wires));
    forall i | 0 <= i < |ds| ensures FreeInStruct(r[i]) <= {} <==> Brought(FreeInStruct(ds[i]), wires) <= Own(ds[i].typeParams) {
      StructIsWired(ds[i], wires);
    }
  }

  lemma {:induction false} EnumsClosedExactly(ds: seq<EnumDef>, wires: WireMap)
    requires EnumsWithin(ds, wires.Keys)
    ensures EnumsWithin(Each(ds, OnEnum(wires)), {}) <==> EnumsBringNothing(ds, wires)
  {
    var r := Each(ds, OnEnum(wires));
    forall i | 0 <= i < |ds| ensures FreeInEnum(r[i]) <= {} <==> Brought(FreeInEnum(ds[i]), wires) <= Own(ds[i].typeParams) {
      EnumIsWired(ds[i], wires);
    }
  }

  lemma {:induction false} ExternsClosedExactly(ds: seq<ExternFunction>, wires: WireMap)
    requires ExternsWithin(ds, wires.Keys)
    ensures ExternsWithin(Each(ds, OnExtern(wires)), {}) <==> ExternsBringNothing(ds, wires)
  {
    var r := Each(ds, OnExtern(wires));
    forall i | 0 <= i < |ds| ensures FreeInExtern(r[i]) <= {} <==> Brought(FreeInExtern(ds[i]), wires) == {} {
      ExternIsWired(ds[i], wires);
    }
  }

  lemma {:induction false} FunctionsClosedExactly(ds: seq<Function>, wires: WireMap)
    requires EachOrNone(ds, OnFunction(wires, {})).Some?
    requires FunctionsWithin(ds, wires.Keys)
    ensures FunctionsWithin(EachOrNone(ds, OnFunction(wires, {})).value, {}) <==> FunctionsBringNothing(ds, wires)
  {
    var r := EachOrNone(ds, OnFunction(wires, {})).value;
    forall i | 0 <= i < |ds| ensures FreeInFunction(r[i]) <= {} <==> BroughtInto(ds[i], wires, {}) == {} {
      FunctionIsWired(ds[i], wires, {});
    }
  }

  lemma {:induction false} ImplsClosedExactly(ds: seq<ImplDef>, wires: WireMap)
    requires EachOrNone(ds, OnImpl(wires)).Some?
    requires ImplsWithin(ds, wires.Keys)
    ensures ImplsWithin(EachOrNone(ds, OnImpl(wires)).value, {}) <==> ImplsBringNothing(ds, wires)
  {
    var r := EachOrNone(ds, OnImpl(wires)).value;
    forall i | 0 <= i < |ds| ensures FreeInImpl(r[i]) <= {} <==> BroughtIntoImpl(ds[i], wires) == {} {
      ImplIsWired(ds[i], wires);
    }
  }

  lemma {:induction false} RewiredClosedExactly(mod: Module, wires: WireMap)
    requires DefsWithin(mod, wires.Keys) && Rewired(mod, wires).Some?
    ensures DefsWithin(Rewired(mod, wires).value, {}) <==> BringsNothing(mod, wires)
  {
    var r := Rewired(mod, wires).value;
    assert r.structs == Each(mod.structs, OnStruct(wires)) && r.enums == Each(mod.enums, OnEnum(wires));
    assert r.externs == Each(mod.externs, OnExtern(wires));
    assert Some(r.functions) == EachOrNone(mod.functions, OnFunction(wires, {}));
    assert Some(r.impls) == EachOrNone(mod.impls, OnImpl(wires));
    StructsClosedExactly(mod.structs, wires);
    EnumsClosedExactly(mod.enums, wires);
    ExternsClosedExactly(mod.externs, wires);
    FunctionsClosedExactly(mod.functions, wires);
    ImplsClosedExactly(mod.impls, wires);
  }

  /**
   * When a well-scoped module is merged, all its definitions come out closed exactly when
   * no wire brings a foreign name into a place where it is not bound.
   */
  lemma {:induction false} MergedClosedExactly(mod: Module, imp: Import)
    requires WellScoped(mod) && Wired(mod, imp).Ok?
    ensures DefsWithin(Wired(mod, imp).value, {}) <==> BringsNothing(mod, WireMapOf(imp.wire))
  {
    var wires := WireMapOf(imp.wire);
    assert wires.Keys == Elements(mod.wirables);
    assert Rewired(mod, wires) == Some(Wired(mod, imp).value);
    RewiredClosedExactly(mod, wires);
  }

  /**
   * The check for unresolved wires looks at the outermost node only: a name inside a
   * type argument passes and ends up free in the merged module.
   */
  lemma {:induction false} NestedWireGap(w: string, name: string)
    ensures var field := Param("x", TypeParamRef(w));
            var mod := Module([w], [], [], [StructDef("S", [], [field])], [], [], [], [], []);
            var imp := Import("m", [WireBinding(w, StructType("Box", [TypeParamRef(name)]))]);
            && FirstUnresolved(imp.wire, 0).None?
            && Wired(mod, imp).Ok?
            && FreeInStruct(Wired(mod, imp).value.structs[0]) == {name}
  {
    var target := StructType("Box", [TypeParamRef(name)]);
    var field := Param("x", TypeParamRef(w));
    var d := StructDef("S", [], [field]);
    var mod := Module([w], [], [], [d], [], [], [], [], []);
    var bs := [WireBinding(w, target)];
    assert bs[1..] == [] && bs[..0] == [];
    assert WireMapOf(bs) == map[w := target] by {
      assert WireMapOf(bs[..0]) == map[];
    }
    assert Own([]) == {};
    assert Elements([w]) == {w};
    assert SubParams([field], Wiring(WireMapOf(bs), {})) == [Param("x", target)];
    var d' := SubStruct(d, WireMapOf(bs));
    assert d'.fields == [Param("x", target)];
    assert [TypeParamRef(name)][1..] == [];
    assert AllTypeNames([TypeParamRef(name)]) == {name};
    assert d'.fields[1..] == [];
    assert ParamNamesFree([]) == {};
    assert ParamNamesFree(d'.fields) == {name};
    assert FreeInStruct(d') == {name};
  }

  // ---------- The passes as the resolver runs them ----------

  /** Methods of an impl come with the impl's own type parameters, which shield them too. */
  method RewriteFunctions(fns: seq<Function>, wires: WireMap, banned: set<string>) returns (r: Option<seq<Function>>)
    ensures r == EachOrNone(fns, OnFunction(wires, banned))
  {
    var rewritten: seq<Function> := [];
    ghost var all := EachOrNone(fns, OnFunction(wires, banned));
    assert fns[0..] == fns && (all.Some? ==> [] + all.value == all.value);
    for i := 0 to |fns|
      invariant all == Prepend(rewritten, EachOrNone(fns[i..], OnFunction(wires, banned)))
    {
      PrependStep(rewritten, fns, i, OnFunction(wires, banned));
      var fn := SubFunction(fns[i], wires, banned);
      if fn.None? {
        return None;
      }
      rewritten := rewritten + [fn.value];
    }
    assert rewritten + [] == rewritten;
    r := Some(rewritten);
  }

  method RewriteImpl(d: ImplDef, wires: WireMap) returns (r: Option<ImplDef>)
    ensures r == SubImpl(d, wires)
  {
    var own := Own(d.typeParams);
    var methods := RewriteFunctions(d.methods, wires, own);
    if methods.None? {
      return None;
    }
    r := Some(d.(forType := SubType(d.forType, wires, own), methods := methods.value));
  }

  method RewriteImpls(impls: seq<ImplDef>, wires: WireMap) returns (r: Option<seq<ImplDef>>)
    ensures r == EachOrNone(impls, OnImpl(wires))
  {
    var rewritten: seq<ImplDef> := [];
    ghost var all := EachOrNone(impls, OnImpl(wires));
    assert impls[0..] == impls && (all.Some? ==> [] + all.value == all.value);
    for i := 0 to |impls|
      invariant all == Prepend(rewritten, EachOrNone(impls[i..], OnImpl(wires)))
    {
      PrependStep(rewritten, impls, i, OnImpl(wires));
      var d := RewriteImpl(impls[i], wires);
      if d.None? {
        return None;
      }
      rewritten := rewritten + [d.value];
    }
    assert rewritten + [] == rewritten;
    r := Some(rewritten);
  }

  method SubstituteWirables(mod: Module, wires: WireMap) returns (r: Option<Module>)
    ensures r == Rewired(mod, wires)
  {
    var structs: seq<StructDef> := [];
    for i := 0 to |mod.structs|
      invariant |structs| == i && forall j :: 0 <= j < i ==> structs[j] == SubStruct(mod.structs[j], wires)
    {
      structs := structs + [SubStruct(mod.structs[i], wires)];
    }
    var enums: seq<EnumDef> := [];
    for i := 0 to |mod.enums|
      invariant |enums| == i && forall j :: 0 <= j < i ==> enums[j] == SubEnum(mod.enums[j], wires)
    {
      enums := enums + [SubEnum(mod.enums[i], wires)];
    }
    assert structs == Each(mod.structs, OnStruct(wires)) && enums == Each(mod.enums, OnEnum(wires));
    var functions := RewriteFunctions(mod.functions, wires, {});
    if functions.None? {
      return None;
    }
    var impls := RewriteImpls(mod.impls, wires);
    if impls.None? {
      return None;
    }
    var externs := RewriteExterns(mod.externs, wires);
    var imports := RewriteImports(mod.imports, wires);
    r := Some(Module([], imports, mod.constants, structs, enums, externs, functions.value, mod.traits, impls.value));
  }

  method RewriteExterns(externs: seq<ExternFunction>, wires: WireMap) returns (r: seq<ExternFunction>)
    ensures r == Each(externs, OnExtern(wires))
  {
    r := [];
    for i := 0 to |externs|
      invariant |r| == i && forall j :: 0 <= j < i ==> r[j] == SubExtern(externs[j], wires)
    {
      r := r + [SubExtern(externs[i], wires)];
    }
  }

  method RewriteImports(imports: seq<Import>, wires: WireMap) returns (r: seq<Import>)
    ensures r == Each(imports, OnImport(wires))
  {
    r := [];
    for i := 0 to |imports|
      invariant |r| == i && forall j :: 0 <= j < i ==> r[j] == SubImport(imports[j], wires)
    {
      r := r + [if imports[i].wire != [] then SubImport(imports[i], wires) else imports[i]];
    }
  }

  method ApplyWires(mod: Module, imp: Import) returns (r: Result<Module, ImportError>)
    ensures r == Wired(mod, imp)
  {
    var wires: WireMap := map[];
    for i := 0 to |imp.wire|
      invariant FirstUnresolved(imp.wire, 0) == FirstUnresolved(imp.wire, i)
      invariant wires == WireMapOf(imp.wire[..i])
    {
      assert imp.wire[..i + 1][..i] == imp.wire[..i];
      var w := imp.wire[i];
      if w.ty.TypeParamRef? {
        return Err(UnresolvedWire(imp.name, w.name, w.ty.name));
      }
      wires := wires[w.name := w.ty];
    }
    assert imp.wire[..|imp.wire|] == imp.wire;
    var names := Elements(mod.wirables);
    if names - wires.Keys != {} {
      return Err(MissingWires(imp.name, names - wires.Keys));
    }
    if wires.Keys - names != {} {
      return Err(UnknownWires(imp.name, wires.Keys - names));
    }
    var rewired := SubstituteWirables(mod, wires);
    r := if rewired.None? then Err(UnhandledNode(imp.name)) else Ok(rewired.value);
  }
}
