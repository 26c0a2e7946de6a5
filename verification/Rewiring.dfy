/**
 * What a rewritten module keeps and what it changes, stated position by position: names,
 * order and everything else stay, and each type at a rewritten position has exactly its
 * unshielded wired names replaced.
 */
module Rewiring {
  import opened Wrappers
  import opened QuodTree
  import opened Substitution
  import opened Wires

  // ---------- Which type a name gets ----------

  /** The binding decides for its name: no later one has it. */
  predicate IsLast(bs: seq<WireBinding>, i: nat) {
    i < |bs| && forall j :: i < j < |bs| ==> bs[j].name != bs[i].name
  }

  lemma {:induction false} LastOf(bs: seq<WireBinding>, i: nat) returns (k: nat)
    requires i < |bs|
    ensures IsLast(bs, k) && bs[k].name == bs[i].name
    decreases |bs| - i
  {
    k := i;
    if j :| i < j < |bs| && bs[j].name == bs[i].name {
      k := LastOf(bs, j);
    }
  }

  lemma {:induction false} MapOfInit(bs: seq<WireBinding>, i: nat)
    requires IsLast(bs, i)
    ensures bs[i].name in WireMapOf(bs) && WireMapOf(bs)[bs[i].name] == bs[i].ty
    decreases |bs|
  {
    if i < |bs| - 1 {
      var init := bs[..|bs| - 1];
      assert forall j :: 0 <= j < |init| ==> init[j] == bs[j];
      MapOfInit(init, i);
    }
  }

  /** A wire map gives a name a type exactly when the name's last binding does. */
  lemma {:induction false} WireMapExactly(bs: seq<WireBinding>, name: string, t: Type)
    ensures (name in WireMapOf(bs) && WireMapOf(bs)[name] == t) <==>
            exists i :: 0 <= i < |bs| && IsLast(bs, i) && bs[i] == WireBinding(name, t)
  {
    if name in WireMapOf(bs) && WireMapOf(bs)[name] == t {
      var i := BindingOf(bs, name);
      var k := LastOf(bs, i);
      MapOfInit(bs, k);
      assert bs[k] == WireBinding(name, t);
    }
    if i :| 0 <= i < |bs| && IsLast(bs, i) && bs[i] == WireBinding(name, t) {
      MapOfInit(bs, i);
    }
  }

  lemma {:induction false} BindingOf(bs: seq<WireBinding>, name: string) returns (i: nat)
    requires name in WireMapOf(bs)
    ensures i < |bs| && bs[i].name == name
    decreases |bs|
  {
    i := |bs| - 1;
    if bs[i].name != name {
      i := BindingOf(bs[..|bs| - 1], name);
    }
  }

  // ---------- What a rewriting keeps ----------

  /** `u` is `t` with exactly the unshielded wired names replaced by their types. */
  predicate Replaced(t: Type, u: Type, wires: WireMap, banned: set<string>) {
    match t
    case TypeParamRef(name) => u == if name in wires && name !in banned then wires[name] else t
    case StructType(name, args) => u.StructType? && u.name == name && AllReplaced(args, u.typeArgs, wires, banned)
    case EnumType(name, args) => u.EnumType? && u.name == name && AllReplaced(args, u.typeArgs, wires, banned)
    case _ => u == t
  }

  predicate AllReplaced(ts: seq<Type>, us: seq<Type>, wires: WireMap, banned: set<string>) {
    |ts| == |us| && forall i :: 0 <= i < |ts| ==> Replaced(ts[i], us[i], wires, banned)
  }

  lemma {:induction false} SubTypeReplaces(t: Type, wires: WireMap, banned: set<string>)
    ensures Replaced(t, SubType(t, wires, banned), wires, banned)
  {
    match t {
      case StructType(_, args) => SubTypesReplace(args, wires, banned);
      case EnumType(_, args) => SubTypesReplace(args, wires, banned);
      case _ =>
    }
  }

  lemma {:induction false} SubTypesReplace(ts: seq<Type>, wires: WireMap, banned: set<string>)
    ensures AllReplaced(ts, SubTypes(ts, wires, banned), wires, banned)
  {
    if ts != [] {
      SubTypeReplaces(ts[0], wires, banned);
      SubTypesReplace(ts[1..], wires, banned);
      var us := SubTypes(ts, wires, banned);
      assert us[1..] == SubTypes(ts[1..], wires, banned);
    }
  }

  predicate ParamsReplaced(ps: seq<Param>, qs: seq<Param>, wires: WireMap, banned: set<string>) {
    |ps| == |qs| && forall i :: 0 <= i < |ps| ==> qs[i].name == ps[i].name && Replaced(ps[i].ty, qs[i].ty, wires, banned)
  }

  lemma {:induction false} SubParamsReplace(ps: seq<Param>, wires: WireMap, banned: set<string>)
    ensures ParamsReplaced(ps, SubParams(ps, Wiring(wires, banned)), wires, banned)
  {
    if ps != [] {
      SubTypeReplaces(ps[0].ty, wires, banned);
      SubParamsReplace(ps[1..], wires, banned);
      var qs := SubParams(ps, Wiring(wires, banned));
      assert qs[1..] == SubParams(ps[1..], Wiring(wires, banned));
    }
  }

  predicate StructReplaced(d: StructDef, e: StructDef, wires: WireMap) {
    e.name == d.name && e.typeParams == d.typeParams && ParamsReplaced(d.fields, e.fields, wires, Own(d.typeParams))
  }

  predicate EnumReplaced(d: EnumDef, e: EnumDef, wires: WireMap) {
    && e.name == d.name && e.typeParams == d.typeParams && |e.variants| == |d.variants|
    && forall i :: 0 <= i < |d.variants| ==>
        && e.variants[i].name == d.variants[i].name
        && ParamsReplaced(d.variants[i].fields, e.variants[i].fields, wires, Own(d.typeParams))
  }

  /** An extern has no type parameters of its own. */
  predicate ExternReplaced(d: ExternFunction, e: ExternFunction, wires: WireMap) {
    && e.name == d.name && e.varargs == d.varargs && e.linkage == d.linkage && e.claims == d.claims
    && AllReplaced(d.paramTypes, e.paramTypes, wires, {}) && Replaced(d.returnType, e.returnType, wires, {})
  }

  function Blank(t: Type): Type {
    Void
  }

  /** Bodies with the same tree, whatever types they hold. */
  ghost predicate SameTree(ss: seq<Stmt>, rs: seq<Stmt>) {
    SubstStmts(ss, Blank).Some? && SubstStmts(rs, Blank) == SubstStmts(ss, Blank)
  }

  /** Own type parameters shield, and so do those of the impl around a method. */
  ghost predicate FunctionReplaced(fn: Function, gn: Function, wires: WireMap, banned: set<string>) {
    var shielded := banned + Own(fn.typeParams);
    && gn.id == fn.id && gn.name == fn.name && gn.typeParams == fn.typeParams
    && gn.claims == fn.claims && gn.notes == fn.notes
    && ParamsReplaced(fn.params, gn.params, wires, shielded) && Replaced(fn.returnType, gn.returnType, wires, shielded)
    && SameTree(fn.body, gn.body) && AllReplaced(Types(fn.body), Types(gn.body), wires, shielded)
  }

  ghost predicate ImplReplaced(d: ImplDef, e: ImplDef, wires: WireMap) {
    && e.(forType := d.forType, methods := d.methods) == d
    && Replaced(d.forType, e.forType, wires, Own(d.typeParams))
    && |e.methods| == |d.methods|
    && forall i :: 0 <= i < |d.methods| ==> FunctionReplaced(d.methods[i], e.methods[i], wires, Own(d.typeParams))
  }

  predicate ImportReplaced(imp: Import, jmp: Import, wires: WireMap) {
    && jmp.name == imp.name && |jmp.wire| == |imp.wire|
    && forall i :: 0 <= i < |imp.wire| ==>
        jmp.wire[i].name == imp.wire[i].name && Replaced(imp.wire[i].ty, jmp.wire[i].ty, wires, {})
  }

  /** The same definitions in the same order; only types change. */
  ghost predicate ModuleReplaced(mod: Module, r: Module, wires: WireMap) {
    && r.wirables == [] && r.constants == mod.constants && r.traits == mod.traits
    && |r.imports| == |mod.imports| && |r.structs| == |mod.structs| && |r.enums| == |mod.enums|
    && |r.externs| == |mod.externs| && |r.functions| == |mod.functions| && |r.impls| == |mod.impls|
    && (forall i :: 0 <= i < |mod.imports| ==> ImportReplaced(mod.imports[i], r.imports[i], wires))
    && (forall i :: 0 <= i < |mod.structs| ==> StructReplaced(mod.structs[i], r.structs[i], wires))
    && (forall i :: 0 <= i < |mod.enums| ==> EnumReplaced(mod.enums[i], r.enums[i], wires))
    && (forall i :: 0 <= i < |mod.externs| ==> ExternReplaced(mod.externs[i], r.externs[i], wires))
    && (forall i :: 0 <= i < |mod.functions| ==> FunctionReplaced(mod.functions[i], r.functions[i], wires, {}))
    && (forall i :: 0 <= i < |mod.impls| ==> ImplReplaced(mod.impls[i], r.impls[i], wires))
  }

  // ---------- Proofs ----------

  lemma {:induction false} VariantsReplace(vs: seq<EnumVariant>, wires: WireMap, banned: set<string>)
    ensures var us := SubVariants(vs, Wiring(wires, banned));
            |us| == |vs| && forall i :: 0 <= i < |vs| ==>
              us[i].name == vs[i].name && ParamsReplaced(vs[i].fields, us[i].fields, wires, banned)
  {
    if vs != [] {
      SubParamsReplace(vs[0].fields, wires, banned);
      VariantsReplace(vs[1..], wires, banned);
      assert SubVariants(vs, Wiring(wires, banned))[1..] == SubVariants(vs[1..], Wiring(wires, banned));
    }
  }

  lemma {:induction false} ExternReplaces(d: ExternFunction, wires: WireMap)
    ensures ExternReplaced(d, SubExtern(d, wires), wires)
  {
    EachIsSubTypes(d.paramTypes, wires, {});
    SubTypesReplace(d.paramTypes, wires, {});
    SubTypeReplaces(d.returnType, wires, {});
  }

  /** A rewritten body has the same tree. */
  lemma {:induction false} TreeStays(ss: seq<Stmt>, f: TypeFn)
    requires SubstStmts(ss, f).Some?
    ensures SameTree(ss, SubstStmts(ss, f).value)
  {
    Substitutes(ss, f);
    Substitutes(ss, Blank);
    AgreeOnEach(Types(ss), f, Blank, Blank);
    Laws(ss, f, Blank, Blank);
  }

  lemma {:induction false} FunctionReplaces(fn: Function, wires: WireMap, banned: set<string>)
    requires SubFunction(fn, wires, banned).Some?
    ensures FunctionReplaced(fn, SubFunction(fn, wires, banned).value, wires, banned)
  {
    var shielded := banned + Own(fn.typeParams);
    var f := Wiring(wires, shielded);
    SubParamsReplace(fn.params, wires, shielded);
    SubTypeReplaces(fn.returnType, wires, shielded);
    TreeStays(fn.body, f);
    Substitutes(fn.body, f);
    TypesAreMapped(fn.body, f);
    EachIsSubTypes(Types(fn.body), wires, shielded);
    SubTypesReplace(Types(fn.body), wires, shielded);
  }

  lemma {:induction false} ImplReplaces(d: ImplDef, wires: WireMap)
    requires SubImpl(d, wires).Some?
    ensures ImplReplaced(d, SubImpl(d, wires).value, wires)
  {
    var own, e := Own(d.typeParams), SubImpl(d, wires).value;
    SubTypeReplaces(d.forType, wires, own);
    forall i | 0 <= i < |d.methods| ensures FunctionReplaced(d.methods[i], e.methods[i], wires, own) {
      assert OnFunction(wires, own)(d.methods[i]) == Some(e.methods[i]);
      FunctionReplaces(d.methods[i], wires, own);
    }
  }

  lemma {:induction false} ImportReplaces(imp: Import, wires: WireMap)
    ensures ImportReplaced(imp, SubImport(imp, wires), wires)
  {
    BindingsReplace(imp.wire, wires);
  }

  lemma {:induction false} BindingsReplace(bs: seq<WireBinding>, wires: WireMap)
    ensures var cs := SubBindings(bs, wires);
            |cs| == |bs| && forall i :: 0 <= i < |bs| ==> cs[i].name == bs[i].name && Replaced(bs[i].ty, cs[i].ty, wires, {})
  {
    if bs != [] {
      SubTypeReplaces(bs[0].ty, wires, {});
      BindingsReplace(bs[1..], wires);
      assert SubBindings(bs, wires)[1..] == SubBindings(bs[1..], wires);
    }
  }

  /** Nothing is lost, added, renamed or reordered, and each name gets its type. */
  lemma {:induction false} RewiredKeeps(mod: Module, wires: WireMap)
    requires Rewired(mod, wires).Some?
    ensures ModuleReplaced(mod, Rewired(mod, wires).value, wires)
  {
    var r := Rewired(mod, wires).value;
    forall i | 0 <= i < |mod.imports| ensures ImportReplaced(mod.imports[i], r.imports[i], wires) {
      ImportReplaces(mod.imports[i], wires);
    }
    forall i | 0 <= i < |mod.structs| ensures StructReplaced(mod.structs[i], r.structs[i], wires) {
      SubParamsReplace(mod.structs[i].fields, wires, Own(mod.structs[i].typeParams));
    }
    forall i | 0 <= i < |mod.enums| ensures EnumReplaced(mod.enums[i], r.enums[i], wires) {
      VariantsReplace(mod.enums[i].variants, wires, Own(mod.enums[i].typeParams));
    }
    forall i | 0 <= i < |mod.externs| ensures ExternReplaced(mod.externs[i], r.externs[i], wires) {
      ExternReplaces(mod.externs[i], wires);
    }
    forall i | 0 <= i < |mod.functions| ensures FunctionReplaced(mod.functions[i], r.functions[i], wires, {}) {
      assert OnFunction(wires, {})(mod.functions[i]) == Some(r.functions[i]);
      FunctionReplaces(mod.functions[i], wires, {});
    }
    forall i | 0 <= i < |mod.impls| ensures ImplReplaced(mod.impls[i], r.impls[i], wires) {
      assert OnImpl(wires)(mod.impls[i]) == Some(r.impls[i]);
      ImplReplaces(mod.impls[i], wires);
    }
  }
}
