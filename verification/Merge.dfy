/**
 * Merging a newly ingested program into an existing one: new structure wins by name,
 * existing claims survive where their target still exists.
 */
module Merge {
  import opened Wrappers
  import opened QuodTree
  import opened Relations
  import opened FirstWins
  import opened Dictionary
  import Wires

  // ---------- Reconciling claims ----------

  datatype Warning =
    | ParamRemoved(qualifier: string, function_: string, param: string)
    | ParamRetyped(qualifier: string, function_: string, param: string, ty: Type)
    | ReturnRetyped(qualifier: string, function_: string, ty: Type)
    | ExternReturnRetyped(extern_: string, ty: Type)

  function PredicateParams(e: Expr): set<string> {
    match e
    case Leaf(ParamRef(name)) => {name}
    case Unary(Not, x) => PredicateParams(x)
    case Binary(op, l, r) => if op.PtrOffset? then {} else PredicateParams(l) + PredicateParams(r)
    case _ => {}
  }

  predicate MentionsReturn(e: Expr) {
    match e
    case Leaf(ReturnRef) => true
    case Unary(Not, x) => MentionsReturn(x)
    case Binary(op, l, r) => !op.PtrOffset? && (MentionsReturn(l) || MentionsReturn(r))
    case _ => false
  }

  /** The predicate is about this one parameter. */
  predicate IsAbout(c: Claim, param: string) {
    !MentionsReturn(c.expr) && PredicateParams(c.expr) == {param}
  }

  /** The sole parameter of a claim's predicate. */
  function ClaimParam(c: Claim): (p: Option<string>)
    ensures p.Some? ==> IsAbout(c, p.value)
    ensures p.None? ==> forall x :: !IsAbout(c, x)
  {
    var params := PredicateParams(c.expr);
    if MentionsReturn(c.expr) || |params| != 1 then None
    else
      SingletonHasOne(params);
      var x :| x in params;
      Some(x)
  }

  lemma {:induction false} SingletonHasOne(s: set<string>)
    requires |s| == 1
    ensures exists x :: s == {x}
    ensures forall x, y :: x in s && y in s ==> x == y
  {
    var x :| x in s;
    assert |s - {x}| == 0;
    assert s == {x};
  }

  function Exprs(claims: seq<Claim>): set<Expr> {
    set c | c in claims :: c.expr
  }

  /** The last parameter of a name, as in a dictionary keyed by name. */
  function ParamNamed(params: seq<Param>, name: string): Option<Param> {
    if params == [] then None
    else if params[|params| - 1].name == name then Some(params[|params| - 1])
    else ParamNamed(params[..|params| - 1], name)
  }

  datatype Fate = Subsumed | Kept | Dropped(warning: Warning)

  function FunctionFate(existing: Function, incoming: Function, qualifier: string, c: Claim): Fate {
    if c.expr in Exprs(incoming.claims) then Subsumed
    else match ClaimParam(c) {
      case Some(target) => (
        match ParamNamed(incoming.params, target)
        case None => Dropped(ParamRemoved(qualifier, existing.name, target))
        case Some(p) =>
          if IsIntType(p.ty) then Kept else Dropped(ParamRetyped(qualifier, existing.name, target, p.ty))
      )
      case None =>
        if IsIntType(incoming.returnType) then Kept
        else Dropped(ReturnRetyped(qualifier, existing.name, incoming.returnType))
    }
  }

  function ExternFate(existing: ExternFunction, incoming: ExternFunction, c: Claim): Fate {
    if c.expr in Exprs(incoming.claims) then Subsumed
    else if IsIntType(incoming.returnType) then Kept
    else Dropped(ExternReturnRetyped(existing.name, incoming.returnType))
  }

  function Survivors(claims: seq<Claim>, fate: Claim -> Fate): seq<Claim> {
    if claims == [] then []
    else
      var last := claims[|claims| - 1];
      Survivors(claims[..|claims| - 1], fate) + (if fate(last).Kept? then [last] else [])
  }

  function Warnings(claims: seq<Claim>, fate: Claim -> Fate): seq<Warning> {
    if claims == [] then []
    else
      var last := fate(claims[|claims| - 1]);
      Warnings(claims[..|claims| - 1], fate) + (if last.Dropped? then [last.warning] else [])
  }

  function SubsumedCount(claims: seq<Claim>, fate: Claim -> Fate): nat {
    if claims == [] then 0
    else SubsumedCount(claims[..|claims| - 1], fate) + (if fate(claims[|claims| - 1]).Subsumed? then 1 else 0)
  }

  function FateInFunction(existing: Function, incoming: Function, qualifier: string): Claim -> Fate {
    (c: Claim) => FunctionFate(existing, incoming, qualifier, c)
  }

  function FateInExtern(existing: ExternFunction, incoming: ExternFunction): Claim -> Fate {
    (c: Claim) => ExternFate(existing, incoming, c)
  }

  type Reconciler<!T> = (T, T) -> (T, seq<Warning>)

  function ReconcileFunctions(qualifier: string): Reconciler<Function> {
    (existing: Function, incoming: Function) =>
      var fate := FateInFunction(existing, incoming, qualifier);
      (incoming.(claims := incoming.claims + Survivors(existing.claims, fate)), Warnings(existing.claims, fate))
  }

  function ReconcileExterns(): Reconciler<ExternFunction> {
    (existing: ExternFunction, incoming: ExternFunction) =>
      var fate := FateInExtern(existing, incoming);
      (incoming.(claims := incoming.claims + Survivors(existing.claims, fate)), Warnings(existing.claims, fate))
  }

  /** Collections without claims: the new entry replaces the existing one. */
  function TakeNew<T>(): Reconciler<T> {
    (existing: T, incoming: T) => (incoming, [])
  }

  // ---------- Merging one collection ----------

  /** The merged item and the warnings for one existing entry. */
  function Reconciled<T, K(==)>(x: T, incoming: seq<T>, key: T -> K, reconcile: Reconciler<T>): (T, seq<Warning>) {
    match IndexOf(incoming, key, key(x))
    case None => (x, [])
    case Some(i) => reconcile(x, incoming[i])
  }

  function ReconciledAll<T, K(==)>(existing: seq<T>, incoming: seq<T>, key: T -> K, reconcile: Reconciler<T>): (r: seq<T>)
    ensures |r| == |existing|
    ensures forall i :: 0 <= i < |existing| ==> r[i] == Reconciled(existing[i], incoming, key, reconcile).0
  {
    if existing == [] then []
    else ReconciledAll(existing[..|existing| - 1], incoming, key, reconcile)
         + [Reconciled(existing[|existing| - 1], incoming, key, reconcile).0]
  }

  function AllWarnings<T, K(==)>(existing: seq<T>, incoming: seq<T>, key: T -> K, reconcile: Reconciler<T>): seq<Warning> {
    if existing == [] then []
    else AllWarnings(existing[..|existing| - 1], incoming, key, reconcile)
         + Reconciled(existing[|existing| - 1], incoming, key, reconcile).1
  }

  function NewOnly<T, K(==)>(existing: seq<T>, incoming: seq<T>, key: T -> K): seq<T> {
    if incoming == [] then []
    else
      var last := incoming[|incoming| - 1];
      NewOnly(existing, incoming[..|incoming| - 1], key)
      + (if IndexOf(existing, key, key(last)).None? then [last] else [])
  }

  /** Existing entries in their order, each reconciled with its new version, then the new-only ones. */
  function MergedItems<T, K(==)>(existing: seq<T>, incoming: seq<T>, key: T -> K, reconcile: Reconciler<T>): seq<T> {
    var e, n := ByName(existing, key), ByName(incoming, key);
    ReconciledAll(e, n, key, reconcile) + NewOnly(e, n, key)
  }

  function MergedWarnings<T, K(==)>(existing: seq<T>, incoming: seq<T>, key: T -> K, reconcile: Reconciler<T>): seq<Warning> {
    AllWarnings(ByName(existing, key), ByName(incoming, key), key, reconcile)
  }

  // ---------- Whole programs ----------

  datatype Program = Program(
    functions: seq<Function>,
    structured: seq<Function>,
    externs: seq<ExternFunction>,
    constants: seq<StringConstant>,
    structs: seq<StructDef>,
    enums: seq<EnumDef>,
    imports: seq<Wires.Import>,
    sourceUnits: seq<Unit>,
    binaryUnits: seq<Unit>,
    edges: seq<Edge>,
    equivalences: seq<Equivalence>,
    bindings: seq<SignatureBinding>)

  function FunctionName(fn: Function): string { fn.name }
  function ExternName(d: ExternFunction): string { d.name }
  function ConstantName(c: StringConstant): string { c.name }
  function StructName(d: StructDef): string { d.name }
  function EnumName(d: EnumDef): string { d.name }
  function ImportName(i: Wires.Import): string { i.name }
  function UnitPath(u: Unit): string { u.path }
  function EdgeKey(e: Edge): (string, string) { (e.source, e.target) }
  function BindingKey(b: SignatureBinding): (string, string, string) { (b.binFn, b.srcFn, b.abi) }

  function JustificationKey(j: Option<Justification>): seq<Option<string>> {
    match j
    case None => [Some("none")]
    case Some(FamilyLowering(rule, _, hash)) => [Some("family_lowering"), Some(rule), hash]
    case Some(LiftEquivalence(path, hash, _)) => [Some("lift_equivalence"), Some(path), Some(hash)]
    case Some(Manual(signedBy, _)) => [Some("manual"), Some(signedBy)]
    case Some(Z3(_, hash, bodyHash)) => [Some("z3"), Some(hash), Some(bodyHash)]
    case Some(DerivedBy(analysis, _)) => [Some("derived"), Some(analysis)]
    case Some(DecompileLift(textHash)) => [Some("decompile_lift"), Some(textHash)]
    case Some(OtherKind(kind)) => [Some(kind)]
  }

  function EquivalenceKey(e: Equivalence): (string, string, string, seq<Option<string>>) {
    (e.a, e.b, e.regime, JustificationKey(e.justification))
  }

  function Merged(e: Program, n: Program): Program {
    Program(
      MergedItems(e.functions, n.functions, FunctionName, ReconcileFunctions("")),
      MergedItems(e.structured, n.structured, FunctionName, ReconcileFunctions("structured ")),
      MergedItems(e.externs, n.externs, ExternName, ReconcileExterns()),
      MergedItems(e.constants, n.constants, ConstantName, TakeNew()),
      MergedItems(e.structs, n.structs, StructName, TakeNew()),
      MergedItems(e.enums, n.enums, EnumName, TakeNew()),
      AddNew(e.imports, n.imports, ImportName),
      MergedItems(e.sourceUnits, n.sourceUnits, UnitPath, TakeNew()),
      MergedItems(e.binaryUnits, n.binaryUnits, UnitPath, TakeNew()),
      AddNew([], e.edges + n.edges, EdgeKey),
      AddNew([], e.equivalences + n.equivalences, EquivalenceKey),
      AddNew([], e.bindings + n.bindings, BindingKey))
  }

  function ProgramWarnings(e: Program, n: Program): seq<Warning> {
    MergedWarnings(e.functions, n.functions, FunctionName, ReconcileFunctions(""))
    + MergedWarnings(e.structured, n.structured, FunctionName, ReconcileFunctions("structured "))
    + MergedWarnings(e.externs, n.externs, ExternName, ReconcileExterns())
  }

  // ---------- The loops ----------

  method ReconcileFunctionClaims(existing: Function, incoming: Function, qualifier: string)
    returns (claims: seq<Claim>, warnings: seq<Warning>)
    ensures (incoming.(claims := claims), warnings) == ReconcileFunctions(qualifier)(existing, incoming)
  {
    var exprs := Exprs(incoming.claims);
    claims, warnings := incoming.claims, [];
    ghost var fate := FateInFunction(existing, incoming, qualifier);
    for i := 0 to |existing.claims|
      invariant claims == incoming.claims + Survivors(existing.claims[..i], fate)
      invariant warnings == Warnings(existing.claims[..i], fate)
    {
      assert existing.claims[..i + 1][..i] == existing.claims[..i];
      var c := existing.claims[i];
      if c.expr in exprs {
        continue;
      }
      var target := ClaimParam(c);
      if target.Some? {
        var p := ParamNamed(incoming.params, target.value);
        if p.None? {
          warnings := warnings + [ParamRemoved(qualifier, existing.name, target.value)];
          continue;
        }
        if !IsIntType(p.value.ty) {
          warnings := warnings + [ParamRetyped(qualifier, existing.name, target.value, p.value.ty)];
          continue;
        }
      } else if !IsIntType(incoming.returnType) {
        warnings := warnings + [ReturnRetyped(qualifier, existing.name, incoming.returnType)];
        continue;
      }
      claims := claims + [c];
    }
    assert existing.claims[..|existing.claims|] == existing.claims;
  }

  method ReconcileExternClaims(existing: ExternFunction, incoming: ExternFunction)
    returns (claims: seq<Claim>, warnings: seq<Warning>)
    ensures (incoming.(claims := claims), warnings) == ReconcileExterns()(existing, incoming)
  {
    var exprs := Exprs(incoming.claims);
    claims, warnings := incoming.claims, [];
    ghost var fate := FateInExtern(existing, incoming);
    for i := 0 to |existing.claims|
      invariant claims == incoming.claims + Survivors(existing.claims[..i], fate)
      invariant warnings == Warnings(existing.claims[..i], fate)
    {
      assert existing.claims[..i + 1][..i] == existing.claims[..i];
      var c := existing.claims[i];
      if c.expr in exprs {
        continue;
      }
      if !IsIntType(incoming.returnType) {
        warnings := warnings + [ExternReturnRetyped(existing.name, incoming.returnType)];
        continue;
      }
      claims := claims + [c];
    }
    assert existing.claims[..|existing.claims|] == existing.claims;
  }

  method MergeNamedCollection<T, K(==)>(existing: seq<T>, incoming: seq<T>, key: T -> K, reconcile: Reconciler<T>)
    returns (merged: seq<T>, warnings: seq<Warning>)
    ensures merged == MergedItems(existing, incoming, key, reconcile)
    ensures warnings == MergedWarnings(existing, incoming, key, reconcile)
  {
    var e := CollectByName(existing, key);
    var n := CollectByName(incoming, key);
    merged, warnings := ReconcileExisting(e, n, key, reconcile);
    for i := 0 to |n|
      invariant merged == ReconciledAll(e, n, key, reconcile) + NewOnly(e, n[..i], key)
    {
      assert n[..i + 1][..i] == n[..i];
      if IndexOf(e, key, key(n[i])).None? {
        merged := merged + [n[i]];
      }
    }
    assert n[..|n|] == n;
  }

  method ReconcileExisting<T, K(==)>(e: seq<T>, n: seq<T>, key: T -> K, reconcile: Reconciler<T>)
    returns (merged: seq<T>, warnings: seq<Warning>)
    ensures merged == ReconciledAll(e, n, key, reconcile) && warnings == AllWarnings(e, n, key, reconcile)
  {
    merged, warnings := [], [];
    for i := 0 to |e|
      invariant merged == ReconciledAll(e[..i], n, key, reconcile)
      invariant warnings == AllWarnings(e[..i], n, key, reconcile)
    {
      assert e[..i + 1][..i] == e[..i];
      var found := IndexOf(n, key, key(e[i]));
      if found.None? {
        merged := merged + [e[i]];
      } else {
        var (item, w) := reconcile(e[i], n[found.value]);
        merged := merged + [item];
        warnings := warnings + w;
      }
    }
    assert e[..|e|] == e;
  }

  method MergeProgram(existing: Program, incoming: Program) returns (merged: Program, warnings: seq<Warning>)
    ensures merged == Merged(existing, incoming)
    ensures warnings == ProgramWarnings(existing, incoming)
  {
    var functions, w1 := MergeNamedCollection(existing.functions, incoming.functions, FunctionName, ReconcileFunctions(""));
    var structured, w2 :=
      MergeNamedCollection(existing.structured, incoming.structured, FunctionName, ReconcileFunctions("structured "));
    var externs, w3 := MergeNamedCollection(existing.externs, incoming.externs, ExternName, ReconcileExterns());
    var constants, _ := MergeNamedCollection(existing.constants, incoming.constants, ConstantName, TakeNew());
    var structs, _ := MergeNamedCollection(existing.structs, incoming.structs, StructName, TakeNew());
    var enums, _ := MergeNamedCollection(existing.enums, incoming.enums, EnumName, TakeNew());
    var imports, _ := AddAll(existing.imports, Keys(existing.imports, ImportName), incoming.imports, ImportName);
    var sourceUnits, _ := MergeNamedCollection(existing.sourceUnits, incoming.sourceUnits, UnitPath, TakeNew());
    var binaryUnits, _ := MergeNamedCollection(existing.binaryUnits, incoming.binaryUnits, UnitPath, TakeNew());
    var edges, _ := AddAll([], {}, existing.edges + incoming.edges, EdgeKey);
    var equivalences, _ := AddAll([], {}, existing.equivalences + incoming.equivalences, EquivalenceKey);
    var bindings, _ := AddAll([], {}, existing.bindings + incoming.bindings, BindingKey);
    merged := Program(functions, structured, externs, constants, structs, enums, imports, sourceUnits, binaryUnits,
                      edges, equivalences, bindings);
    warnings := w1 + w2 + w3;
  }
}
