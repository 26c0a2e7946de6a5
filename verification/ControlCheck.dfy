/**
 * The validator's control checks: break and continue need an enclosing loop, and a
 * match must have one arm for every variant of the enum its scrutinee is inferred to have.
 */
module ControlCheck {
  import opened Wrappers
  import opened QuodTree

  datatype Finding =
    | BreakOutsideLoop
    | ContinueOutsideLoop
    | WildcardBinds
    | DuplicateBinding(variant: string, name: string)
    | DuplicateArm(variant: string)
    | MultipleWildcards
    | NonExhaustive(enum: string, missing: set<string>)
    | ExtraArms(enum: string, extra: set<string>)
    | WrongArity(enum: string, variant: string)

  /** Names bound by one arm, with the payload type where it is known. */
  type Scope = map<string, Option<Type>>

  /** Declared enums, and type inference in the innermost-last stack of arm scopes. */
  datatype Env = Env(enums: map<string, EnumDef>, infer: (Expr, seq<Scope>) -> Option<Type>)

  // ---------- What the checks report ----------

  function FindVariant(variants: seq<EnumVariant>, name: string): (v: Option<EnumVariant>)
    ensures v.Some? <==> exists i :: 0 <= i < |variants| && variants[i].name == name
    ensures v.Some? ==> v.value.name == name
  {
    if variants == [] then None
    else if variants[0].name == name then Some(variants[0])
    else FindVariant(variants[1..], name)
  }

  /** The declared enum of a scrutinee, when it can be told. */
  function ScrutineeEnum(env: Env, e: Expr, scopes: seq<Scope>): Option<EnumDef> {
    match env.infer(e, scopes)
    case Some(EnumType(name, _)) => if name in env.enums then Some(env.enums[name]) else None
    case _ => None
  }

  /** The first `n` bindings with the payload types at their positions; a later duplicate wins. */
  function PayloadTypes(bindings: seq<string>, fields: seq<Param>, n: nat): Scope
    requires n <= |bindings| && n <= |fields|
  {
    if n == 0 then map[] else PayloadTypes(bindings, fields, n - 1)[bindings[n - 1] := Some(fields[n - 1].ty)]
  }

  function TypedScope(enum: Option<EnumDef>, arm: MatchArm): Scope {
    if enum.None? || arm.variant == "_" then map[]
    else match FindVariant(enum.value.variants, arm.variant) {
      case None => map[]
      case Some(v) =>
        PayloadTypes(arm.bindings, v.fields, if |arm.bindings| <= |v.fields| then |arm.bindings| else |v.fields|)
    }
  }

  function Untyped(bindings: seq<string>, typed: Scope): Scope {
    map b | b in bindings && b !in typed :: None
  }

  function ArmScope(enum: Option<EnumDef>, arm: MatchArm): Scope {
    TypedScope(enum, arm) + Untyped(arm.bindings, TypedScope(enum, arm))
  }

  function StmtFindings(env: Env, s: Stmt, depth: nat, scopes: seq<Scope>): seq<Finding>
    decreases s, 1
  {
    match s
    case Break => if depth == 0 then [BreakOutsideLoop] else []
    case Continue => if depth == 0 then [ContinueOutsideLoop] else []
    case If(_, x, y) => Findings(env, x, depth, scopes) + Findings(env, y, depth, scopes)
    case While(_, body) => Findings(env, body, depth + 1, scopes)
    case DoWhile(body, _) => Findings(env, body, depth + 1, scopes)
    case For(_, _, _, _, body) => Findings(env, body, depth + 1, scopes)
    case WithArena(_, _, body) => Findings(env, body, depth, scopes)
    case Match(scrutinee, _, arms) =>
      var enum := ScrutineeEnum(env, scrutinee, scopes);
      ArmFindings(env, enum, arms, {}, depth, scopes) + MatchFindings(enum, arms)
    case _ => []
  }

  function Findings(env: Env, ss: seq<Stmt>, depth: nat, scopes: seq<Scope>): seq<Finding>
    decreases ss, 0
  {
    if ss == [] then [] else StmtFindings(env, ss[0], depth, scopes) + Findings(env, ss[1..], depth, scopes)
  }

  /** Findings arm by arm; `seen` holds the variants of the arms before. */
  function ArmFindings(env: Env, enum: Option<EnumDef>, arms: seq<MatchArm>, seen: set<string>, depth: nat,
                       scopes: seq<Scope>): seq<Finding>
    decreases arms
  {
    if arms == [] then []
    else OneArmFindings(env, enum, arms[0], seen, depth, scopes)
         + ArmFindings(env, enum, arms[1..], seen + {arms[0].variant}, depth, scopes)
  }

  function OneArmFindings(env: Env, enum: Option<EnumDef>, arm: MatchArm, seen: set<string>, depth: nat,
                          scopes: seq<Scope>): seq<Finding>
    decreases arm
  {
    ArmHeadFindings(arm)
    + Findings(env, arm.body, depth, scopes + [ArmScope(enum, arm)])
    + (if arm.variant in seen then [DuplicateArm(arm.variant)] else [])
  }

  function ArmHeadFindings(arm: MatchArm): seq<Finding> {
    (if arm.variant == "_" && arm.bindings != [] then [WildcardBinds] else []) + BindingFindings(arm, 0)
  }

  function BindingFindings(arm: MatchArm, i: nat): seq<Finding>
    requires i <= |arm.bindings|
    decreases |arm.bindings| - i
  {
    if i == |arm.bindings| then []
    else (if arm.bindings[i] in arm.bindings[..i] then [DuplicateBinding(arm.variant, arm.bindings[i])] else [])
         + BindingFindings(arm, i + 1)
  }

  function Wildcards(arms: seq<MatchArm>): nat {
    if arms == [] then 0 else (if arms[0].variant == "_" then 1 else 0) + Wildcards(arms[1..])
  }

  function Named(arms: seq<MatchArm>): set<string> {
    set arm | arm in arms :: arm.variant
  }

  function Declared(enum: EnumDef): set<string> {
    set v | v in enum.variants :: v.name
  }

  /** Findings about all arms together; without a known enum only the wildcards are counted. */
  function MatchFindings(enum: Option<EnumDef>, arms: seq<MatchArm>): seq<Finding> {
    (if Wildcards(arms) > 1 then [MultipleWildcards] else [])
    + (if enum.None? then [] else CoverageFindings(enum.value, arms) + ArityFindings(enum.value, arms))
  }

  function CoverageFindings(enum: EnumDef, arms: seq<MatchArm>): seq<Finding> {
    var named := Named(arms) - {"_"};
    var missing, extra := Declared(enum) - named, named - Declared(enum);
    (if missing != {} && "_" !in Named(arms) then [NonExhaustive(enum.name, missing)] else [])
    + (if extra != {} then [ExtraArms(enum.name, extra)] else [])
  }

  function ArityFindings(enum: EnumDef, arms: seq<MatchArm>): seq<Finding> {
    if arms == [] then []
    else
      var v := FindVariant(enum.variants, arms[0].variant);
      (if arms[0].variant != "_" && v.Some? && |arms[0].bindings| != |v.value.fields|
       then [WrongArity(enum.name, arms[0].variant)] else [])
      + ArityFindings(enum, arms[1..])
  }

  // ---------- The checks as the validator runs them ----------

  /** The validator's state that these checks touch. */
  class Context {
    const env: Env
    var loopDepth: nat
    var armBindings: seq<Scope>
    var diagnostics: seq<Finding>

    constructor (env: Env)
      ensures this.env == env && loopDepth == 0 && armBindings == [] && diagnostics == []
    {
      this.env := env;
      loopDepth, armBindings, diagnostics := 0, [], [];
    }

    /** Reports the findings and leaves the loop depth and the arm scopes as they were. */
    method CheckStmts(ss: seq<Stmt>)
      modifies this
      ensures loopDepth == old(loopDepth) && armBindings == old(armBindings)
      ensures diagnostics == old(diagnostics) + Findings(env, ss, old(loopDepth), old(armBindings))
      decreases ss, 0
    {
      for i := 0 to |ss|
        invariant loopDepth == old(loopDepth) && armBindings == old(armBindings)
        invariant diagnostics + Findings(env, ss[i..], loopDepth, armBindings) ==
                  old(diagnostics) + Findings(env, ss, loopDepth, armBindings)
      {
        assert ss[i..][0] == ss[i] && ss[i..][1..] == ss[i + 1..];
        CheckStmt(ss[i]);
      }
    }

    method CheckStmt(s: Stmt)
      modifies this
      ensures loopDepth == old(loopDepth) && armBindings == old(armBindings)
      ensures diagnostics == old(diagnostics) + StmtFindings(env, s, old(loopDepth), old(armBindings))
      decreases s, 2
    {
      match s {
        case Break =>
          if loopDepth == 0 {
            diagnostics := diagnostics + [BreakOutsideLoop];
          }
        case Continue =>
          if loopDepth == 0 {
            diagnostics := diagnostics + [ContinueOutsideLoop];
          }
        case If(_, x, y) =>
          CheckStmts(x);
          CheckStmts(y);
        case While(_, body) =>
          CheckLoopBody(body);
        case DoWhile(body, _) =>
          CheckLoopBody(body);
        case For(_, _, _, _, body) =>
          CheckLoopBody(body);
        case WithArena(_, _, body) =>
          CheckStmts(body);
        case Match(_, _, _) =>
          CheckMatch(s);
        case _ =>
      }
    }

    method CheckLoopBody(body: seq<Stmt>)
      modifies this
      ensures loopDepth == old(loopDepth) && armBindings == old(armBindings)
      ensures diagnostics == old(diagnostics) + Findings(env, body, old(loopDepth) + 1, old(armBindings))
      decreases body, 1
    {
      loopDepth := loopDepth + 1;
      CheckStmts(body);
      loopDepth := loopDepth - 1;
    }

    method CheckMatch(s: Stmt)
      requires s.Match?
      modifies this
      ensures loopDepth == old(loopDepth) && armBindings == old(armBindings)
      ensures diagnostics == old(diagnostics) + StmtFindings(env, s, old(loopDepth), old(armBindings))
      decreases s, 1
    {
      var enum := ScrutineeEnum(env, s.scrutinee, armBindings);
      var seen, wildcards := CheckArms(enum, s.arms);
      CheckCoverage(enum, s.arms, seen, wildcards);
    }

    method CheckArms(enum: Option<EnumDef>, arms: seq<MatchArm>) returns (seen: set<string>, wildcards: nat)
      modifies this
      ensures loopDepth == old(loopDepth) && armBindings == old(armBindings)
      ensures diagnostics == old(diagnostics) + ArmFindings(env, enum, arms, {}, old(loopDepth), old(armBindings))
      ensures seen == Named(arms) && wildcards == Wildcards(arms)
      decreases arms
    {
      seen, wildcards := {}, 0;
      ghost var all := diagnostics + ArmFindings(env, enum, arms, {}, loopDepth, armBindings);
      for i := 0 to |arms|
        invariant loopDepth == old(loopDepth) && armBindings == old(armBindings)
        invariant wildcards + Wildcards(arms[i..]) == Wildcards(arms)
        invariant seen == Named(arms[..i])
        invariant diagnostics + ArmFindings(env, enum, arms[i..], seen, loopDepth, armBindings) == all
      {
        assert arms[i..][0] == arms[i] && arms[i..][1..] == arms[i + 1..];
        assert arms[..i + 1] == arms[..i] + [arms[i]];
        if arms[i].variant == "_" {
          wildcards := wildcards + 1;
        }
        ghost var before, one := diagnostics, OneArmFindings(env, enum, arms[i], seen, loopDepth, armBindings);
        ghost var rest := ArmFindings(env, enum, arms[i + 1..], seen + {arms[i].variant}, loopDepth, armBindings);
        assert all == before + (one + rest) == before + one + rest;
        CheckArm(enum, arms[i], seen);
        seen := seen + {arms[i].variant};
      }
      assert arms[..|arms|] == arms;
    }

    /** One arm: its bindings, then its body inside the scope of the bindings. */
    method CheckArm(enum: Option<EnumDef>, arm: MatchArm, seen: set<string>)
      modifies this
      ensures loopDepth == old(loopDepth) && armBindings == old(armBindings)
      ensures diagnostics == old(diagnostics)
              + OneArmFindings(env, enum, arm, seen, old(loopDepth), old(armBindings))
      decreases arm
    {
      CheckArmHead(arm);
      var scope := BuildScope(enum, arm);
      ghost var inBody := Findings(env, arm.body, loopDepth, armBindings + [scope]);
      CheckArmBody(arm.body, scope);
      assert diagnostics == old(diagnostics) + (ArmHeadFindings(arm) + inBody);
      if arm.variant in seen {
        diagnostics := diagnostics + [DuplicateArm(arm.variant)];
      }
    }

    method CheckArmBody(body: seq<Stmt>, scope: Scope)
      modifies this
      ensures loopDepth == old(loopDepth) && armBindings == old(armBindings)
      ensures diagnostics == old(diagnostics) + Findings(env, body, old(loopDepth), old(armBindings) + [scope])
      decreases body, 1
    {
      armBindings := armBindings + [scope];
      CheckStmts(body);
      armBindings := armBindings[..|armBindings| - 1];
    }

    method CheckArmHead(arm: MatchArm)
      modifies this`diagnostics
      ensures diagnostics == old(diagnostics) + ArmHeadFindings(arm)
    {
      if arm.variant == "_" && arm.bindings != [] {
        diagnostics := diagnostics + [WildcardBinds];
      }
      CheckBindings(arm);
    }

    method CheckBindings(arm: MatchArm)
      modifies this`diagnostics
      ensures diagnostics == old(diagnostics) + BindingFindings(arm, 0)
    {
      var seenBinding: set<string> := {};
      for i := 0 to |arm.bindings|
        invariant seenBinding == set b | b in arm.bindings[..i]
        invariant diagnostics + BindingFindings(arm, i) == old(diagnostics) + BindingFindings(arm, 0)
      {
        assert arm.bindings[..i + 1] == arm.bindings[..i] + [arm.bindings[i]];
        if arm.bindings[i] in seenBinding {
          diagnostics := diagnostics + [DuplicateBinding(arm.variant, arm.bindings[i])];
        }
        seenBinding := seenBinding + {arm.bindings[i]};
      }
    }

    /** Payload types where the variant is known, then an untyped entry for every other name. */
    method BuildScope(enum: Option<EnumDef>, arm: MatchArm) returns (scope: Scope)
      ensures scope == ArmScope(enum, arm)
    {
      scope := map[];
      if enum.Some? && arm.variant != "_" {
        var v := FindVariant(enum.value.variants, arm.variant);
        if v.Some? {
          var i := 0;
          while i < |arm.bindings| && i < |v.value.fields|
            invariant i <= |arm.bindings| && i <= |v.value.fields|
            invariant scope == PayloadTypes(arm.bindings, v.value.fields, i)
          {
            scope := scope[arm.bindings[i] := Some(v.value.fields[i].ty)];
            i := i + 1;
          }
        }
      }
      scope := AddUntyped(scope, arm.bindings);
    }

    method AddUntyped(typed: Scope, bindings: seq<string>) returns (scope: Scope)
      ensures scope == typed + Untyped(bindings, typed)
    {
      scope := typed;
      for i := 0 to |bindings|
        invariant scope.Keys == typed.Keys + set b | b in bindings[..i]
        invariant forall b :: b in scope ==> scope[b] == if b in typed then typed[b] else None
      {
        assert bindings[..i + 1] == bindings[..i] + [bindings[i]];
        if bindings[i] !in scope {
          scope := scope[bindings[i] := None];
        }
      }
      assert bindings[..|bindings|] == bindings;
    }

    method CheckCoverage(enum: Option<EnumDef>, arms: seq<MatchArm>, seen: set<string>, wildcards: nat)
      requires seen == Named(arms) && wildcards == Wildcards(arms)
      modifies this`diagnostics
      ensures diagnostics == old(diagnostics) + MatchFindings(enum, arms)
    {
      if wildcards > 1 {
        diagnostics := diagnostics + [MultipleWildcards];
      }
      if enum.None? {
        return;
      }
      var named := seen - {"_"};
      var missing, extra := Declared(enum.value) - named, named - Declared(enum.value);
      if missing != {} && "_" !in seen {
        diagnostics := diagnostics + [NonExhaustive(enum.value.name, missing)];
      }
      if extra != {} {
        diagnostics := diagnostics + [ExtraArms(enum.value.name, extra)];
      }
      CheckArities(enum.value, arms);
    }

    method CheckArities(enum: EnumDef, arms: seq<MatchArm>)
      modifies this`diagnostics
      ensures diagnostics == old(diagnostics) + ArityFindings(enum, arms)
    {
      for i := 0 to |arms|
        invariant diagnostics + ArityFindings(enum, arms[i..]) == old(diagnostics) + ArityFindings(enum, arms)
      {
        assert arms[i..][0] == arms[i] && arms[i..][1..] == arms[i + 1..];
        if arms[i].variant != "_" {
          var v := FindVariant(enum.variants, arms[i].variant);
          if v.Some? && |arms[i].bindings| != |v.value.fields| {
            diagnostics := diagnostics + [WrongArity(enum.name, arms[i].variant)];
          }
        }
      }
    }
  }
}
