/** Exactly when the control checks report each of their findings, wherever in a body. */
module ControlExact {
  import opened Wrappers
  import opened QuodTree
  import opened ControlCheck

  // ---------- The scope of an arm ----------

  /** The last of the first `n` bindings of this name stands at `i`. */
  predicate LastBinding(bindings: seq<string>, n: nat, b: string, i: nat) {
    i < n <= |bindings| && bindings[i] == b && forall j :: i < j < n ==> bindings[j] != b
  }

  lemma {:induction false} PayloadTypesExactly(bindings: seq<string>, fields: seq<Param>, n: nat, b: string, t: Option<Type>)
    requires n <= |bindings| && n <= |fields|
    ensures b in PayloadTypes(bindings, fields, n) <==> b in bindings[..n]
    ensures (b in PayloadTypes(bindings, fields, n) && PayloadTypes(bindings, fields, n)[b] == t) <==>
            exists i :: 0 <= i < n && LastBinding(bindings, n, b, i) && t == Some(fields[i].ty)
  {
    if n > 0 {
      PayloadTypesExactly(bindings, fields, n - 1, b, t);
      assert bindings[..n] == bindings[..n - 1] + [bindings[n - 1]];
      if bindings[n - 1] == b {
        assert LastBinding(bindings, n, b, n - 1);
      } else {
        assert forall i :: LastBinding(bindings, n, b, i) <==> LastBinding(bindings, n - 1, b, i);
      }
    }
  }

  /** The payload of an arm of a known enum: the fields of the variant it names. */
  function Payload(enum: Option<EnumDef>, arm: MatchArm): seq<Param> {
    if enum.None? || arm.variant == "_" then []
    else match FindVariant(enum.value.variants, arm.variant) {
      case None => []
      case Some(v) => v.fields
    }
  }

  /** All bindings are in scope; one has the type of the last payload field that stands at its name, if any does. */
  lemma {:induction false} ScopeExactly(enum: Option<EnumDef>, arm: MatchArm, b: string, t: Type)
    ensures b in ArmScope(enum, arm) <==> b in arm.bindings
    ensures (b in ArmScope(enum, arm) && ArmScope(enum, arm)[b] == Some(t)) <==>
            exists n, i :: 0 <= i < n && IsLess(n, |arm.bindings|, |Payload(enum, arm)|)
                           && LastBinding(arm.bindings, n, b, i) && t == Payload(enum, arm)[i].ty
  {
    var fields := Payload(enum, arm);
    var n := if |arm.bindings| <= |fields| then |arm.bindings| else |fields|;
    assert PayloadTypes(arm.bindings, fields, 0) == map[];
    assert TypedScope(enum, arm) == PayloadTypes(arm.bindings, fields, n);
    PayloadTypesExactly(arm.bindings, fields, n, b, Some(t));
  }

  predicate IsLess(n: nat, a: nat, b: nat) {
    n == if a <= b then a else b
  }

  /** The enum of a scrutinee is known exactly when its type is inferred to be a declared one. */
  lemma {:induction false} ScrutineeEnumExactly(env: Env, e: Expr, scopes: seq<Scope>, enum: EnumDef)
    ensures ScrutineeEnum(env, e, scopes) == Some(enum) <==>
            exists name, args :: env.infer(e, scopes) == Some(EnumType(name, args)) && name in env.enums && env.enums[name] == enum
  {
    var t := env.infer(e, scopes);
    if t.Some? && t.value.EnumType? && t.value.name in env.enums {
      assert t == Some(EnumType(t.value.name, t.value.typeArgs));
    }
  }

  // ---------- One statement ----------

  /** Two arms of the match name the same thing. */
  predicate Twice(arms: seq<MatchArm>, variant: string) {
    exists i, j :: 0 <= i < j < |arms| && arms[i].variant == variant && arms[j].variant == variant
  }

  predicate BindsTwice(arm: MatchArm, name: string) {
    exists i, j :: 0 <= i < j < |arm.bindings| && arm.bindings[i] == name && arm.bindings[j] == name
  }

  predicate HasArm(arms: seq<MatchArm>, variant: string) {
    exists i :: 0 <= i < |arms| && arms[i].variant == variant
  }

  predicate HasVariant(enum: EnumDef, variant: string) {
    exists i :: 0 <= i < |enum.variants| && enum.variants[i].name == variant
  }

  /** The first variant of the name has another number of fields than the arm has bindings. */
  predicate Misfits(enum: EnumDef, arm: MatchArm) {
    exists i :: 0 <= i < |enum.variants| && IsFirstOf(enum, i, arm.variant) && |enum.variants[i].fields| != |arm.bindings|
  }

  predicate IsFirstOf(enum: EnumDef, i: nat, variant: string) {
    i < |enum.variants| && enum.variants[i].name == variant && forall j :: 0 <= j < i ==> enum.variants[j].name != variant
  }

  /** The statement itself, with this many loops and these arms around it, is a reason for the finding. */
  ghost predicate Reason(env: Env, f: Finding, s: Stmt, depth: nat, scopes: seq<Scope>) {
    match f
    case BreakOutsideLoop => s.Break? && depth == 0
    case ContinueOutsideLoop => s.Continue? && depth == 0
    case WildcardBinds => s.Match? && exists arm :: arm in s.arms && arm.variant == "_" && arm.bindings != []
    case DuplicateBinding(variant, name) => s.Match? && exists arm :: arm in s.arms && arm.variant == variant && BindsTwice(arm, name)
    case DuplicateArm(variant) => s.Match? && Twice(s.arms, variant)
    case MultipleWildcards => s.Match? && Twice(s.arms, "_")
    case NonExhaustive(name, missing) =>
      && s.Match? && ScrutineeEnum(env, s.scrutinee, scopes).Some?
      && var enum := ScrutineeEnum(env, s.scrutinee, scopes).value;
         && name == enum.name && missing != {} && !HasArm(s.arms, "_")
         && forall v :: v in missing <==> HasVariant(enum, v) && !HasArm(s.arms, v)
    case ExtraArms(name, extra) =>
      && s.Match? && ScrutineeEnum(env, s.scrutinee, scopes).Some?
      && var enum := ScrutineeEnum(env, s.scrutinee, scopes).value;
         && name == enum.name && extra != {}
         && forall v :: v in extra <==> v != "_" && HasArm(s.arms, v) && !HasVariant(enum, v)
    case WrongArity(name, variant) =>
      && s.Match? && ScrutineeEnum(env, s.scrutinee, scopes).Some?
      && var enum := ScrutineeEnum(env, s.scrutinee, scopes).value;
         && name == enum.name && variant != "_" && exists arm :: arm in s.arms && arm.variant == variant && Misfits(enum, arm)
  }

  lemma {:induction false} BindingsExactly(arm: MatchArm, from: nat, f: Finding)
    requires from <= |arm.bindings|
    ensures f in BindingFindings(arm, from) <==>
            f.DuplicateBinding? && f.variant == arm.variant &&
            exists i, j :: 0 <= i < j < |arm.bindings| && from <= j && arm.bindings[i] == f.name && arm.bindings[j] == f.name
    decreases |arm.bindings| - from
  {
    if from < |arm.bindings| {
      BindingsExactly(arm, from + 1, f);
      var b := arm.bindings[from];
      if b in arm.bindings[..from] {
        var i :| 0 <= i < from && arm.bindings[..from][i] == b;
        assert arm.bindings[i] == b;
      }
      if i, j :| 0 <= i < j < |arm.bindings| && from <= j && f.DuplicateBinding? && arm.bindings[i] == f.name && arm.bindings[j] == f.name {
        if j == from {
          assert arm.bindings[..from][i] == b;
        }
      }
    }
  }

  lemma {:induction false} WildcardsExactly(arms: seq<MatchArm>)
    ensures Wildcards(arms) > 0 <==> HasArm(arms, "_")
    ensures Wildcards(arms) > 1 <==> Twice(arms, "_")
  {
    if arms != [] {
      WildcardsExactly(arms[1..]);
      assert forall i :: 1 <= i < |arms| ==> arms[i] == arms[1..][i - 1];
      if Twice(arms[1..], "_") {
        var i, j :| 0 <= i < j < |arms[1..]| && arms[1..][i].variant == "_" && arms[1..][j].variant == "_";
        assert arms[i + 1].variant == "_" && arms[j + 1].variant == "_";
      }
      if arms[0].variant == "_" && HasArm(arms[1..], "_") {
        var j :| 0 <= j < |arms[1..]| && arms[1..][j].variant == "_";
        assert arms[0].variant == "_" && arms[j + 1].variant == "_";
      }
      if HasArm(arms[1..], "_") {
        var j :| 0 <= j < |arms[1..]| && arms[1..][j].variant == "_";
        assert arms[j + 1].variant == "_";
      }
      if Twice(arms, "_") {
        var i, j :| 0 <= i < j < |arms| && arms[i].variant == "_" && arms[j].variant == "_";
        assert arms[1..][j - 1].variant == "_";
        if i > 0 {
          assert arms[1..][i - 1].variant == "_";
        }
      }
    }
  }

  lemma {:induction false} FirstVariant(enum: EnumDef, variant: string)
    ensures FindVariant(enum.variants, variant).Some? ==>
              exists i :: 0 <= i < |enum.variants| && IsFirstOf(enum, i, variant) && FindVariant(enum.variants, variant).value == enum.variants[i]
    ensures forall i, j :: IsFirstOf(enum, i, variant) && IsFirstOf(enum, j, variant) ==> i == j
    decreases |enum.variants|
  {
    if enum.variants != [] && enum.variants[0].name != variant {
      var rest := enum.(variants := enum.variants[1..]);
      FirstVariant(rest, variant);
      if FindVariant(enum.variants, variant).Some? {
        var i :| 0 <= i < |rest.variants| && IsFirstOf(rest, i, variant) && FindVariant(rest.variants, variant).value == rest.variants[i];
        assert forall j :: 1 <= j < |enum.variants| ==> enum.variants[j] == rest.variants[j - 1];
        assert IsFirstOf(enum, i + 1, variant);
      }
    } else if enum.variants != [] {
      assert IsFirstOf(enum, 0, variant);
    }
  }

  lemma {:induction false} ArityExactly(enum: EnumDef, arms: seq<MatchArm>, f: Finding)
    ensures f in ArityFindings(enum, arms) <==>
            f.WrongArity? && f.enum == enum.name && f.variant != "_" &&
            exists arm :: arm in arms && arm.variant == f.variant && Misfits(enum, arm)
  {
    if arms != [] {
      ArityExactly(enum, arms[1..], f);
      FirstVariant(enum, arms[0].variant);
      assert forall arm :: arm in arms <==> arm == arms[0] || arm in arms[1..];
    }
  }

  lemma {:induction false} CoverageExactly(enum: EnumDef, arms: seq<MatchArm>, v: string)
    ensures v in Named(arms) <==> HasArm(arms, v)
    ensures v in Declared(enum) <==> HasVariant(enum, v)
  {
    if v in Named(arms) {
      var arm :| arm in arms && arm.variant == v;
      var i :| 0 <= i < |arms| && arms[i] == arm;
    }
    if v in Declared(enum) {
      var w :| w in enum.variants && w.name == v;
      var i :| 0 <= i < |enum.variants| && enum.variants[i] == w;
    }
  }

  /** Findings about all arms together. */
  lemma {:induction false} MatchExactly(env: Env, s: Stmt, scopes: seq<Scope>, f: Finding)
    requires s.Match?
    ensures f in MatchFindings(ScrutineeEnum(env, s.scrutinee, scopes), s.arms) <==>
            (f.MultipleWildcards? || f.NonExhaustive? || f.ExtraArms? || f.WrongArity?) && Reason(env, f, s, 0, scopes)
  {
    var known := ScrutineeEnum(env, s.scrutinee, scopes);
    WildcardsExactly(s.arms);
    if known.Some? {
      var enum := known.value;
      ArityExactly(enum, s.arms, f);
      forall v ensures (v in Named(s.arms) <==> HasArm(s.arms, v)) && (v in Declared(enum) <==> HasVariant(enum, v)) {
        CoverageExactly(enum, s.arms, v);
      }
      SetsExactly(env, s, scopes, f);
    }
  }

  lemma {:induction false} SetsExactly(env: Env, s: Stmt, scopes: seq<Scope>, f: Finding)
    requires s.Match? && ScrutineeEnum(env, s.scrutinee, scopes).Some?
    ensures f in CoverageFindings(ScrutineeEnum(env, s.scrutinee, scopes).value, s.arms) <==>
            (f.NonExhaustive? || f.ExtraArms?) && Reason(env, f, s, 0, scopes)
  {
    var enum := ScrutineeEnum(env, s.scrutinee, scopes).value;
    forall v ensures (v in Named(s.arms) <==> HasArm(s.arms, v)) && (v in Declared(enum) <==> HasVariant(enum, v)) {
      CoverageExactly(enum, s.arms, v);
    }
    var named := Named(s.arms) - {"_"};
    var missing, extra := Declared(enum) - named, named - Declared(enum);
    if f.NonExhaustive? && !HasArm(s.arms, "_") {
      assert (forall v :: v in f.missing <==> HasVariant(enum, v) && !HasArm(s.arms, v)) <==> f.missing == missing;
    }
    if f.ExtraArms? {
      assert (forall v :: v in f.extra <==> v != "_" && HasArm(s.arms, v) && !HasVariant(enum, v)) <==> f.extra == extra;
    }
  }

  // ---------- Everywhere in a body ----------

  /** A list of statements directly inside a statement, with the loops and arms around it. */
  datatype Place = Place(body: seq<Stmt>, depth: nat, scopes: seq<Scope>)

  /** C-style loops are not looked into. */
  function Nested(env: Env, s: Stmt, depth: nat, scopes: seq<Scope>): seq<Place> {
    match s
    case If(_, x, y) => [Place(x, depth, scopes), Place(y, depth, scopes)]
    case While(_, body) => [Place(body, depth + 1, scopes)]
    case DoWhile(body, _) => [Place(body, depth + 1, scopes)]
    case For(_, _, _, _, body) => [Place(body, depth + 1, scopes)]
    case WithArena(_, _, body) => [Place(body, depth, scopes)]
    case Match(scrutinee, _, arms) => InArms(ScrutineeEnum(env, scrutinee, scopes), arms, depth, scopes)
    case _ => []
  }

  function InArms(enum: Option<EnumDef>, arms: seq<MatchArm>, depth: nat, scopes: seq<Scope>): (places: seq<Place>)
    ensures |places| == |arms|
    ensures forall i :: 0 <= i < |arms| ==> places[i] == Place(arms[i].body, depth, scopes + [ArmScope(enum, arms[i])])
  {
    if arms == [] then []
    else [Place(arms[0].body, depth, scopes + [ArmScope(enum, arms[0])])] + InArms(enum, arms[1..], depth, scopes)
  }

  /** One way down: into a list directly inside a statement. */
  datatype Step = Step(through: Stmt, inner: Place)

  /** The path leads from the list down to the statement, inside the given loops and arms. */
  ghost predicate Reached(env: Env, place: Place, s: Stmt, depth: nat, scopes: seq<Scope>, path: seq<Step>)
    decreases |path|
  {
    if path == [] then s in place.body && depth == place.depth && scopes == place.scopes
    else path[0].through in place.body && path[0].inner in Nested(env, path[0].through, place.depth, place.scopes)
         && Reached(env, path[0].inner, s, depth, scopes, path[1..])
  }

  ghost predicate HasReason(env: Env, place: Place, f: Finding) {
    exists s, depth: nat, scopes, path :: Reached(env, place, s, depth, scopes, path) && Reason(env, f, s, depth, scopes)
  }

  ghost predicate FoundIn(env: Env, place: Place, f: Finding) {
    f in Findings(env, place.body, place.depth, place.scopes)
  }

  ghost predicate FoundAt(env: Env, place: Place, s: Stmt, f: Finding) {
    f in StmtFindings(env, s, place.depth, place.scopes)
  }

  /** What one arm adds, apart from its body. */
  ghost predicate ArmReports(arms: seq<MatchArm>, k: nat, seen: set<string>, f: Finding)
    requires k < |arms|
  {
    || f in ArmHeadFindings(arms[k])
    || (f == DuplicateArm(arms[k].variant) && (arms[k].variant in seen || exists j :: 0 <= j < k && arms[j].variant == arms[k].variant))
  }

  lemma {:induction false} ArmsExactly(env: Env, enum: Option<EnumDef>, arms: seq<MatchArm>, seen: set<string>, depth: nat,
                                       scopes: seq<Scope>, f: Finding)
    ensures f in ArmFindings(env, enum, arms, seen, depth, scopes) <==>
            exists k :: 0 <= k < |arms| && (ArmReports(arms, k, seen, f)
                                            || f in Findings(env, arms[k].body, depth, scopes + [ArmScope(enum, arms[k])]))
    decreases |arms|
  {
    if arms != [] {
      var rest, seen' := arms[1..], seen + {arms[0].variant};
      ArmsExactly(env, enum, rest, seen', depth, scopes, f);
      forall k | 1 <= k < |arms| ensures arms[k] == rest[k - 1] && (ArmReports(arms, k, seen, f) <==> ArmReports(rest, k - 1, seen', f)) {
        LaterArm(arms, k, seen, f);
      }
      FirstArm(env, enum, arms, seen, depth, scopes, f);
    }
  }

  lemma {:induction false} LaterArm(arms: seq<MatchArm>, k: nat, seen: set<string>, f: Finding)
    requires 1 <= k < |arms|
    ensures ArmReports(arms, k, seen, f) <==> ArmReports(arms[1..], k - 1, seen + {arms[0].variant}, f)
  {
    var rest := arms[1..];
    assert forall j :: 1 <= j < |arms| ==> arms[j] == rest[j - 1];
    if j :| 0 <= j < k && arms[j].variant == arms[k].variant {
      assert j == 0 || rest[j - 1].variant == rest[k - 1].variant;
    }
    if j :| 0 <= j < k - 1 && rest[j].variant == rest[k - 1].variant {
      assert arms[j + 1].variant == arms[k].variant;
    }
  }

  lemma {:induction false} FirstArm(env: Env, enum: Option<EnumDef>, arms: seq<MatchArm>, seen: set<string>, depth: nat,
                                    scopes: seq<Scope>, f: Finding)
    requires arms != []
    ensures f in OneArmFindings(env, enum, arms[0], seen, depth, scopes) <==>
            ArmReports(arms, 0, seen, f) || f in Findings(env, arms[0].body, depth, scopes + [ArmScope(enum, arms[0])])
  {}

  /** The arms' own findings are the three kinds of reasons that lie in them. */
  lemma {:induction false} ArmReasons(env: Env, s: Stmt, scopes: seq<Scope>, f: Finding)
    requires s.Match?
    ensures SomeArmReports(s.arms, f) <==>
            (f.WildcardBinds? || f.DuplicateBinding? || f.DuplicateArm?) && Reason(env, f, s, 0, scopes)
  {
    forall arm ensures f in ArmHeadFindings(arm) <==>
                       (f.WildcardBinds? && arm.variant == "_" && arm.bindings != [])
                       || (f.DuplicateBinding? && arm.variant == f.variant && BindsTwice(arm, f.name)) {
      BindingsExactly(arm, 0, f);
    }
    if f.DuplicateArm? && Twice(s.arms, f.variant) {
      var j, k :| 0 <= j < k < |s.arms| && s.arms[j].variant == f.variant && s.arms[k].variant == f.variant;
      assert ArmReports(s.arms, k, {}, f);
    }
    if arm :| arm in s.arms && f in ArmHeadFindings(arm) {
      var k :| 0 <= k < |s.arms| && s.arms[k] == arm;
      assert ArmReports(s.arms, k, {}, f);
    }
  }

  /** One statement's findings: its own reasons, and what is found directly inside it. */
  lemma {:induction false} StmtExactly(env: Env, s: Stmt, depth: nat, scopes: seq<Scope>, f: Finding)
    ensures f in StmtFindings(env, s, depth, scopes) <==>
            Reason(env, f, s, depth, scopes) ||
            exists inner :: inner in Nested(env, s, depth, scopes) && f in Findings(env, inner.body, inner.depth, inner.scopes)
  {
    var places := Nested(env, s, depth, scopes);
    if s.Match? {
      MatchStmtExactly(env, s, depth, scopes, f);
    } else if s.If? {
      assert forall p :: p in places <==> p == places[0] || p == places[1];
    } else if |places| == 1 {
      assert forall p :: p in places <==> p == places[0];
    }
  }

  ghost predicate SomeArmReports(arms: seq<MatchArm>, f: Finding) {
    exists k :: 0 <= k < |arms| && ArmReports(arms, k, {}, f)
  }

  ghost predicate FoundInSomeArm(env: Env, s: Stmt, depth: nat, scopes: seq<Scope>, f: Finding)
    requires s.Match?
  {
    var enum := ScrutineeEnum(env, s.scrutinee, scopes);
    exists k :: 0 <= k < |s.arms| && f in Findings(env, s.arms[k].body, depth, scopes + [ArmScope(enum, s.arms[k])])
  }

  lemma {:induction false} MatchSplits(env: Env, s: Stmt, depth: nat, scopes: seq<Scope>, f: Finding)
    requires s.Match?
    ensures f in StmtFindings(env, s, depth, scopes) <==>
            || SomeArmReports(s.arms, f) || FoundInSomeArm(env, s, depth, scopes, f)
            || f in MatchFindings(ScrutineeEnum(env, s.scrutinee, scopes), s.arms)
  {
    ArmsExactly(env, ScrutineeEnum(env, s.scrutinee, scopes), s.arms, {}, depth, scopes, f);
  }

  lemma {:induction false} MatchStmtExactly(env: Env, s: Stmt, depth: nat, scopes: seq<Scope>, f: Finding)
    requires s.Match?
    ensures f in StmtFindings(env, s, depth, scopes) <==>
            Reason(env, f, s, depth, scopes) ||
            exists inner :: inner in Nested(env, s, depth, scopes) && f in Findings(env, inner.body, inner.depth, inner.scopes)
  {
    MatchSplits(env, s, depth, scopes, f);
    ArmReasons(env, s, scopes, f);
    MatchExactly(env, s, scopes, f);
    ReasonOfMatch(env, s, depth, scopes, f);
    ArmBodies(env, s, depth, scopes, f);
  }

  /** Loops around it do not matter to a match. */
  lemma {:induction false} ReasonOfMatch(env: Env, s: Stmt, depth: nat, scopes: seq<Scope>, f: Finding)
    requires s.Match?
    ensures Reason(env, f, s, depth, scopes) <==> Reason(env, f, s, 0, scopes)
    ensures Reason(env, f, s, depth, scopes) ==> !f.BreakOutsideLoop? && !f.ContinueOutsideLoop?
  {}

  lemma {:induction false} ArmBodies(env: Env, s: Stmt, depth: nat, scopes: seq<Scope>, f: Finding)
    requires s.Match?
    ensures (exists inner :: inner in Nested(env, s, depth, scopes) && f in Findings(env, inner.body, inner.depth, inner.scopes)) <==>
            FoundInSomeArm(env, s, depth, scopes, f)
  {
    var places := Nested(env, s, depth, scopes);
    if inner :| inner in places && f in Findings(env, inner.body, inner.depth, inner.scopes) {
      var k :| 0 <= k < |places| && places[k] == inner;
      assert f in Findings(env, s.arms[k].body, places[k].depth, places[k].scopes);
    }
    if k :| 0 <= k < |s.arms| &&
            f in Findings(env, s.arms[k].body, depth, scopes + [ArmScope(ScrutineeEnum(env, s.scrutinee, scopes), s.arms[k])]) {
      assert places[k] in places;
    }
  }

  lemma {:induction false} ListExactly(env: Env, place: Place, f: Finding)
    ensures FoundIn(env, place, f) <==> exists s :: s in place.body && FoundAt(env, place, s, f)
    decreases |place.body|
  {
    if place.body != [] {
      var rest := place.(body := place.body[1..]);
      ListExactly(env, rest, f);
      assert FoundIn(env, place, f) <==> FoundAt(env, place, place.body[0], f) || FoundIn(env, rest, f);
      assert forall s :: s in place.body <==> s == place.body[0] || s in rest.body;
      assert forall s :: FoundAt(env, rest, s, f) <==> FoundAt(env, place, s, f);
    }
  }

  lemma {:induction false} FoundInsideIsFound(env: Env, place: Place, t: Stmt, inner: Place, f: Finding)
    requires t in place.body && inner in Nested(env, t, place.depth, place.scopes) && FoundIn(env, inner, f)
    ensures FoundIn(env, place, f)
  {
    StmtExactly(env, t, place.depth, place.scopes, f);
    assert FoundAt(env, place, t, f);
    ListExactly(env, place, f);
  }

  lemma {:induction false} ReasonHereIsFound(env: Env, place: Place, s: Stmt, f: Finding)
    requires s in place.body && Reason(env, f, s, place.depth, place.scopes)
    ensures FoundIn(env, place, f)
  {
    StmtExactly(env, s, place.depth, place.scopes, f);
    assert FoundAt(env, place, s, f);
    ListExactly(env, place, f);
  }

  ghost predicate ReasonFor(env: Env, f: Finding, s: Stmt, depth: nat, scopes: seq<Scope>) {
    Reason(env, f, s, depth, scopes)
  }

  lemma {:induction false} ReasonIsFound(env: Env, place: Place, s: Stmt, depth: nat, scopes: seq<Scope>, path: seq<Step>, f: Finding)
    requires Reached(env, place, s, depth, scopes, path) && ReasonFor(env, f, s, depth, scopes)
    ensures FoundIn(env, place, f)
    decreases |path|
  {
    if path == [] {
      ReasonHereIsFound(env, place, s, f);
    } else {
      ReasonIsFound(env, path[0].inner, s, depth, scopes, path[1..], f);
      FoundInsideIsFound(env, place, path[0].through, path[0].inner, f);
    }
  }

  lemma {:induction false} ReasonInside(env: Env, place: Place, t: Stmt, inner: Place, f: Finding)
    requires t in place.body && inner in Nested(env, t, place.depth, place.scopes) && HasReason(env, inner, f)
    ensures HasReason(env, place, f)
  {
    var s, depth: nat, scopes, path :| Reached(env, inner, s, depth, scopes, path) && Reason(env, f, s, depth, scopes);
    assert ([Step(t, inner)] + path)[1..] == path;
    assert Reached(env, place, s, depth, scopes, [Step(t, inner)] + path);
  }

  lemma {:induction false} FoundHasReason(env: Env, place: Place, f: Finding)
    requires FoundIn(env, place, f)
    ensures HasReason(env, place, f)
    decreases place.body, 0
  {
    ListExactly(env, place, f);
    var t :| t in place.body && FoundAt(env, place, t, f);
    StmtExactly(env, t, place.depth, place.scopes, f);
    if Reason(env, f, t, place.depth, place.scopes) {
      assert Reached(env, place, t, place.depth, place.scopes, []);
    } else {
      var inner :| inner in Nested(env, t, place.depth, place.scopes) && FoundIn(env, inner, f);
      FoundInsideHasReason(env, t, place.depth, place.scopes, inner, f);
      ReasonInside(env, place, t, inner, f);
    }
  }

  lemma {:induction false} FoundInsideHasReason(env: Env, t: Stmt, depth: nat, scopes: seq<Scope>, inner: Place, f: Finding)
    requires inner in Nested(env, t, depth, scopes) && FoundIn(env, inner, f)
    ensures HasReason(env, inner, f)
    decreases t, 1
  {
    match t {
      case If(_, x, y) =>
        if inner == Place(x, depth, scopes) {
          FoundHasReason(env, Place(x, depth, scopes), f);
        } else {
          FoundHasReason(env, Place(y, depth, scopes), f);
        }
      case While(_, body) => FoundHasReason(env, Place(body, depth + 1, scopes), f);
      case DoWhile(body, _) => FoundHasReason(env, Place(body, depth + 1, scopes), f);
      case For(_, _, _, _, body) => FoundHasReason(env, Place(body, depth + 1, scopes), f);
      case WithArena(_, _, body) => FoundHasReason(env, Place(body, depth, scopes), f);
      case Match(scrutinee, _, arms) =>
        var enum := ScrutineeEnum(env, scrutinee, scopes);
        var k :| 0 <= k < |arms| && Nested(env, t, depth, scopes)[k] == inner;
        FoundHasReason(env, Place(arms[k].body, depth, scopes + [ArmScope(enum, arms[k])]), f);
    }
  }

  /** A finding is reported exactly when some statement of the body, in its loops and arms, is a reason for it. */
  lemma {:induction false} FindingsExactly(env: Env, body: seq<Stmt>, f: Finding)
    ensures f in Findings(env, body, 0, []) <==> HasReason(env, Place(body, 0, []), f)
  {
    var place := Place(body, 0, []);
    if f in Findings(env, body, 0, []) {
      FoundHasReason(env, place, f);
    }
    if s, depth: nat, scopes, path :| Reached(env, place, s, depth, scopes, path) && Reason(env, f, s, depth, scopes) {
      ReasonIsFound(env, place, s, depth, scopes, path, f);
    }
  }
}
