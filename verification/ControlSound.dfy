/**
 * In a program whose functions get no control finding, no run ends with a pending
 * break or continue and no run reaches a match with no arm to take or with a wrong
 * number of bindings.
 */
module ControlSound {
  import opened Wrappers
  import opened QuodTree
  import opened Runs
  import opened QuodRun
  import opened ControlCheck
  import opened Jumps
  import Arithmetic

  // ---------- The fragment ----------

  /** The run's enum and payload arities are those of the declarations. */
  predicate DeclaredEnums(m: Machine, env: Env) {
    forall e, v :: e in m.enums && v in m.enums[e] ==>
      && e in env.enums
      && FindVariant(env.enums[e].variants, v).Some?
      && |FindVariant(env.enums[e].variants, v).value.fields| == m.enums[e][v]
  }

  function InferredName(env: Env, scrutinee: Expr, scopes: seq<Scope>): Option<string> {
    match env.infer(scrutinee, scopes)
    case Some(EnumType(name, _)) => Some(name)
    case _ => None
  }

  /** The checks look into the statement, and each match records what they infer at its place. */
  predicate StmtTyped(env: Env, s: Stmt, scopes: seq<Scope>)
    decreases s
  {
    match s
    case If(_, x, y) => Typed(env, x, scopes) && Typed(env, y, scopes)
    case While(_, body) => Typed(env, body, scopes)
    case DoWhile(body, _) => Typed(env, body, scopes)
    case For(_, _, _, _, body) => Typed(env, body, scopes)
    case WithArena(_, _, body) => Typed(env, body, scopes)
    case Match(scrutinee, inferred, arms) =>
      && inferred == InferredName(env, scrutinee, scopes)
      && (forall i :: 0 <= i < |arms| ==>
            Typed(env, arms[i].body, scopes + [ArmScope(ScrutineeEnum(env, scrutinee, scopes), arms[i])]))
    case CStyleFor(_, _, _, _) => false
    case _ => true
  }

  predicate Typed(env: Env, ss: seq<Stmt>, scopes: seq<Scope>)
    decreases ss
  {
    forall i :: 0 <= i < |ss| ==> StmtTyped(env, ss[i], scopes)
  }

  predicate FunctionChecked(m: Machine, env: Env, fn: Function) {
    DeclaredEnums(m, env) && Typed(env, fn.body, []) && Findings(env, fn.body, 0, []) == []
  }

  /** Parameters and locals are set up anew for each function, so each has its own inference. */
  predicate ProgramChecked(m: Machine, envs: map<string, Env>) {
    forall f :: f in m.functions ==> f in envs && FunctionChecked(m, envs[f], m.functions[f])
  }

  // ---------- Break and continue ----------

  predicate Stray(f: Finding) {
    f.BreakOutsideLoop? || f.ContinueOutsideLoop?
  }

  /** C-style for loops are not looked into. */
  predicate NoCFor(s: Stmt)
    decreases s
  {
    match s
    case If(_, x, y) => NoneCFor(x) && NoneCFor(y)
    case While(_, body) => NoneCFor(body)
    case DoWhile(body, _) => NoneCFor(body)
    case For(_, _, _, _, body) => NoneCFor(body)
    case WithArena(_, _, body) => NoneCFor(body)
    case Match(_, _, arms) => forall i :: 0 <= i < |arms| ==> NoneCFor(arms[i].body)
    case CStyleFor(_, _, _, _) => false
    case _ => true
  }

  predicate NoneCFor(ss: seq<Stmt>)
    decreases ss
  {
    forall i :: 0 <= i < |ss| ==> NoCFor(ss[i])
  }

  /**
   * A stray break or continue is reported exactly when there is one that belongs to
   * no loop of the list; inside a loop none is ever reported.
   */
  lemma {:induction false} StrayJumpsExactly(env: Env, ss: seq<Stmt>, depth: nat, scopes: seq<Scope>)
    requires NoneCFor(ss)
    ensures (exists f :: f in Findings(env, ss, depth, scopes) && Stray(f)) <==> depth == 0 && !NoOwnJumps(ss)
    decreases ss, 0
  {
    if ss != [] {
      StrayJumpExactly(env, ss[0], depth, scopes);
      StrayJumpsExactly(env, ss[1..], depth, scopes);
      assert NoOwnJumps(ss) <==> NoOwnJump(ss[0]) && NoOwnJumps(ss[1..]) by {
        assert forall i :: 1 <= i < |ss| ==> ss[i] == ss[1..][i - 1];
      }
    }
  }

  lemma {:induction false} StrayJumpExactly(env: Env, s: Stmt, depth: nat, scopes: seq<Scope>)
    requires NoCFor(s)
    ensures (exists f :: f in StmtFindings(env, s, depth, scopes) && Stray(f)) <==> depth == 0 && !NoOwnJump(s)
    decreases s, 1
  {
    match s {
      case Break => assert depth == 0 ==> BreakOutsideLoop in StmtFindings(env, s, depth, scopes);
      case Continue => assert depth == 0 ==> ContinueOutsideLoop in StmtFindings(env, s, depth, scopes);
      case If(_, x, y) =>
        StrayJumpsExactly(env, x, depth, scopes);
        StrayJumpsExactly(env, y, depth, scopes);
      case While(_, body) => StrayJumpsExactly(env, body, depth + 1, scopes);
      case DoWhile(body, _) => StrayJumpsExactly(env, body, depth + 1, scopes);
      case For(_, _, _, _, body) => StrayJumpsExactly(env, body, depth + 1, scopes);
      case WithArena(_, _, body) => StrayJumpsExactly(env, body, depth, scopes);
      case Match(scrutinee, _, arms) =>
        var enum := ScrutineeEnum(env, scrutinee, scopes);
        StrayJumpsOfArms(env, enum, arms, {}, depth, scopes);
        NoStrayInMatch(enum, arms);
      case _ =>
    }
  }

  lemma {:induction false} NoStrayInMatch(enum: Option<EnumDef>, arms: seq<MatchArm>)
    ensures forall f :: f in MatchFindings(enum, arms) ==> !Stray(f)
  {
    if enum.Some? {
      NoStrayInArities(enum.value, arms);
    }
  }

  lemma {:induction false} NoStrayInArities(enum: EnumDef, arms: seq<MatchArm>)
    ensures forall f :: f in ArityFindings(enum, arms) ==> !Stray(f)
  {
    if arms != [] {
      NoStrayInArities(enum, arms[1..]);
    }
  }

  lemma {:induction false} NoStrayInBindings(arm: MatchArm, i: nat)
    requires i <= |arm.bindings|
    ensures forall f :: f in BindingFindings(arm, i) ==> !Stray(f)
    decreases |arm.bindings| - i
  {
    if i < |arm.bindings| {
      NoStrayInBindings(arm, i + 1);
    }
  }

  lemma {:induction false} StrayJumpsOfArms(env: Env, enum: Option<EnumDef>, arms: seq<MatchArm>, seen: set<string>,
                                            depth: nat, scopes: seq<Scope>)
    requires forall i :: 0 <= i < |arms| ==> NoneCFor(arms[i].body)
    ensures (exists f :: f in ArmFindings(env, enum, arms, seen, depth, scopes) && Stray(f)) <==>
            depth == 0 && exists i :: 0 <= i < |arms| && !NoOwnJumps(arms[i].body)
    decreases arms
  {
    if arms != [] {
      var one := OneArmFindings(env, enum, arms[0], seen, depth, scopes);
      NoStrayInBindings(arms[0], 0);
      StrayJumpsExactly(env, arms[0].body, depth, scopes + [ArmScope(enum, arms[0])]);
      assert (exists f :: f in one && Stray(f)) <==> depth == 0 && !NoOwnJumps(arms[0].body);
      StrayJumpsOfArms(env, enum, arms[1..], seen + {arms[0].variant}, depth, scopes);
      assert forall i :: 1 <= i < |arms| ==> arms[i] == arms[1..][i - 1];
    }
  }

  lemma {:induction false} TypedHasNoCFor(env: Env, ss: seq<Stmt>, scopes: seq<Scope>)
    requires Typed(env, ss, scopes)
    ensures NoneCFor(ss)
    decreases ss
  {
    forall k | 0 <= k < |ss| ensures NoCFor(ss[k]) {
      match ss[k] {
        case If(_, x, y) =>
          TypedHasNoCFor(env, x, scopes);
          TypedHasNoCFor(env, y, scopes);
        case While(_, body) => TypedHasNoCFor(env, body, scopes);
        case DoWhile(body, _) => TypedHasNoCFor(env, body, scopes);
        case For(_, _, _, _, body) => TypedHasNoCFor(env, body, scopes);
        case WithArena(_, _, body) => TypedHasNoCFor(env, body, scopes);
        case Match(scrutinee, _, arms) =>
          forall i | 0 <= i < |arms| ensures NoneCFor(arms[i].body) {
            TypedHasNoCFor(env, arms[i].body, scopes + [ArmScope(ScrutineeEnum(env, scrutinee, scopes), arms[i])]);
          }
        case _ =>
      }
    }
  }

  // ---------- Match arms ----------

  /** The coverage check passes exactly when every declared variant picks an arm and every named arm is declared. */
  lemma {:induction false} CoverageExactly(enum: EnumDef, arms: seq<MatchArm>)
    requires "_" !in Declared(enum)
    ensures CoverageFindings(enum, arms) == [] <==>
            && (forall v :: v in Declared(enum) ==> PickArm(arms, v).Some?)
            && (forall i :: 0 <= i < |arms| && arms[i].variant != "_" ==> arms[i].variant in Declared(enum))
  {
    var named := Named(arms) - {"_"};
    forall v | v in Declared(enum) ensures PickArm(arms, v).Some? <==> v in named || "_" in Named(arms) {
      FindArmExactly(arms, v);
      FindArmExactly(arms, "_");
    }
    assert forall i :: 0 <= i < |arms| ==> arms[i] in arms;
    assert (forall i :: 0 <= i < |arms| && arms[i].variant != "_" ==> arms[i].variant in Declared(enum)) <==> named <= Declared(enum);
    assert named <= Declared(enum) <==> named - Declared(enum) == {};
    assert Declared(enum) <= named <==> Declared(enum) - named == {};
  }

  lemma {:induction false} FindArmExactly(arms: seq<MatchArm>, v: string)
    ensures FindArm(arms, v).Some? <==> v in Named(arms)
  {
    if arms != [] {
      FindArmExactly(arms[1..], v);
      assert Named(arms) == {arms[0].variant} + Named(arms[1..]);
    }
  }

  lemma {:induction false} ArityHolds(enum: EnumDef, arms: seq<MatchArm>, k: nat)
    requires ArityFindings(enum, arms) == [] && k < |arms| && arms[k].variant != "_"
    ensures var v := FindVariant(enum.variants, arms[k].variant);
            v.Some? ==> |arms[k].bindings| == |v.value.fields|
  {
    if k > 0 {
      ArityHolds(enum, arms[1..], k - 1);
    }
  }

  /** A value of the inferred enum finds an arm with the right number of bindings. */
  lemma {:induction false} ArmFits(m: Machine, env: Env, s: Stmt, scopes: seq<Scope>, v: Val)
    requires s.Match? && DeclaredEnums(m, env) && StmtTyped(env, s, scopes)
    requires MatchFindings(ScrutineeEnum(env, s.scrutinee, scopes), s.arms) == [] && InInferredEnum(m, s.inferred, v)
    ensures PickArm(s.arms, v.variant).Some?
    ensures var arm := s.arms[PickArm(s.arms, v.variant).value];
            arm.variant == "_" || |arm.bindings| == |v.fields|
  {
    var enum := ScrutineeEnum(env, s.scrutinee, scopes).value;
    var declared := FindVariant(enum.variants, v.variant);
    assert CoverageFindings(enum, s.arms) == [] && ArityFindings(enum, s.arms) == [];
    assert v.variant in Declared(enum);
    FindArmExactly(s.arms, v.variant);
    FindArmExactly(s.arms, "_");
    if v.variant !in Named(s.arms) || v.variant == "_" {
      assert v.variant in Declared(enum) - (Named(s.arms) - {"_"});
    }
    var k := PickArm(s.arms, v.variant).value;
    if s.arms[k].variant != "_" {
      ArityHolds(enum, s.arms, k);
    }
  }

  lemma {:induction false} ArmIsClean(env: Env, enum: Option<EnumDef>, arms: seq<MatchArm>, seen: set<string>, depth: nat,
                                      scopes: seq<Scope>, k: nat)
    requires ArmFindings(env, enum, arms, seen, depth, scopes) == [] && k < |arms|
    ensures Findings(env, arms[k].body, depth, scopes + [ArmScope(enum, arms[k])]) == []
  {
    if k > 0 {
      ArmIsClean(env, enum, arms[1..], seen + {arms[0].variant}, depth, scopes, k - 1);
    }
  }

  // ---------- Runs ----------

  /** The run found an arm at every match. */
  predicate Armed<T>(out: Out<State, T>) {
    out.Halt? ==> !out.sig.NoArm? && !out.sig.BadArm?
  }

  /** What the walk over a list has established at a nesting depth, in the scopes of the arms around. */
  predicate Ready(m: Machine, envs: map<string, Env>, env: Env, ss: seq<Stmt>, depth: nat, scopes: seq<Scope>) {
    ProgramChecked(m, envs) && DeclaredEnums(m, env) && Typed(env, ss, scopes) && Findings(env, ss, depth, scopes) == []
  }

  predicate StmtReady(m: Machine, envs: map<string, Env>, env: Env, s: Stmt, depth: nat, scopes: seq<Scope>) {
    ProgramChecked(m, envs) && DeclaredEnums(m, env) && StmtTyped(env, s, scopes) && StmtFindings(env, s, depth, scopes) == []
  }

  lemma {:induction false} EvalArmed(m: Machine, envs: map<string, Env>, fuel: nat, e: Expr, st: State)
    requires ProgramChecked(m, envs)
    ensures Armed(Eval(m, fuel, e, st))
    decreases fuel, e
  {
    match e {
      case Leaf(_) =>
      case Unary(_, x) => EvalArmed(m, envs, fuel, x, st);
      case Binary(_, l, r) =>
        EvalArmed(m, envs, fuel, l, st);
        EvalArmed(m, envs, fuel, r, Eval(m, fuel, l, st).st);
      case Nary(op, args) =>
        EvalAllArmed(m, envs, fuel, args, st);
        var out := EvalAll(m, fuel, args, st);
        if op.Call? && op.function_ in m.functions && out.Value? && fuel > 0 {
          var fn := m.functions[op.function_];
          if |out.value| == |fn.params| {
            BodyArmed(m, envs, envs[op.function_], fuel - 1, fn, out.value, out.st);
          }
        }
      case IfExpr(c, x, y) =>
        EvalArmed(m, envs, fuel, c, st);
        var t := Eval(m, fuel, c, st).st;
        EvalArmed(m, envs, fuel, x, t);
        EvalArmed(m, envs, fuel, y, t);
    }
  }

  lemma {:induction false} EvalAllArmed(m: Machine, envs: map<string, Env>, fuel: nat, es: seq<Expr>, st: State)
    requires ProgramChecked(m, envs)
    ensures Armed(EvalAll(m, fuel, es, st))
    decreases fuel, es
  {
    if es != [] {
      EvalArmed(m, envs, fuel, es[0], st);
      EvalAllArmed(m, envs, fuel, es[1..], Eval(m, fuel, es[0], st).st);
    }
  }

  /** A run of a checked function leaves no jump pending and always finds its arm, at any call depth. */
  lemma {:induction false} BodyArmed(m: Machine, envs: map<string, Env>, env: Env, fuel: nat, fn: Function, vs: seq<Val>, st: State)
    requires ProgramChecked(m, envs) && FunctionChecked(m, env, fn) && |vs| == |fn.params|
    ensures Armed(Body(m, fuel, fn, vs, st)) && NoneLeft(Body(m, fuel, fn, vs, st))
    decreases fuel, fn.body, 1
  {
    var entered := State(Bind(ParamNames(fn.params), vs), st.io, st.frames + [Frame(fn.name, vs)]);
    ExecAllArmed(m, envs, env, fuel, fn.body, 0, [], entered);
    TypedHasNoCFor(env, fn.body, []);
    StrayJumpsExactly(env, fn.body, 0, []);
    NoJumpLeft(m, fuel, fn.body, entered);
  }

  lemma {:induction false} ExecAllArmed(m: Machine, envs: map<string, Env>, env: Env, fuel: nat, ss: seq<Stmt>, depth: nat, scopes: seq<Scope>,
                                        st: State)
    requires Ready(m, envs, env, ss, depth, scopes)
    ensures Armed(ExecAll(m, fuel, ss, st))
    decreases fuel, ss, 0
  {
    if ss != [] {
      ExecArmed(m, envs, env, fuel, ss[0], depth, scopes, st);
      ExecAllArmed(m, envs, env, fuel, ss[1..], depth, scopes, Exec(m, fuel, ss[0], st).st);
    }
  }

  lemma {:induction false} ExecArmed(m: Machine, envs: map<string, Env>, env: Env, fuel: nat, s: Stmt, depth: nat, scopes: seq<Scope>, st: State)
    requires StmtReady(m, envs, env, s, depth, scopes)
    ensures Armed(Exec(m, fuel, s, st))
    decreases fuel, s, 3
  {
    if
    case s.If? =>
      EvalArmed(m, envs, fuel, s.cond, st);
      var out := Eval(m, fuel, s.cond, st);
      if out.Value? {
        ExecAllArmed(m, envs, env, fuel, if Truthy(out.value) then s.thenBody else s.elseBody, depth, scopes, out.st);
      }
    case s.While? =>
      WhileArmed(m, envs, env, fuel, s, depth, scopes, st);
    case s.DoWhile? =>
      DoWhileArmed(m, envs, env, fuel, s, depth, scopes, st);
    case s.For? =>
      EvalArmed(m, envs, fuel, s.lo, st);
      var lo := Eval(m, fuel, s.lo, st);
      if lo.Value? {
        EvalArmed(m, envs, fuel, s.hi, lo.st);
        var hi := Eval(m, fuel, s.hi, lo.st);
        if hi.Value? && hi.value.Int? {
          ForTurnsArmed(m, envs, env, fuel, s, hi.value.n, depth, scopes, Write(s.name, lo.value, hi.st));
        }
      }
    case s.Match? =>
      MatchArmed(m, envs, env, fuel, s, depth, scopes, st);
    case s.WithArena? =>
      EvalArmed(m, envs, fuel, s.capacity, st);
      var out := Eval(m, fuel, s.capacity, st);
      if out.Value? {
        var handle := Ask(m, OfArena, [out.value], out.st);
        ExecAllArmed(m, envs, env, fuel, s.body, depth, scopes, Write(s.name, handle.value, handle.st));
      }
    case !s.If? && !s.While? && !s.DoWhile? && !s.For? && !s.Match? && !s.WithArena? =>
      SimpleArmed(m, envs, env, fuel, s, depth, scopes, st);
  }

  lemma {:induction false} SimpleArmed(m: Machine, envs: map<string, Env>, env: Env, fuel: nat, s: Stmt, depth: nat, scopes: seq<Scope>, st: State)
    requires StmtReady(m, envs, env, s, depth, scopes)
    requires !s.If? && !s.While? && !s.DoWhile? && !s.For? && !s.Match? && !s.WithArena?
    ensures Armed(Exec(m, fuel, s, st))
    decreases fuel, s, 2
  {
    match s {
      case Let(_, _, Some(e)) => EvalArmed(m, envs, fuel, e, st);
      case Assign(_, e) => EvalArmed(m, envs, fuel, e, st);
      case ExprStmt(e) => EvalArmed(m, envs, fuel, e, st);
      case ReturnExpr(e) => EvalArmed(m, envs, fuel, e, st);
      case FieldSet(_, _, e) => EvalArmed(m, envs, fuel, e, st);
      case Store(p, e) =>
        EvalArmed(m, envs, fuel, p, st);
        EvalArmed(m, envs, fuel, e, Eval(m, fuel, p, st).st);
      case StoreField(p, _, _, _, e) =>
        EvalArmed(m, envs, fuel, p, st);
        EvalArmed(m, envs, fuel, e, Eval(m, fuel, p, st).st);
      case _ =>
    }
  }

  lemma {:induction false} WhileArmed(m: Machine, envs: map<string, Env>, env: Env, fuel: nat, s: Stmt, depth: nat, scopes: seq<Scope>, st: State)
    requires s.While? && StmtReady(m, envs, env, s, depth, scopes)
    ensures Armed(Exec(m, fuel, s, st))
    decreases fuel, s, 2
  {
    if fuel > 0 {
      EvalArmed(m, envs, fuel, s.cond, st);
      var out := Eval(m, fuel, s.cond, st);
      if out.Value? && Truthy(out.value) {
        ExecAllArmed(m, envs, env, fuel, s.body, depth + 1, scopes, out.st);
        var turn := AfterBody(ExecAll(m, fuel, s.body, out.st));
        if turn.Next? {
          WhileArmed(m, envs, env, fuel - 1, s, depth, scopes, turn.st);
        }
      }
    }
  }

  lemma {:induction false} DoWhileArmed(m: Machine, envs: map<string, Env>, env: Env, fuel: nat, s: Stmt, depth: nat, scopes: seq<Scope>, st: State)
    requires s.DoWhile? && StmtReady(m, envs, env, s, depth, scopes)
    ensures Armed(Exec(m, fuel, s, st))
    decreases fuel, s, 2
  {
    if fuel > 0 {
      ExecAllArmed(m, envs, env, fuel, s.body, depth + 1, scopes, st);
      var turn := AfterBody(ExecAll(m, fuel, s.body, st));
      if turn.Next? {
        EvalArmed(m, envs, fuel, s.cond, turn.st);
        var out := Eval(m, fuel, s.cond, turn.st);
        if out.Value? && Truthy(out.value) {
          DoWhileArmed(m, envs, env, fuel - 1, s, depth, scopes, out.st);
        }
      }
    }
  }

  lemma {:induction false} ForTurnsArmed(m: Machine, envs: map<string, Env>, env: Env, fuel: nat, s: Stmt, hi: int, depth: nat, scopes: seq<Scope>,
                                         st: State)
    requires s.For? && StmtReady(m, envs, env, s, depth, scopes)
    ensures Armed(ForTurns(m, fuel, s, hi, st))
    decreases fuel, s, 2
  {
    if fuel > 0 {
      var i := ReadVar(s.name, st);
      if i.Value? && i.value.Int? && i.value.n < hi {
        ExecAllArmed(m, envs, env, fuel, s.body, depth + 1, scopes, st);
        var turn := AfterBody(ExecAll(m, fuel, s.body, st));
        if turn.Next? {
          var j := ReadVar(s.name, turn.st);
          if j.Value? && j.value.Int? {
            ForTurnsArmed(m, envs, env, fuel - 1, s, hi, depth, scopes,
                          Write(s.name, Int(Arithmetic.Wrap(j.value.n + 1)), turn.st));
          }
        }
      }
    }
  }

  lemma {:induction false} MatchArmed(m: Machine, envs: map<string, Env>, env: Env, fuel: nat, s: Stmt, depth: nat, scopes: seq<Scope>, st: State)
    requires s.Match? && StmtReady(m, envs, env, s, depth, scopes)
    ensures Armed(Exec(m, fuel, s, st))
    decreases fuel, s, 2
  {
    EvalArmed(m, envs, fuel, s.scrutinee, st);
    var out := Eval(m, fuel, s.scrutinee, st);
    if out.Value? && out.value.EnumV? {
      var enum := ScrutineeEnum(env, s.scrutinee, scopes);
      if InInferredEnum(m, s.inferred, out.value) {
        ArmFits(m, env, s, scopes, out.value);
      }
      var k := PickArm(s.arms, out.value.variant);
      if k.Some? {
        var arm := s.arms[k.value];
        ArmIsClean(env, enum, s.arms, {}, depth, scopes, k.value);
        var inner := scopes + [ArmScope(enum, arm)];
        if arm.variant == "_" {
          ExecAllArmed(m, envs, env, fuel, arm.body, depth, inner, out.st);
        } else if |arm.bindings| == |out.value.fields| {
          ExecAllArmed(m, envs, env, fuel, arm.body, depth, inner, ArmStore(arm, out.value, out.st));
        }
      }
    }
  }

  // ---------- Two functions, one name, two enums ----------

  /** An enum with one variant of its own name. */
  function OneVariant(enum: string): EnumDef {
    EnumDef(enum, [], [EnumVariant(enum, [])])
  }

  function OneArm(enum: string): MatchArm {
    MatchArm(enum, [], [])
  }

  /** `match s { V => {} }`, where `s` is inferred to be of the given enum. */
  function Matching(enum: string): Function {
    Function("", "on" + enum, [], [Param("s", EnumType(enum, []))], I32,
             [Match(Leaf(ParamRef("s")), Some(enum), [OneArm(enum)])], [], [])
  }

  function MatchingEnv(enum: string): Env {
    Env(map["A" := OneVariant("A"), "B" := OneVariant("B")], (e: Expr, scopes: seq<Scope>) => Some(EnumType(enum, [])))
  }

  lemma {:induction false} OneArmCovers(enum: string)
    requires enum != "_"
    ensures MatchFindings(Some(OneVariant(enum)), [OneArm(enum)]) == []
  {
    var arms := [OneArm(enum)];
    assert arms[1..] == [];
    assert Named(arms) == {enum} == Declared(OneVariant(enum));
    assert Wildcards([]) == 0 && Wildcards(arms) == 0;
    assert ArityFindings(OneVariant(enum), []) == [];
    assert ArityFindings(OneVariant(enum), arms) == [];
  }

  lemma {:induction false} OneMatchFindings(env: Env, s: Stmt, arm: MatchArm)
    requires s.Match? && s.arms == [arm] && arm.bindings == [] && arm.body == []
    requires MatchFindings(ScrutineeEnum(env, s.scrutinee, []), [arm]) == []
    ensures Findings(env, [s], 0, []) == []
  {
    var enum := ScrutineeEnum(env, s.scrutinee, []);
    assert [s][1..] == [] && [arm][1..] == [];
    assert OneArmFindings(env, enum, arm, {}, 0, []) == [];
    assert ArmFindings(env, enum, [arm], {}, 0, []) == [];
  }

  lemma {:induction false} BothDeclared(m: Machine, enum: string)
    requires m.enums == map["A" := map["A" := 0], "B" := map["B" := 0]]
    ensures DeclaredEnums(m, MatchingEnv(enum))
  {
    assert FindVariant(OneVariant("A").variants, "A") == Some(EnumVariant("A", []));
    assert FindVariant(OneVariant("B").variants, "B") == Some(EnumVariant("B", []));
  }

  lemma {:induction false} OneMatchTyped(env: Env, s: Stmt, arm: MatchArm)
    requires s.Match? && s.arms == [arm] && arm.body == [] && s.inferred == InferredName(env, s.scrutinee, [])
    ensures Typed(env, [s], [])
  {}

  lemma {:induction false} MatchingIsChecked(m: Machine, enum: string)
    requires m.enums == map["A" := map["A" := 0], "B" := map["B" := 0]] && (enum == "A" || enum == "B")
    ensures FunctionChecked(m, MatchingEnv(enum), Matching(enum))
  {
    var env, pick := MatchingEnv(enum), Matching(enum).body[0];
    assert Matching(enum).body == [pick];
    BothDeclared(m, enum);
    OneArmCovers(enum);
    OneMatchTyped(env, pick, OneArm(enum));
    OneMatchFindings(env, pick, OneArm(enum));
  }

  /** Two functions that match on a parameter of one name with different enums are both checked. */
  lemma {:induction false} TwoEnumsAreChecked(m: Machine)
    requires m.functions == map["onA" := Matching("A"), "onB" := Matching("B")]
    requires m.enums == map["A" := map["A" := 0], "B" := map["B" := 0]]
    ensures ProgramChecked(m, map["onA" := MatchingEnv("A"), "onB" := MatchingEnv("B")])
  {
    MatchingIsChecked(m, "A");
    MatchingIsChecked(m, "B");
  }

  // ---------- Outside the fragment ----------

  /** The checks skip a C-style for, so a match without arms inside one is accepted and fails at run time. */
  lemma {:induction false} CStyleForGap(m: Machine, env: Env, fuel: nat, scrutinee: Expr, inferred: Option<string>,
                                         st: State)
    requires fuel > 0
    requires var out := Eval(m, fuel, scrutinee, st); out.Value? && InInferredEnum(m, inferred, out.value)
    ensures var loop := CStyleFor(None, None, None, [Match(scrutinee, inferred, [])]);
            && Findings(env, [loop], 0, []) == []
            && ExecAll(m, fuel, [loop], st).Halt? && ExecAll(m, fuel, [loop], st).sig == NoArm
  {
    var pick := Match(scrutinee, inferred, []);
    var loop := CStyleFor(None, None, None, [pick]);
    var out := Eval(m, fuel, scrutinee, st);
    assert [loop][1..] == [] && [pick][1..] == [];
    assert StmtFindings(env, loop, 0, []) == [];
    assert Exec(m, fuel, pick, st) == Halt(NoArm, out.st);
    assert ExecAll(m, fuel, [pick], st) == Halt(NoArm, out.st);
    assert CForTurns(m, fuel, loop, st) == Halt(NoArm, out.st);
    assert Exec(m, fuel, loop, st) == Halt(NoArm, out.st);
  }
}
