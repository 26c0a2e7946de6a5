/**
 * Soundness of the definite-initialisation walk: in a program whose functions
 * report nothing, no run reads a name before a write to its slot.
 */
module InitSound {
  import opened Wrappers
  import opened QuodTree
  import opened Runs
  import opened QuodRun
  import opened DefiniteInit
  import opened Jumps
  import Arithmetic

  // ---------- The fragment ----------

  /** The names a place in a function may use: `bound` are the bindings of the arms around it. */
  datatype Scope = Scope(params: set<string>, locals: set<string>, bound: set<string>) {
    function Names(): set<string> {
      params + locals + bound
    }

    function Enter(bindings: seq<string>): Scope {
      Scope(params, locals, bound + Elements(bindings))
    }
  }

  /** References are in scope, as another check of the validator demands; the walk has no case for `Not`. */
  predicate ExprSeen(e: Expr, sc: Scope) {
    match e
    case Leaf(LocalRef(x)) => x in sc.Names()
    case Leaf(ParamRef(x)) => x in sc.params
    case Leaf(_) => true
    case Unary(op, x) => !op.Not? && ExprSeen(x, sc)
    case Binary(_, l, r) => ExprSeen(l, sc) && ExprSeen(r, sc)
    case Nary(_, args) => forall i :: 0 <= i < |args| ==> ExprSeen(args[i], sc)
    case IfExpr(c, x, y) => ExprSeen(c, sc) && ExprSeen(x, sc) && ExprSeen(y, sc)
  }

  /** A wildcard binds nothing, as another check of the validator demands; a named arm binds no name of a local. */
  predicate ArmSeen(arm: MatchArm, sc: Scope)
    decreases arm
  {
    && (arm.variant == "_" ==> arm.bindings == [])
    && Elements(arm.bindings) !! sc.locals
    && Seen(arm.body, sc.Enter(arm.bindings))
  }

  /** Core statements whose do-while bodies have no break or continue of their own loop. */
  predicate StmtSeen(s: Stmt, sc: Scope)
    decreases s
  {
    match s
    case Let(_, _, init) => init.Some? ==> ExprSeen(init.value, sc)
    case Assign(_, e) => ExprSeen(e, sc)
    case ExprStmt(e) => ExprSeen(e, sc)
    case ReturnExpr(e) => ExprSeen(e, sc)
    case If(c, x, y) => ExprSeen(c, sc) && Seen(x, sc) && Seen(y, sc)
    case While(c, body) => ExprSeen(c, sc) && Seen(body, sc)
    case DoWhile(body, c) => ExprSeen(c, sc) && Seen(body, sc) && NoOwnJumps(body)
    case For(_, _, lo, hi, body) => ExprSeen(lo, sc) && ExprSeen(hi, sc) && Seen(body, sc)
    case FieldSet(_, _, e) => ExprSeen(e, sc)
    case Store(p, e) => ExprSeen(p, sc) && ExprSeen(e, sc)
    case StoreField(p, _, _, _, e) => ExprSeen(p, sc) && ExprSeen(e, sc)
    case Match(scrutinee, _, arms) => ExprSeen(scrutinee, sc) && forall i :: 0 <= i < |arms| ==> ArmSeen(arms[i], sc)
    case WithArena(_, capacity, body) => ExprSeen(capacity, sc) && Seen(body, sc)
    case CStyleFor(_, _, _, _) => false
    case _ => true
  }

  predicate Seen(ss: seq<Stmt>, sc: Scope)
    decreases ss
  {
    forall i :: 0 <= i < |ss| ==> StmtSeen(ss[i], sc)
  }

  function ScopeOf(fn: Function): Scope {
    Scope(Names(fn.params), Locals(fn), {})
  }

  predicate FunctionSeen(fn: Function) {
    Seen(fn.body, ScopeOf(fn))
  }

  predicate ReportsNothing(fn: Function) {
    Reports(fn.body, Names(fn.params), Locals(fn)) == []
  }

  /** Every function is in the fragment and reports nothing. */
  predicate CleanProgram(m: Machine) {
    forall f :: f in m.functions ==> FunctionSeen(m.functions[f]) && ReportsNothing(m.functions[f])
  }

  // ---------- The invariant ----------

  /** Parameters and bindings are written, and so are the locals the walk holds for written. */
  ghost predicate Inv(defined: set<string>, sc: Scope, store: map<string, Val>) {
    && sc.params + sc.bound <= store.Keys
    && defined * sc.locals <= store.Keys
  }

  /** What a run of a clean statement keeps, however it ends. */
  ghost predicate Sound(out: Out<State, ()>, st: State, sc: Scope, after: Option<set<string>>) {
    && st.store.Keys <= out.st.store.Keys
    && (out.Halt? ==> !out.sig.ReadUnset?)
    && (out.Value? ==> after.Some? && Inv(after.value, sc, out.st.store))
  }

  lemma {:induction false} InvGrows(defined: set<string>, sc: Scope, st: State, out: Out<State, ()>,
                                    after: Option<set<string>>)
    requires Inv(defined, sc, st.store) && Sound(out, st, sc, after)
    ensures Inv(defined, sc, out.st.store)
  {}

  // ---------- Expressions ----------

  lemma {:induction false} EvalClean(m: Machine, fuel: nat, e: Expr, defined: set<string>, sc: Scope, st: State)
    requires CleanProgram(m) && ExprSeen(e, sc) && ExprReports(e, defined, sc.locals) == []
    requires Inv(defined, sc, st.store)
    ensures var out := Eval(m, fuel, e, st); out.Halt? ==> !out.sig.ReadUnset?
    decreases fuel, e
  {
    match e {
      case Leaf(_) =>
      case Unary(_, x) =>
        EvalClean(m, fuel, x, defined, sc, st);
      case Binary(_, l, r) =>
        EvalClean(m, fuel, l, defined, sc, st);
        EvalClean(m, fuel, r, defined, sc, Eval(m, fuel, l, st).st);
      case Nary(op, args) =>
        EvalAllClean(m, fuel, args, defined, sc, st);
        var out := EvalAll(m, fuel, args, st);
        if op.Call? && op.function_ in m.functions && out.Value? && fuel > 0 {
          var fn := m.functions[op.function_];
          if |out.value| == |fn.params| {
            BodyClean(m, fuel - 1, fn, out.value, out.st);
          }
        }
      case IfExpr(c, x, y) =>
        EvalClean(m, fuel, c, defined, sc, st);
        var t := Eval(m, fuel, c, st).st;
        EvalClean(m, fuel, x, defined, sc, t);
        EvalClean(m, fuel, y, defined, sc, t);
    }
  }

  lemma {:induction false} EvalAllClean(m: Machine, fuel: nat, es: seq<Expr>, defined: set<string>, sc: Scope, st: State)
    requires CleanProgram(m) && ArgReports(es, defined, sc.locals) == []
    requires forall i :: 0 <= i < |es| ==> ExprSeen(es[i], sc)
    requires Inv(defined, sc, st.store)
    ensures var out := EvalAll(m, fuel, es, st); out.Halt? ==> !out.sig.ReadUnset?
    decreases fuel, es
  {
    if es != [] {
      EvalClean(m, fuel, es[0], defined, sc, st);
      EvalAllClean(m, fuel, es[1..], defined, sc, Eval(m, fuel, es[0], st).st);
    }
  }

  lemma {:induction false} BindSets(names: seq<string>, vs: seq<Val>)
    requires |names| == |vs|
    ensures forall x :: x in Bind(names, vs) <==> x in names
  {
    if names != [] {
      BindSets(names[1..], vs[1..]);
    }
  }

  lemma {:induction false} ParamNamesAreNames(params: seq<Param>)
    ensures forall x :: x in ParamNames(params) <==> x in Names(params)
  {
    if params != [] {
      ParamNamesAreNames(params[1..]);
      assert forall p :: p in params <==> p == params[0] || p in params[1..];
    }
  }

  /** A clean function never reads a name before a write to it, whatever its arguments. */
  lemma {:induction false} BodyClean(m: Machine, fuel: nat, fn: Function, vs: seq<Val>, st: State)
    requires CleanProgram(m) && FunctionSeen(fn) && ReportsNothing(fn) && |vs| == |fn.params|
    ensures var out := Body(m, fuel, fn, vs, st); out.Halt? ==> !out.sig.ReadUnset?
    decreases fuel, fn.body, 1
  {
    var names := ParamNames(fn.params);
    BindSets(names, vs);
    ParamNamesAreNames(fn.params);
    var entered := State(Bind(names, vs), st.io, st.frames + [Frame(fn.name, vs)]);
    ExecAllClean(m, fuel, fn.body, Names(fn.params), ScopeOf(fn), entered);
  }

  // ---------- Statements ----------

  lemma {:induction false} ExecAllClean(m: Machine, fuel: nat, ss: seq<Stmt>, defined: set<string>, sc: Scope, st: State)
    requires CleanProgram(m) && Seen(ss, sc) && Reports(ss, defined, sc.locals) == []
    requires Inv(defined, sc, st.store)
    ensures Sound(ExecAll(m, fuel, ss, st), st, sc, After(ss, defined))
    decreases fuel, ss, 0
  {
    if ss != [] {
      ExecClean(m, fuel, ss[0], defined, sc, st);
      var out := Exec(m, fuel, ss[0], st);
      if out.Value? {
        ExecAllClean(m, fuel, ss[1..], AfterStmt(ss[0], defined).value, sc, out.st);
      }
    }
  }

  lemma {:induction false} ExecClean(m: Machine, fuel: nat, s: Stmt, defined: set<string>, sc: Scope, st: State)
    requires CleanProgram(m) && StmtSeen(s, sc) && StmtReports(s, defined, sc.locals) == []
    requires Inv(defined, sc, st.store)
    ensures Sound(Exec(m, fuel, s, st), st, sc, AfterStmt(s, defined))
    decreases fuel, s, 3
  {
    if
    case s.If? =>
      EvalClean(m, fuel, s.cond, defined, sc, st);
      var out := Eval(m, fuel, s.cond, st);
      if out.Value? {
        ExecAllClean(m, fuel, if Truthy(out.value) then s.thenBody else s.elseBody, defined, sc, out.st);
      }
    case s.While? =>
      WhileClean(m, fuel, s, defined, sc, st);
    case s.DoWhile? =>
      DoWhileClean(m, fuel, s, defined, sc, st);
    case s.For? =>
      ForClean(m, fuel, s, defined, sc, st);
    case s.Match? =>
      MatchClean(m, fuel, s, defined, sc, st);
    case s.WithArena? =>
      ArenaClean(m, fuel, s, defined, sc, st);
    case !s.If? && !s.While? && !s.DoWhile? && !s.For? && !s.Match? && !s.WithArena? =>
      SimpleClean(m, fuel, s, defined, sc, st);
  }

  lemma {:induction false} SimpleClean(m: Machine, fuel: nat, s: Stmt, defined: set<string>, sc: Scope, st: State)
    requires CleanProgram(m) && StmtSeen(s, sc) && StmtReports(s, defined, sc.locals) == []
    requires !s.If? && !s.While? && !s.DoWhile? && !s.For? && !s.Match? && !s.WithArena?
    requires Inv(defined, sc, st.store)
    ensures Sound(Exec(m, fuel, s, st), st, sc, AfterStmt(s, defined))
    decreases fuel, s, 2
  {
    match s {
      case Let(_, _, Some(e)) => EvalClean(m, fuel, e, defined, sc, st);
      case Assign(_, e) => EvalClean(m, fuel, e, defined, sc, st);
      case ExprStmt(e) => EvalClean(m, fuel, e, defined, sc, st);
      case ReturnExpr(e) => EvalClean(m, fuel, e, defined, sc, st);
      case FieldSet(_, _, e) => EvalClean(m, fuel, e, defined, sc, st);
      case Store(p, e) =>
        EvalClean(m, fuel, p, defined, sc, st);
        EvalClean(m, fuel, e, defined, sc, Eval(m, fuel, p, st).st);
      case StoreField(p, _, _, _, e) =>
        EvalClean(m, fuel, p, defined, sc, st);
        EvalClean(m, fuel, e, defined, sc, Eval(m, fuel, p, st).st);
      case _ =>
    }
  }

  lemma {:induction false} WhileClean(m: Machine, fuel: nat, s: Stmt, defined: set<string>, sc: Scope, st: State)
    requires CleanProgram(m) && StmtSeen(s, sc) && StmtReports(s, defined, sc.locals) == [] && s.While?
    requires Inv(defined, sc, st.store)
    ensures Sound(Exec(m, fuel, s, st), st, sc, Some(defined))
    decreases fuel, s, 2
  {
    if fuel > 0 {
      EvalClean(m, fuel, s.cond, defined, sc, st);
      var out := Eval(m, fuel, s.cond, st);
      if out.Value? && Truthy(out.value) {
        ExecAllClean(m, fuel, s.body, defined, sc, out.st);
        var ran := ExecAll(m, fuel, s.body, out.st);
        InvGrows(defined, sc, out.st, ran, After(s.body, defined));
        var turn := AfterBody(ran);
        if turn.Next? {
          WhileClean(m, fuel - 1, s, defined, sc, turn.st);
        }
      }
    }
  }

  lemma {:induction false} DoWhileClean(m: Machine, fuel: nat, s: Stmt, defined: set<string>, sc: Scope, st: State)
    requires CleanProgram(m) && StmtSeen(s, sc) && StmtReports(s, defined, sc.locals) == [] && s.DoWhile?
    requires Inv(defined, sc, st.store)
    ensures Sound(Exec(m, fuel, s, st), st, sc, AfterStmt(s, defined))
    decreases fuel, s, 2
  {
    if fuel > 0 {
      ExecAllClean(m, fuel, s.body, defined, sc, st);
      NoJumpLeft(m, fuel, s.body, st);
      var ran := ExecAll(m, fuel, s.body, st);
      InvGrows(defined, sc, st, ran, After(s.body, defined));
      if ran.Value? {
        var after := After(s.body, defined).value;
        EvalClean(m, fuel, s.cond, after, sc, ran.st);
        var out := Eval(m, fuel, s.cond, ran.st);
        if out.Value? && Truthy(out.value) {
          DoWhileClean(m, fuel - 1, s, defined, sc, out.st);
        }
      }
    }
  }

  lemma {:induction false} ForClean(m: Machine, fuel: nat, s: Stmt, defined: set<string>, sc: Scope, st: State)
    requires CleanProgram(m) && StmtSeen(s, sc) && StmtReports(s, defined, sc.locals) == [] && s.For?
    requires Inv(defined, sc, st.store)
    ensures Sound(Exec(m, fuel, s, st), st, sc, Some(defined))
    decreases fuel, s, 2
  {
    EvalClean(m, fuel, s.lo, defined, sc, st);
    var lo := Eval(m, fuel, s.lo, st);
    if lo.Value? {
      EvalClean(m, fuel, s.hi, defined, sc, lo.st);
      var hi := Eval(m, fuel, s.hi, lo.st);
      if hi.Value? && hi.value.Int? {
        var start := Write(s.name, lo.value, hi.st);
        ForTurnsClean(m, fuel, s, hi.value.n, defined, sc, start);
      }
    }
  }

  lemma {:induction false} ForTurnsClean(m: Machine, fuel: nat, s: Stmt, hi: int, defined: set<string>, sc: Scope, st: State)
    requires CleanProgram(m) && s.For? && Seen(s.body, sc) && Reports(s.body, defined + {s.name}, sc.locals) == []
    requires Inv(defined, sc, st.store) && s.name in st.store
    ensures Sound(ForTurns(m, fuel, s, hi, st), st, sc, Some(defined))
    decreases fuel, s, 1
  {
    if fuel > 0 {
      var i := ReadVar(s.name, st);
      if i.Value? && i.value.Int? && i.value.n < hi {
        ExecAllClean(m, fuel, s.body, defined + {s.name}, sc, st);
        var ran := ExecAll(m, fuel, s.body, st);
        InvGrows(defined, sc, st, ran, After(s.body, defined + {s.name}));
        var turn := AfterBody(ran);
        if turn.Next? {
          var j := ReadVar(s.name, turn.st);
          if j.Value? && j.value.Int? {
            ForTurnsClean(m, fuel - 1, s, hi, defined, sc,
                          Write(s.name, Int(Arithmetic.Wrap(j.value.n + 1)), turn.st));
          }
        }
      }
    }
  }

  lemma {:induction false} ArmOfReports(arms: seq<MatchArm>, k: nat, defined: set<string>, locals: set<string>)
    requires k < |arms| && ArmReports(arms, defined, locals) == []
    ensures Reports(arms[k].body, defined + Elements(arms[k].bindings), locals) == []
  {
    if k > 0 {
      ArmOfReports(arms[1..], k - 1, defined, locals);
    }
  }

  lemma {:induction false} MatchClean(m: Machine, fuel: nat, s: Stmt, defined: set<string>, sc: Scope, st: State)
    requires CleanProgram(m) && StmtSeen(s, sc) && StmtReports(s, defined, sc.locals) == [] && s.Match?
    requires Inv(defined, sc, st.store)
    ensures Sound(Exec(m, fuel, s, st), st, sc, AfterStmt(s, defined))
    decreases fuel, s, 2
  {
    EvalClean(m, fuel, s.scrutinee, defined, sc, st);
    var out := Eval(m, fuel, s.scrutinee, st);
    if out.Value? && out.value.EnumV? && PickArm(s.arms, out.value.variant).Some? {
      var k := PickArm(s.arms, out.value.variant).value;
      var arm := s.arms[k];
      var inner := defined + Elements(arm.bindings);
      ArmOfAfter(s.arms, k, defined);
      ArmOfReports(s.arms, k, defined, sc.locals);
      if arm.variant == "_" {
        assert inner == defined && sc.Enter(arm.bindings) == sc;
        ExecAllClean(m, fuel, arm.body, defined, sc, out.st);
      } else if |arm.bindings| == |out.value.fields| {
        BindSets(arm.bindings, out.value.fields);
        ExecAllClean(m, fuel, arm.body, inner, sc.Enter(arm.bindings), ArmStore(arm, out.value, out.st));
      }
    }
  }

  lemma {:induction false} ArenaClean(m: Machine, fuel: nat, s: Stmt, defined: set<string>, sc: Scope, st: State)
    requires CleanProgram(m) && StmtSeen(s, sc) && StmtReports(s, defined, sc.locals) == [] && s.WithArena?
    requires Inv(defined, sc, st.store)
    ensures Sound(Exec(m, fuel, s, st), st, sc, Some(defined))
    decreases fuel, s, 2
  {
    EvalClean(m, fuel, s.capacity, defined, sc, st);
    var out := Eval(m, fuel, s.capacity, st);
    if out.Value? {
      var handle := Ask(m, OfArena, [out.value], out.st);
      var start := Write(s.name, handle.value, handle.st);
      ExecAllClean(m, fuel, s.body, defined + {s.name}, sc, start);
      var ran := ExecAll(m, fuel, s.body, start);
      InvGrows(defined + {s.name}, sc, start, ran, After(s.body, defined + {s.name}));
    }
  }
}
