/**
 * The c-family lowering: `for (init; cond; inc) body` becomes
 * `init; while (cond) { body; inc }` with every `continue` of the loop replaced
 * by `inc; continue`. Proved to preserve every run.
 */
module CFamily {
  import opened Wrappers
  import opened QuodTree
  import opened Runs
  import opened QuodRun
  import opened Jumps
  import opened Untouched
  import Arithmetic

  function LowerStmt(s: Stmt): seq<Stmt>
    decreases s
  {
    match s
    case CStyleFor(init, c, inc, body) =>
      var inits := if init.Some? then LowerStmt(init.value) else [];
      var incs := if inc.Some? then LowerStmt(inc.value) else [];
      var cond := if c.Some? then c.value else Leaf(IntLit(I1, 1));
      inits + [While(cond, ContinueWith(LowerBody(body), incs) + incs)]
    case While(c, body) => [While(c, LowerBody(body))]
    case If(c, x, y) => [If(c, LowerBody(x), LowerBody(y))]
    case For(name, ty, lo, hi, body) => [For(name, ty, lo, hi, LowerBody(body))]
    case WithArena(name, capacity, body) => [WithArena(name, capacity, LowerBody(body))]
    case Match(scrutinee, inferred, arms) => [Match(scrutinee, inferred, LowerArms(arms))]
    case _ => [s]   // a do-while passes through with its body as it is
  }

  function LowerBody(ss: seq<Stmt>): seq<Stmt>
    decreases ss
  {
    if ss == [] then [] else LowerStmt(ss[0]) + LowerBody(ss[1..])
  }

  function LowerArms(arms: seq<MatchArm>): (lowered: seq<MatchArm>)
    ensures |lowered| == |arms|
    ensures forall i :: 0 <= i < |arms| ==> lowered[i] == arms[i].(body := LowerBody(arms[i].body))
    decreases arms
  {
    if arms == [] then []
    else [MatchArm(arms[0].variant, arms[0].bindings, LowerBody(arms[0].body))] + LowerArms(arms[1..])
  }

  /** `continue` becomes `inc; continue`, in ifs too but not in nested loops. */
  function ContinueWith(ss: seq<Stmt>, incs: seq<Stmt>): seq<Stmt> {
    if ss == [] then []
    else
      (match ss[0]
       case Continue => incs + [Continue]
       case If(c, x, y) => [If(c, ContinueWith(x, incs), ContinueWith(y, incs))]
       case _ => [ss[0]])
      + ContinueWith(ss[1..], incs)
  }

  function LowerFunction(fn: Function): Function {
    fn.(id := "@fn_c_lowered_" + fn.name, body := LowerBody(fn.body))
  }

  /** The program with every function lowered. */
  function LowerMachine(m: Machine): Machine {
    m.(functions := map f | f in m.functions :: LowerFunction(m.functions[f]))
  }

  // ---------- The trees on which the rewrite sees every `continue` ----------

  /** No `continue` that would leave this statement for the loop around it. */
  predicate NoOwnContinue(s: Stmt) {
    match s
    case Continue => false
    case If(_, x, y) => NoneContinues(x) && NoneContinues(y)
    case WithArena(_, _, body) => NoneContinues(body)
    case Match(_, _, arms) => ArmsDoNotContinue(arms)
    case CStyleFor(init, _, inc, _) =>
      (init.Some? ==> NoOwnContinue(init.value)) && (inc.Some? ==> NoOwnContinue(inc.value))
    case _ => true
  }

  predicate NoneContinues(ss: seq<Stmt>) {
    forall i :: 0 <= i < |ss| ==> NoOwnContinue(ss[i])
  }

  predicate ArmsDoNotContinue(arms: seq<MatchArm>) {
    forall i :: 0 <= i < |arms| ==> NoneContinues(arms[i].body)
  }

  /** Every own `continue` of a body sits in it or in its ifs: none in a match arm or an arena. */
  predicate ContinuesVisible(ss: seq<Stmt>) {
    forall i :: 0 <= i < |ss| ==> Visible(ss[i])
  }

  predicate Visible(s: Stmt) {
    match s
    case If(_, x, y) => ContinuesVisible(x) && ContinuesVisible(y)
    case Continue => true
    case _ => NoOwnContinue(s)
  }

  /** With a step, every continue of the body is visible, and the step itself does not jump. */
  predicate Lowerable(s: Stmt)
    decreases s
  {
    match s
    case CStyleFor(init, _, inc, body) =>
      && (init.Some? ==> Lowerable(init.value))
      && (inc.Some? ==> Lowerable(inc.value) && NoOwnJump(inc.value) && ContinuesVisible(body))
      && LowerableBody(body)
    case While(_, body) => LowerableBody(body)
    case If(_, x, y) => LowerableBody(x) && LowerableBody(y)
    case For(_, _, _, _, body) => LowerableBody(body)
    case WithArena(_, _, body) => LowerableBody(body)
    case Match(_, _, arms) => forall i :: 0 <= i < |arms| ==> LowerableBody(arms[i].body)
    case _ => true
  }

  predicate LowerableBody(ss: seq<Stmt>)
    decreases ss
  {
    forall i :: 0 <= i < |ss| ==> Lowerable(ss[i])
  }

  // ---------- Continue ----------

  lemma {:induction false} NeverContinues(m: Machine, fuel: nat, ss: seq<Stmt>, st: State)
    requires NoneContinues(ss)
    ensures var out := ExecAll(m, fuel, ss, st); out.Halt? ==> !out.sig.Continued?
    decreases fuel, ss, 0
  {
    if ss != [] {
      StmtNeverContinues(m, fuel, ss[0], st);
      var out := Exec(m, fuel, ss[0], st);
      if out.Value? {
        NeverContinues(m, fuel, ss[1..], out.st);
      }
    }
  }

  lemma {:induction false} StmtNeverContinues(m: Machine, fuel: nat, s: Stmt, st: State)
    requires NoOwnContinue(s)
    ensures var out := Exec(m, fuel, s, st); out.Halt? ==> !out.sig.Continued?
    decreases fuel, s, 2
  {
    if
    case s.If? =>
      var out := Eval(m, fuel, s.cond, st);
      if out.Value? {
        NeverContinues(m, fuel, if Truthy(out.value) then s.thenBody else s.elseBody, out.st);
      }
    case s.WithArena? =>
      var out := Eval(m, fuel, s.capacity, st);
      if out.Value? {
        var handle := Ask(m, OfArena, [out.value], out.st);
        NeverContinues(m, fuel, s.body, Write(s.name, handle.value, handle.st));
      }
    case s.Match? =>
      MatchNeverContinues(m, fuel, s, st);
    case s.While? || s.DoWhile? || s.For? || s.CStyleFor? =>
      LoopNeverContinues(m, fuel, s, st);
    case !s.If? && !s.WithArena? && !s.Match? && !s.While? && !s.DoWhile? && !s.For? && !s.CStyleFor? =>
      {}
  }

  lemma {:induction false} MatchNeverContinues(m: Machine, fuel: nat, s: Stmt, st: State)
    requires s.Match? && NoOwnContinue(s)
    ensures var out := Exec(m, fuel, s, st); out.Halt? ==> !out.sig.Continued?
    decreases fuel, s, 1
  {
    var out := Eval(m, fuel, s.scrutinee, st);
    if out.Value? && out.value.EnumV? {
      var k := PickArm(s.arms, out.value.variant);
      if k.Some? {
        var arm := s.arms[k.value];
        if arm.variant == "_" {
          NeverContinues(m, fuel, arm.body, out.st);
        } else if |arm.bindings| == |out.value.fields| {
          NeverContinues(m, fuel, arm.body, ArmStore(arm, out.value, out.st));
        }
      }
    }
  }

  /** A loop catches the `continue` of its body. */
  lemma {:induction false} LoopNeverContinues(m: Machine, fuel: nat, s: Stmt, st: State)
    requires (s.While? || s.DoWhile? || s.For? || s.CStyleFor?) && NoOwnContinue(s)
    ensures var out := Exec(m, fuel, s, st); out.Halt? ==> !out.sig.Continued?
    decreases fuel, s, 1
  {
    match s {
      case While(c, body) =>
        if fuel > 0 {
          var out := Eval(m, fuel, c, st);
          if out.Value? && Truthy(out.value) {
            var turn := AfterBody(ExecAll(m, fuel, body, out.st));
            if turn.Next? {
              LoopNeverContinues(m, fuel - 1, s, turn.st);
            }
          }
        }
      case DoWhile(body, c) =>
        if fuel > 0 {
          var turn := AfterBody(ExecAll(m, fuel, body, st));
          if turn.Next? {
            var out := Eval(m, fuel, c, turn.st);
            if out.Value? && Truthy(out.value) {
              LoopNeverContinues(m, fuel - 1, s, out.st);
            }
          }
        }
      case For(_, _, _, _, _) =>
        forall hi, t ensures var out := ForTurns(m, fuel, s, hi, t); out.Halt? ==> !out.sig.Continued? {
          ForNeverContinues(m, fuel, s, hi, t);
        }
      case CStyleFor(init, _, _, _) =>
        if init.Some? {
          StmtNeverContinues(m, fuel, init.value, st);
        }
        forall t ensures var out := CForTurns(m, fuel, s, t); out.Halt? ==> !out.sig.Continued? {
          CForNeverContinues(m, fuel, s, t);
        }
    }
  }

  lemma {:induction false} ForNeverContinues(m: Machine, fuel: nat, s: Stmt, hi: int, st: State)
    requires s.For?
    ensures var out := ForTurns(m, fuel, s, hi, st); out.Halt? ==> !out.sig.Continued?
    decreases fuel
  {
    if fuel > 0 {
      var i := ReadVar(s.name, st);
      if i.Value? && i.value.Int? && i.value.n < hi {
        var turn := AfterBody(ExecAll(m, fuel, s.body, st));
        if turn.Next? {
          var j := ReadVar(s.name, turn.st);
          if j.Value? && j.value.Int? {
            ForNeverContinues(m, fuel - 1, s, hi, Write(s.name, Int(Arithmetic.Wrap(j.value.n + 1)), turn.st));
          }
        }
      }
    }
  }

  lemma {:induction false} CForNeverContinues(m: Machine, fuel: nat, s: Stmt, st: State)
    requires s.CStyleFor? && NoOwnContinue(s)
    ensures var out := CForTurns(m, fuel, s, st); out.Halt? ==> !out.sig.Continued?
    decreases fuel, s, 0
  {
    if fuel > 0 {
      var test := CForTest(m, fuel, s, st);
      if test.Value? && test.value {
        var turn := AfterBody(ExecAll(m, fuel, s.body, test.st));
        if turn.Next? {
          match s.inc {
            case None =>
              CForNeverContinues(m, fuel - 1, s, turn.st);
            case Some(inc) =>
              StmtNeverContinues(m, fuel, inc, turn.st);
              var out := Exec(m, fuel, inc, turn.st);
              if out.Value? {
                CForNeverContinues(m, fuel - 1, s, out.st);
              }
          }
        }
      }
    }
  }

  /** `out` with the step run where it continues. */
  function ThenStep(m: Machine, fuel: nat, incs: seq<Stmt>, out: Out<State, ()>): Out<State, ()> {
    if out.Halt? && out.sig.Continued? then
      match ExecAll(m, fuel, incs, out.st)
      case Value(_, t) => Halt(Continued, t)
      case Halt(sig, t) => Halt(sig, t)
    else out
  }

  /** The rewritten body runs as the body, with the step before every `continue`. */
  lemma {:induction false} ContinueWithRuns(m: Machine, fuel: nat, ss: seq<Stmt>, incs: seq<Stmt>, st: State)
    requires ContinuesVisible(ss)
    ensures ExecAll(m, fuel, ContinueWith(ss, incs), st) == ThenStep(m, fuel, incs, ExecAll(m, fuel, ss, st))
    decreases ss
  {
    if ss != [] {
      var head := ContinueWith([ss[0]], incs);
      HeadContinueWithRuns(m, fuel, ss[0], incs, st);
      assert ContinueWith(ss, incs) == head + ContinueWith(ss[1..], incs);
      ExecAllSplit(m, fuel, head, ContinueWith(ss[1..], incs), st);
      var out := Exec(m, fuel, ss[0], st);
      if out.Value? {
        ContinueWithRuns(m, fuel, ss[1..], incs, out.st);
      }
    }
  }

  lemma {:induction false} HeadContinueWithRuns(m: Machine, fuel: nat, s: Stmt, incs: seq<Stmt>, st: State)
    requires Visible(s)
    ensures ExecAll(m, fuel, ContinueWith([s], incs), st) == ThenStep(m, fuel, incs, Exec(m, fuel, s, st))
    decreases s
  {
    assert ContinueWith([s][1..], incs) == [];
    match s {
      case Continue =>
        assert ContinueWith([s], incs) == incs + [Continue];
        ExecAllSplit(m, fuel, incs, [Continue], st);
      case If(c, x, y) =>
        var s' := If(c, ContinueWith(x, incs), ContinueWith(y, incs));
        assert ContinueWith([s], incs) == [s'];
        RunsAlone(m, fuel, s', st);
        var out := Eval(m, fuel, c, st);
        if out.Value? {
          ContinueWithRuns(m, fuel, if Truthy(out.value) then x else y, incs, out.st);
        }
      case _ =>
        assert ContinueWith([s], incs) == [s];
        RunsAlone(m, fuel, s, st);
        StmtNeverContinues(m, fuel, s, st);
    }
  }

  /** Without a step the rewrite changes nothing, wherever the continues are. */
  lemma {:induction false} ContinueWithNothing(ss: seq<Stmt>)
    ensures ContinueWith(ss, []) == ss
    decreases ss
  {
    if ss != [] {
      ContinueWithNothing(ss[1..]);
      if ss[0].If? {
        ContinueWithNothing(ss[0].thenBody);
        ContinueWithNothing(ss[0].elseBody);
      }
      assert [ss[0]] + ss[1..] == ss;
    }
  }

  lemma {:induction false} RunsAlone(m: Machine, fuel: nat, s: Stmt, st: State)
    ensures ExecAll(m, fuel, [s], st) == Exec(m, fuel, s, st)
  {
    var out := Exec(m, fuel, s, st);
    assert [s][1..] == [];
    if out.Value? {
      assert out.value == ();
    }
  }

  // ---------- Lowering keeps the visible continues visible ----------

  lemma {:induction false} LoweredDoesNotContinue(s: Stmt)
    requires NoOwnContinue(s)
    ensures NoneContinues(LowerStmt(s)) && ContinuesVisible(LowerStmt(s))
    decreases s
  {
    match s {
      case If(c, x, y) =>
        LoweredBodyDoesNotContinue(x);
        LoweredBodyDoesNotContinue(y);
      case WithArena(_, _, body) =>
        LoweredBodyDoesNotContinue(body);
      case Match(_, _, arms) =>
        forall i | 0 <= i < |arms| ensures NoneContinues(LowerBody(arms[i].body)) {
          LoweredBodyDoesNotContinue(arms[i].body);
        }
      case CStyleFor(init, _, _, _) =>
        if init.Some? {
          LoweredDoesNotContinue(init.value);
        }
      case _ =>
    }
  }

  lemma {:induction false} LoweredBodyDoesNotContinue(ss: seq<Stmt>)
    requires NoneContinues(ss)
    ensures NoneContinues(LowerBody(ss)) && ContinuesVisible(LowerBody(ss))
    decreases ss
  {
    if ss != [] {
      LoweredDoesNotContinue(ss[0]);
      LoweredBodyDoesNotContinue(ss[1..]);
    }
  }

  lemma {:induction false} LoweredStaysVisible(ss: seq<Stmt>)
    requires ContinuesVisible(ss)
    ensures ContinuesVisible(LowerBody(ss))
    decreases ss
  {
    if ss != [] {
      LoweredStaysVisible(ss[1..]);
      match ss[0] {
        case If(_, x, y) =>
          LoweredStaysVisible(x);
          LoweredStaysVisible(y);
        case Continue =>
        case _ =>
          LoweredDoesNotContinue(ss[0]);
      }
    }
  }

  // ---------- Lowering preserves runs ----------

  lemma {:induction false} LowerBodyRuns(m: Machine, fuel: nat, ss: seq<Stmt>, st: State)
    requires LowerableBody(ss)
    ensures ExecAll(m, fuel, LowerBody(ss), st) == ExecAll(m, fuel, ss, st)
    decreases fuel, ss, 0
  {
    if ss != [] {
      LowerStmtRuns(m, fuel, ss[0], st);
      ExecAllSplit(m, fuel, LowerStmt(ss[0]), LowerBody(ss[1..]), st);
      var out := Exec(m, fuel, ss[0], st);
      if out.Value? {
        LowerBodyRuns(m, fuel, ss[1..], out.st);
      }
    }
  }

  lemma {:induction false} LowerStmtRuns(m: Machine, fuel: nat, s: Stmt, st: State)
    requires Lowerable(s)
    ensures ExecAll(m, fuel, LowerStmt(s), st) == Exec(m, fuel, s, st)
    decreases fuel, s, 3
  {
    if s.CStyleFor? {
      CStyleForLowers(m, fuel, s, st);
    } else {
      RunsAlone(m, fuel, LowerStmt(s)[0], st);
      if
      case s.If? =>
        var out := Eval(m, fuel, s.cond, st);
        if out.Value? {
          LowerBodyRuns(m, fuel, if Truthy(out.value) then s.thenBody else s.elseBody, out.st);
        }
      case s.While? => WhileLowers(m, fuel, s, st);
      case s.For? => ForLowers(m, fuel, s, st);
      case s.WithArena? =>
        var out := Eval(m, fuel, s.capacity, st);
        if out.Value? {
          var handle := Ask(m, OfArena, [out.value], out.st);
          LowerBodyRuns(m, fuel, s.body, Write(s.name, handle.value, handle.st));
        }
      case s.Match? => MatchLowers(m, fuel, s, st);
      case !s.If? && !s.While? && !s.For? && !s.WithArena? && !s.Match? => {}
    }
  }

  lemma {:induction false} WhileLowers(m: Machine, fuel: nat, s: Stmt, st: State)
    requires s.While? && Lowerable(s)
    ensures Exec(m, fuel, While(s.cond, LowerBody(s.body)), st) == Exec(m, fuel, s, st)
    decreases fuel, s, 2
  {
    if fuel > 0 {
      var out := Eval(m, fuel, s.cond, st);
      if out.Value? && Truthy(out.value) {
        LowerBodyRuns(m, fuel, s.body, out.st);
        var turn := AfterBody(ExecAll(m, fuel, s.body, out.st));
        if turn.Next? {
          WhileLowers(m, fuel - 1, s, turn.st);
        }
      }
    }
  }

  function LoweredFor(s: Stmt): Stmt
    requires s.For?
  {
    For(s.name, s.ty, s.lo, s.hi, LowerBody(s.body))
  }

  lemma {:induction false} ForLowers(m: Machine, fuel: nat, s: Stmt, st: State)
    requires s.For? && Lowerable(s)
    ensures Exec(m, fuel, LoweredFor(s), st) == Exec(m, fuel, s, st)
    decreases fuel, s, 2
  {
    forall hi, t ensures ForTurns(m, fuel, LoweredFor(s), hi, t) == ForTurns(m, fuel, s, hi, t) {
      ForTurnsLower(m, fuel, s, hi, t);
    }
  }

  lemma {:induction false} ForTurnsLower(m: Machine, fuel: nat, s: Stmt, hi: int, st: State)
    requires s.For? && Lowerable(s)
    ensures ForTurns(m, fuel, LoweredFor(s), hi, st) == ForTurns(m, fuel, s, hi, st)
    decreases fuel, s, 1
  {
    if fuel > 0 {
      var i := ReadVar(s.name, st);
      if i.Value? && i.value.Int? && i.value.n < hi {
        LowerBodyRuns(m, fuel, s.body, st);
        var turn := AfterBody(ExecAll(m, fuel, s.body, st));
        if turn.Next? {
          var j := ReadVar(s.name, turn.st);
          if j.Value? && j.value.Int? {
            ForTurnsLower(m, fuel - 1, s, hi, Write(s.name, Int(Arithmetic.Wrap(j.value.n + 1)), turn.st));
          }
        }
      }
    }
  }

  lemma {:induction false} SameArms(arms: seq<MatchArm>, others: seq<MatchArm>, variant: string)
    requires |arms| == |others| && forall i :: 0 <= i < |arms| ==> arms[i].variant == others[i].variant
    ensures FindArm(arms, variant) == FindArm(others, variant)
  {
    if arms != [] {
      SameArms(arms[1..], others[1..], variant);
    }
  }

  lemma {:induction false} MatchLowers(m: Machine, fuel: nat, s: Stmt, st: State)
    requires s.Match? && Lowerable(s)
    ensures Exec(m, fuel, Match(s.scrutinee, s.inferred, LowerArms(s.arms)), st) == Exec(m, fuel, s, st)
    decreases fuel, s, 2
  {
    var out := Eval(m, fuel, s.scrutinee, st);
    if out.Value? && out.value.EnumV? {
      SameArms(s.arms, LowerArms(s.arms), out.value.variant);
      SameArms(s.arms, LowerArms(s.arms), "_");
      var k := PickArm(s.arms, out.value.variant);
      if k.Some? {
        var arm := s.arms[k.value];
        if arm.variant == "_" {
          LowerBodyRuns(m, fuel, arm.body, out.st);
        } else if |arm.bindings| == |out.value.fields| {
          LowerBodyRuns(m, fuel, arm.body, ArmStore(arm, out.value, out.st));
        }
      }
    }
  }

  function Steps(s: Stmt): seq<Stmt>
    requires s.CStyleFor?
  {
    if s.inc.Some? then LowerStmt(s.inc.value) else []
  }

  /** The while that a C-style for becomes behind its first clause. */
  function LoweredLoop(s: Stmt): Stmt
    requires s.CStyleFor?
  {
    While(if s.forCond.Some? then s.forCond.value else Leaf(IntLit(I1, 1)),
          ContinueWith(LowerBody(s.body), Steps(s)) + Steps(s))
  }

  lemma {:induction false} CStyleForLowers(m: Machine, fuel: nat, s: Stmt, st: State)
    requires s.CStyleFor? && Lowerable(s)
    ensures ExecAll(m, fuel, LowerStmt(s), st) == Exec(m, fuel, s, st)
    decreases fuel, s, 2
  {
    var inits := if s.forInit.Some? then LowerStmt(s.forInit.value) else [];
    assert LowerStmt(s) == inits + [LoweredLoop(s)];
    ExecAllSplit(m, fuel, inits, [LoweredLoop(s)], st);
    match s.forInit {
      case None =>
        RunsAlone(m, fuel, LoweredLoop(s), st);
        TurnsLower(m, fuel, s, st);
      case Some(init) =>
        LowerStmtRuns(m, fuel, init, st);
        var out := Exec(m, fuel, init, st);
        if out.Value? {
          RunsAlone(m, fuel, LoweredLoop(s), out.st);
          TurnsLower(m, fuel, s, out.st);
        }
    }
  }

  /** The step runs as its lowering and never jumps. */
  lemma {:induction false} StepRuns(m: Machine, fuel: nat, s: Stmt, st: State)
    requires s.CStyleFor? && Lowerable(s) && s.inc.Some?
    ensures ExecAll(m, fuel, Steps(s), st) == Exec(m, fuel, s.inc.value, st)
    ensures NoneLeft(Exec(m, fuel, s.inc.value, st))
    decreases fuel, s.inc.value, 4
  {
    LowerStmtRuns(m, fuel, s.inc.value, st);
    NoJumpLeftByStmt(m, fuel, s.inc.value, st);
  }

  /** One turn: the rewritten body, then the step, against the body, then the step. */
  lemma {:induction false} TurnLowers(m: Machine, fuel: nat, s: Stmt, st: State)
    requires s.CStyleFor? && Lowerable(s)
    ensures var turn := AfterBody(ExecAll(m, fuel, s.body, st));
            var lowered := AfterBody(ExecAll(m, fuel, LoweredLoop(s).body, st));
            && (turn.Exit? ==> lowered == turn)
            && (turn.Next? && s.inc.None? ==> lowered == turn)
            && (turn.Next? && s.inc.Some? ==>
                  var step := Exec(m, fuel, s.inc.value, turn.st);
                  lowered == (if step.Value? then Next(step.st) else Exit(step)))
    decreases fuel, s, 0
  {
    var body := LowerBody(s.body);
    LowerBodyRuns(m, fuel, s.body, st);
    if s.inc.Some? {
      LoweredStaysVisible(s.body);
      ContinueWithRuns(m, fuel, body, Steps(s), st);
    } else {
      ContinueWithNothing(body);
    }
    ExecAllSplit(m, fuel, ContinueWith(body, Steps(s)), Steps(s), st);
    var out := ExecAll(m, fuel, s.body, st);
    if s.inc.Some? {
      StepRuns(m, fuel, s, out.st);
    }
  }

  lemma {:induction false} TurnsLower(m: Machine, fuel: nat, s: Stmt, st: State)
    requires s.CStyleFor? && Lowerable(s)
    ensures Exec(m, fuel, LoweredLoop(s), st) == CForTurns(m, fuel, s, st)
    decreases fuel, s, 1
  {
    if fuel > 0 {
      var test := CForTest(m, fuel, s, st);
      LoopTest(m, fuel, s, st);
      if test.Value? && test.value {
        TurnLowers(m, fuel, s, test.st);
        var turn := AfterBody(ExecAll(m, fuel, s.body, test.st));
        if turn.Next? {
          match s.inc {
            case None =>
              TurnsLower(m, fuel - 1, s, turn.st);
            case Some(inc) =>
              var step := Exec(m, fuel, inc, turn.st);
              if step.Value? {
                TurnsLower(m, fuel - 1, s, step.st);
              }
          }
        }
      }
    }
  }

  /** An absent condition is the literal 1. */
  lemma {:induction false} LoopTest(m: Machine, fuel: nat, s: Stmt, st: State)
    requires s.CStyleFor?
    ensures var test := CForTest(m, fuel, s, st);
            var out := Eval(m, fuel, LoweredLoop(s).cond, st);
            && (test.Value? ==> out.Value? && Truthy(out.value) == test.value && out.st == test.st)
            && (test.Halt? ==> out.Halt? && out.sig == test.sig && out.st == test.st)
  {}

  // ---------- Whole programs ----------

  predicate LowerableProgram(m: Machine) {
    forall f :: f in m.functions ==> LowerableBody(m.functions[f].body)
  }

  /** Callees of the lowered program run as the callees they come from. */
  lemma {:induction false} BodyLowers(m: Machine, fuel: nat, fn: Function, vs: seq<Val>, st: State)
    requires LowerableProgram(m) && LowerableBody(fn.body) && |vs| == |fn.params|
    ensures Body(LowerMachine(m), fuel, LowerFunction(fn), vs, st) == Body(m, fuel, fn, vs, st)
    decreases fuel, fn.body, 1
  {
    var entered := State(Bind(ParamNames(fn.params), vs), st.io, st.frames + [Frame(fn.name, vs)]);
    LowerBodyRuns(LowerMachine(m), fuel, fn.body, entered);
    ExecAllSame(m, fuel, fn.body, entered);
  }

  lemma {:induction false} EvalSame(m: Machine, fuel: nat, e: Expr, st: State)
    requires LowerableProgram(m)
    ensures Eval(LowerMachine(m), fuel, e, st) == Eval(m, fuel, e, st)
    decreases fuel, e
  {
    match e {
      case Leaf(_) =>
      case Unary(_, x) =>
        EvalSame(m, fuel, x, st);
      case Binary(_, l, r) =>
        EvalSame(m, fuel, l, st);
        EvalSame(m, fuel, r, Eval(m, fuel, l, st).st);
      case Nary(op, args) =>
        EvalAllSame(m, fuel, args, st);
        var out := EvalAll(m, fuel, args, st);
        if op.Call? && op.function_ in m.functions && out.Value? && fuel > 0 {
          var fn := m.functions[op.function_];
          if |out.value| == |fn.params| {
            BodyLowers(m, fuel - 1, fn, out.value, out.st);
          }
        }
      case IfExpr(c, x, y) =>
        EvalSame(m, fuel, c, st);
        EvalSame(m, fuel, x, Eval(m, fuel, c, st).st);
        EvalSame(m, fuel, y, Eval(m, fuel, c, st).st);
    }
  }

  lemma {:induction false} EvalAllSame(m: Machine, fuel: nat, es: seq<Expr>, st: State)
    requires LowerableProgram(m)
    ensures EvalAll(LowerMachine(m), fuel, es, st) == EvalAll(m, fuel, es, st)
    decreases fuel, es
  {
    if es != [] {
      EvalSame(m, fuel, es[0], st);
      EvalAllSame(m, fuel, es[1..], Eval(m, fuel, es[0], st).st);
    }
  }

  lemma {:induction false} ExecAllSame(m: Machine, fuel: nat, ss: seq<Stmt>, st: State)
    requires LowerableProgram(m)
    ensures ExecAll(LowerMachine(m), fuel, ss, st) == ExecAll(m, fuel, ss, st)
    decreases fuel, ss, 0
  {
    if ss != [] {
      ExecSame(m, fuel, ss[0], st);
      ExecAllSame(m, fuel, ss[1..], Exec(m, fuel, ss[0], st).st);
    }
  }

  lemma {:induction false} ExecSame(m: Machine, fuel: nat, s: Stmt, st: State)
    requires LowerableProgram(m)
    ensures Exec(LowerMachine(m), fuel, s, st) == Exec(m, fuel, s, st)
    decreases fuel, s, 3
  {
    match s {
      case ReturnExpr(e) => EvalSame(m, fuel, e, st);
      case If(c, x, y) =>
        EvalSame(m, fuel, c, st);
        var t := Eval(m, fuel, c, st).st;
        ExecAllSame(m, fuel, x, t);
        ExecAllSame(m, fuel, y, t);
      case Let(_, _, Some(e)) => EvalSame(m, fuel, e, st);
      case Assign(_, e) => EvalSame(m, fuel, e, st);
      case ExprStmt(e) => EvalSame(m, fuel, e, st);
      case FieldSet(_, _, e) => EvalSame(m, fuel, e, st);
      case Store(_, _) => StoreSame(m, fuel, s, st);
      case StoreField(_, _, _, _, _) => StoreSame(m, fuel, s, st);
      case While(_, _) => LoopSame(m, fuel, s, st);
      case DoWhile(_, _) => LoopSame(m, fuel, s, st);
      case For(_, _, _, _, _) => ForSame(m, fuel, s, st);
      case WithArena(_, _, _) => ArenaSame(m, fuel, s, st);
      case Match(_, _, _) => MatchSame(m, fuel, s, st);
      case CStyleFor(_, _, _, _) => CStyleForSame(m, fuel, s, st);
      case _ =>
    }
  }

  lemma {:induction false} StoreSame(m: Machine, fuel: nat, s: Stmt, st: State)
    requires LowerableProgram(m) && (s.Store? || s.StoreField?)
    ensures Exec(LowerMachine(m), fuel, s, st) == Exec(m, fuel, s, st)
    decreases fuel, s, 2
  {
    EvalSame(m, fuel, s.ptr, st);
    EvalSame(m, fuel, s.value, Eval(m, fuel, s.ptr, st).st);
  }

  lemma {:induction false} ForSame(m: Machine, fuel: nat, s: Stmt, st: State)
    requires LowerableProgram(m) && s.For?
    ensures Exec(LowerMachine(m), fuel, s, st) == Exec(m, fuel, s, st)
    decreases fuel, s, 2
  {
    EvalSame(m, fuel, s.lo, st);
    var lo := Eval(m, fuel, s.lo, st);
    EvalSame(m, fuel, s.hi, lo.st);
    var hi := Eval(m, fuel, s.hi, lo.st);
    if lo.Value? && hi.Value? && hi.value.Int? {
      ForTurnsSame(m, fuel, s, hi.value.n, Write(s.name, lo.value, hi.st));
    }
  }

  lemma {:induction false} ArenaSame(m: Machine, fuel: nat, s: Stmt, st: State)
    requires LowerableProgram(m) && s.WithArena?
    ensures Exec(LowerMachine(m), fuel, s, st) == Exec(m, fuel, s, st)
    decreases fuel, s, 2
  {
    EvalSame(m, fuel, s.capacity, st);
    var out := Eval(m, fuel, s.capacity, st);
    if out.Value? {
      var handle := Ask(m, OfArena, [out.value], out.st);
      ExecAllSame(m, fuel, s.body, Write(s.name, handle.value, handle.st));
    }
  }

  lemma {:induction false} CStyleForSame(m: Machine, fuel: nat, s: Stmt, st: State)
    requires LowerableProgram(m) && s.CStyleFor?
    ensures Exec(LowerMachine(m), fuel, s, st) == Exec(m, fuel, s, st)
    decreases fuel, s, 2
  {
    if s.forInit.Some? {
      ExecSame(m, fuel, s.forInit.value, st);
      CForTurnsSame(m, fuel, s, Exec(m, fuel, s.forInit.value, st).st);
    } else {
      CForTurnsSame(m, fuel, s, st);
    }
  }

  lemma {:induction false} LoopSame(m: Machine, fuel: nat, s: Stmt, st: State)
    requires LowerableProgram(m) && (s.While? || s.DoWhile?)
    ensures Exec(LowerMachine(m), fuel, s, st) == Exec(m, fuel, s, st)
    decreases fuel, s, 2
  {
    if fuel > 0 {
      var first := if s.While? then Eval(m, fuel, s.cond, st).st else st;
      EvalSame(m, fuel, s.cond, st);
      ExecAllSame(m, fuel, s.body, first);
      var turn := AfterBody(ExecAll(m, fuel, s.body, first));
      if turn.Next? {
        EvalSame(m, fuel, s.cond, turn.st);
        LoopSame(m, fuel - 1, s, if s.While? then turn.st else Eval(m, fuel, s.cond, turn.st).st);
      }
    }
  }

  lemma {:induction false} MatchSame(m: Machine, fuel: nat, s: Stmt, st: State)
    requires LowerableProgram(m) && s.Match?
    ensures Exec(LowerMachine(m), fuel, s, st) == Exec(m, fuel, s, st)
    decreases fuel, s, 2
  {
    EvalSame(m, fuel, s.scrutinee, st);
    var out := Eval(m, fuel, s.scrutinee, st);
    if out.Value? && out.value.EnumV? && PickArm(s.arms, out.value.variant).Some? {
      var arm := s.arms[PickArm(s.arms, out.value.variant).value];
      ExecAllSame(m, fuel, arm.body, out.st);
      if |arm.bindings| == |out.value.fields| {
        ExecAllSame(m, fuel, arm.body, ArmStore(arm, out.value, out.st));
      }
    }
  }

  lemma {:induction false} ForTurnsSame(m: Machine, fuel: nat, s: Stmt, hi: int, st: State)
    requires LowerableProgram(m) && s.For?
    ensures ForTurns(LowerMachine(m), fuel, s, hi, st) == ForTurns(m, fuel, s, hi, st)
    decreases fuel, s, 1
  {
    if fuel > 0 {
      ExecAllSame(m, fuel, s.body, st);
      var turn := AfterBody(ExecAll(m, fuel, s.body, st));
      if turn.Next? {
        var j := ReadVar(s.name, turn.st);
        if j.Value? && j.value.Int? {
          ForTurnsSame(m, fuel - 1, s, hi, Write(s.name, Int(Arithmetic.Wrap(j.value.n + 1)), turn.st));
        }
      }
    }
  }

  lemma {:induction false} CForTurnsSame(m: Machine, fuel: nat, s: Stmt, st: State)
    requires LowerableProgram(m) && s.CStyleFor?
    ensures CForTurns(LowerMachine(m), fuel, s, st) == CForTurns(m, fuel, s, st)
    decreases fuel, s, 1
  {
    if fuel > 0 {
      if s.forCond.Some? {
        EvalSame(m, fuel, s.forCond.value, st);
      }
      var test := CForTest(m, fuel, s, st);
      if test.Value? && test.value {
        ExecAllSame(m, fuel, s.body, test.st);
        var turn := AfterBody(ExecAll(m, fuel, s.body, test.st));
        if turn.Next? {
          match s.inc {
            case None =>
              CForTurnsSame(m, fuel - 1, s, turn.st);
            case Some(inc) =>
              ExecSame(m, fuel, inc, turn.st);
              CForTurnsSame(m, fuel - 1, s, Exec(m, fuel, inc, turn.st).st);
          }
        }
      }
    }
  }

  /** Every call of the lowered program, with its callees lowered too, gives the result of the structured one. */
  lemma {:induction false} LoweringPreservesCalls(m: Machine, fuel: nat, f: string, vs: seq<Val>, st: State)
    requires LowerableProgram(m) && f in m.functions && |vs| == |m.functions[f].params|
    ensures Body(LowerMachine(m), fuel, LowerMachine(m).functions[f], vs, st) == Body(m, fuel, m.functions[f], vs, st)
  {
    BodyLowers(m, fuel, m.functions[f], vs, st);
  }

  // ---------- What lowering leaves behind ----------

  /** No c-family statement anywhere. */
  predicate IsCore(s: Stmt)
    decreases s
  {
    match s
    case CStyleFor(_, _, _, _) => false
    case If(_, x, y) => AllCore(x) && AllCore(y)
    case While(_, body) => AllCore(body)
    case DoWhile(body, _) => AllCore(body)
    case For(_, _, _, _, body) => AllCore(body)
    case WithArena(_, _, body) => AllCore(body)
    case Match(_, _, arms) => forall i :: 0 <= i < |arms| ==> AllCore(arms[i].body)
    case _ => true
  }

  predicate AllCore(ss: seq<Stmt>)
    decreases ss
  {
    forall i :: 0 <= i < |ss| ==> IsCore(ss[i])
  }

  /** Do-while bodies are core already; elsewhere c-family statements may occur. */
  predicate CoreUnderDo(s: Stmt)
    decreases s
  {
    match s
    case CStyleFor(init, _, inc, body) =>
      && (init.Some? ==> CoreUnderDo(init.value))
      && (inc.Some? ==> CoreUnderDo(inc.value))
      && AllCoreUnderDo(body)
    case If(_, x, y) => AllCoreUnderDo(x) && AllCoreUnderDo(y)
    case While(_, body) => AllCoreUnderDo(body)
    case DoWhile(body, _) => AllCore(body)
    case For(_, _, _, _, body) => AllCoreUnderDo(body)
    case WithArena(_, _, body) => AllCoreUnderDo(body)
    case Match(_, _, arms) => forall i :: 0 <= i < |arms| ==> AllCoreUnderDo(arms[i].body)
    case _ => true
  }

  predicate AllCoreUnderDo(ss: seq<Stmt>)
    decreases ss
  {
    forall i :: 0 <= i < |ss| ==> CoreUnderDo(ss[i])
  }

  /** The result is pure core exactly when no c-family statement sits under a do-while. */
  lemma {:induction false} LoweredIsCore(ss: seq<Stmt>)
    ensures AllCore(LowerBody(ss)) <==> AllCoreUnderDo(ss)
    decreases ss
  {
    if ss != [] {
      StmtLoweredIsCore(ss[0]);
      LoweredIsCore(ss[1..]);
      CoreAppend(LowerStmt(ss[0]), LowerBody(ss[1..]));
      assert ss == [ss[0]] + ss[1..];
    }
  }

  lemma {:induction false} CoreAppend(xs: seq<Stmt>, ys: seq<Stmt>)
    ensures AllCore(xs + ys) <==> AllCore(xs) && AllCore(ys)
  {
    if AllCore(xs + ys) {
      forall i | 0 <= i < |xs| ensures IsCore(xs[i]) {
        assert (xs + ys)[i] == xs[i];
      }
      forall i | 0 <= i < |ys| ensures IsCore(ys[i]) {
        assert (xs + ys)[|xs| + i] == ys[i];
      }
    }
  }

  lemma {:induction false} StmtLoweredIsCore(s: Stmt)
    ensures AllCore(LowerStmt(s)) <==> CoreUnderDo(s)
    decreases s, 1
  {
    match s {
      case CStyleFor(_, _, _, _) =>
        ForLoweredIsCore(s);
      case Match(_, _, _) =>
        MatchLoweredIsCore(s);
      case If(c, x, y) =>
        LoweredIsCore(x);
        LoweredIsCore(y);
        OneIsCore(If(c, LowerBody(x), LowerBody(y)));
      case While(c, body) =>
        LoweredIsCore(body);
        OneIsCore(While(c, LowerBody(body)));
      case For(name, ty, lo, hi, body) =>
        LoweredIsCore(body);
        OneIsCore(For(name, ty, lo, hi, LowerBody(body)));
      case WithArena(name, capacity, body) =>
        LoweredIsCore(body);
        OneIsCore(WithArena(name, capacity, LowerBody(body)));
      case _ =>
        OneIsCore(s);
    }
  }

  lemma {:induction false} MatchLoweredIsCore(s: Stmt)
    requires s.Match?
    ensures AllCore(LowerStmt(s)) <==> CoreUnderDo(s)
    decreases s, 0
  {
    var lowered := LowerArms(s.arms);
    forall i | 0 <= i < |s.arms| ensures AllCore(lowered[i].body) <==> AllCoreUnderDo(s.arms[i].body) {
      LoweredIsCore(s.arms[i].body);
    }
    OneIsCore(Match(s.scrutinee, s.inferred, lowered));
  }

  lemma {:induction false} ForLoweredIsCore(s: Stmt)
    requires s.CStyleFor?
    ensures AllCore(LowerStmt(s)) <==> CoreUnderDo(s)
    decreases s, 0
  {
    var inits := if s.forInit.Some? then LowerStmt(s.forInit.value) else [];
    if s.forInit.Some? {
      StmtLoweredIsCore(s.forInit.value);
    }
    if s.inc.Some? {
      StmtLoweredIsCore(s.inc.value);
    }
    LoweredIsCore(s.body);
    ContinueWithIsCore(LowerBody(s.body), Steps(s));
    CoreAppend(ContinueWith(LowerBody(s.body), Steps(s)), Steps(s));
    CoreAppend(inits, [LoweredLoop(s)]);
    assert [LoweredLoop(s)][0] == LoweredLoop(s);
  }

  lemma {:induction false} ContinueWithIsCore(ss: seq<Stmt>, incs: seq<Stmt>)
    ensures AllCore(ContinueWith(ss, incs)) ==> AllCore(ss)
    ensures AllCore(ss) && AllCore(incs) ==> AllCore(ContinueWith(ss, incs))
    decreases ss, 1
  {
    if ss != [] {
      var head := ContinueWith([ss[0]], incs);
      assert ContinueWith([ss[0]][1..], incs) == [];
      assert ContinueWith(ss, incs) == head + ContinueWith(ss[1..], incs);
      CoreAppend(head, ContinueWith(ss[1..], incs));
      ContinueWithIsCore(ss[1..], incs);
      HeadContinueWithIsCore(ss[0], incs);
      assert ss == [ss[0]] + ss[1..];
      CoreAppend([ss[0]], ss[1..]);
    }
  }

  lemma {:induction false} HeadContinueWithIsCore(s: Stmt, incs: seq<Stmt>)
    ensures AllCore(ContinueWith([s], incs)) ==> IsCore(s)
    ensures IsCore(s) && AllCore(incs) ==> AllCore(ContinueWith([s], incs))
    decreases s, 0
  {
    assert ContinueWith([s][1..], incs) == [];
    match s {
      case Continue =>
        assert ContinueWith([s], incs) == incs + [Continue];
        CoreAppend(incs, [Continue]);
      case If(c, x, y) =>
        ContinueWithIsCore(x, incs);
        ContinueWithIsCore(y, incs);
        var s' := If(c, ContinueWith(x, incs), ContinueWith(y, incs));
        assert ContinueWith([s], incs) == [s'];
        OneIsCore(s');
      case _ =>
        assert ContinueWith([s], incs) == [s];
        OneIsCore(s);
    }
  }

  lemma {:induction false} OneIsCore(s: Stmt)
    ensures AllCore([s]) <==> IsCore(s)
  {
    assert [s][0] == s;
  }

  // ---------- Where the rewrite misses a continue ----------

  /** The rewrite that C asks for: it also enters arenas and match arms. */
  function ContinueEverywhere(ss: seq<Stmt>, incs: seq<Stmt>): seq<Stmt>
    decreases ss
  {
    if ss == [] then []
    else
      (match ss[0]
       case Continue => incs + [Continue]
       case If(c, x, y) => [If(c, ContinueEverywhere(x, incs), ContinueEverywhere(y, incs))]
       case WithArena(name, capacity, body) => [WithArena(name, capacity, ContinueEverywhere(body, incs))]
       case Match(scrutinee, inferred, arms) => [Match(scrutinee, inferred, ContinueInArms(arms, incs))]
       case _ => [ss[0]])
      + ContinueEverywhere(ss[1..], incs)
  }

  function ContinueInArms(arms: seq<MatchArm>, incs: seq<Stmt>): (r: seq<MatchArm>)
    ensures |r| == |arms|
    ensures forall i :: 0 <= i < |arms| ==> r[i] == arms[i].(body := ContinueEverywhere(arms[i].body, incs))
    decreases arms
  {
    if arms == [] then []
    else [MatchArm(arms[0].variant, arms[0].bindings, ContinueEverywhere(arms[0].body, incs))] + ContinueInArms(arms[1..], incs)
  }

  /** The clauses of C-style loops do not continue the loop around. */
  predicate QuietClauses(ss: seq<Stmt>)
    decreases ss
  {
    forall i :: 0 <= i < |ss| ==> QuietClausesIn(ss[i])
  }

  predicate QuietClausesIn(s: Stmt)
    decreases s
  {
    match s
    case If(_, x, y) => QuietClauses(x) && QuietClauses(y)
    case WithArena(_, _, body) => QuietClauses(body)
    case Match(_, _, arms) => forall i :: 0 <= i < |arms| ==> QuietClauses(arms[i].body)
    case CStyleFor(_, _, _, _) => NoOwnContinue(s)
    case _ => true
  }

  /** No arm around a continue binds a name that the step mentions. */
  predicate Uncaptured(ss: seq<Stmt>, incs: seq<Stmt>)
    decreases ss
  {
    forall i :: 0 <= i < |ss| ==> UncapturedIn(ss[i], incs)
  }

  predicate UncapturedIn(s: Stmt, incs: seq<Stmt>)
    decreases s
  {
    match s
    case If(_, x, y) => Uncaptured(x, incs) && Uncaptured(y, incs)
    case WithArena(_, _, body) => Uncaptured(body, incs)
    case Match(_, _, arms) =>
      forall i :: 0 <= i < |arms| ==>
        && Uncaptured(arms[i].body, incs)
        && (NoneContinues(arms[i].body) || AllAvoid(incs, Elements(arms[i].bindings)))
    case _ => true
  }

  /** Running the step before the bindings disappear is running it behind the arm. */
  lemma {:induction false} StepLeavesArm(m: Machine, fuel: nat, arm: MatchArm, incs: seq<Stmt>, before: State, ran: Out<State, ()>)
    requires (ran.Halt? && ran.sig.Continued?) ==> AllAvoid(incs, Elements(arm.bindings))
    ensures LeaveArm(arm, before, ThenStep(m, fuel, incs, ran)) == ThenStep(m, fuel, incs, LeaveArm(arm, before, ran))
  {
    if ran.Halt? && ran.sig.Continued? {
      var veil := Veil(Elements(arm.bindings), before.store);
      assert LeaveArm(arm, before, ran).st == Veiled(veil, ran.st);
      ExecAllVeils(veil, m, fuel, incs, ran.st);
    }
  }

  /** It runs as the body with the step before every continue, hidden or not. */
  lemma {:induction false} ContinueEverywhereRuns(m: Machine, fuel: nat, ss: seq<Stmt>, incs: seq<Stmt>, st: State)
    requires QuietClauses(ss) && Uncaptured(ss, incs)
    ensures ExecAll(m, fuel, ContinueEverywhere(ss, incs), st) == ThenStep(m, fuel, incs, ExecAll(m, fuel, ss, st))
    decreases ss, 1
  {
    if ss != [] {
      var head := ContinueEverywhere([ss[0]], incs);
      assert [ss[0]][1..] == [];
      HeadContinueEverywhereRuns(m, fuel, ss[0], incs, st);
      assert ContinueEverywhere(ss, incs) == head + ContinueEverywhere(ss[1..], incs);
      ExecAllSplit(m, fuel, head, ContinueEverywhere(ss[1..], incs), st);
      var out := Exec(m, fuel, ss[0], st);
      if out.Value? {
        ContinueEverywhereRuns(m, fuel, ss[1..], incs, out.st);
      }
    }
  }

  lemma {:induction false} HeadContinueEverywhereRuns(m: Machine, fuel: nat, s: Stmt, incs: seq<Stmt>, st: State)
    requires QuietClausesIn(s) && UncapturedIn(s, incs)
    ensures ExecAll(m, fuel, ContinueEverywhere([s], incs), st) == ThenStep(m, fuel, incs, Exec(m, fuel, s, st))
    decreases s, 1
  {
    assert ContinueEverywhere([s][1..], incs) == [];
    match s {
      case Continue =>
        assert ContinueEverywhere([s], incs) == incs + [Continue];
        ExecAllSplit(m, fuel, incs, [Continue], st);
      case If(c, x, y) =>
        var s' := If(c, ContinueEverywhere(x, incs), ContinueEverywhere(y, incs));
        assert ContinueEverywhere([s], incs) == [s'];
        RunsAlone(m, fuel, s', st);
        var out := Eval(m, fuel, c, st);
        if out.Value? {
          ContinueEverywhereRuns(m, fuel, if Truthy(out.value) then x else y, incs, out.st);
        }
      case WithArena(_, _, _) => ArenaContinues(m, fuel, s, incs, st);
      case Match(_, _, _) => MatchContinues(m, fuel, s, incs, st);
      case _ =>
        assert ContinueEverywhere([s], incs) == [s];
        RunsAlone(m, fuel, s, st);
        StmtNeverContinues(m, fuel, s, st);
    }
  }

  lemma {:induction false} ArenaContinues(m: Machine, fuel: nat, s: Stmt, incs: seq<Stmt>, st: State)
    requires s.WithArena? && QuietClausesIn(s) && UncapturedIn(s, incs)
    ensures ExecAll(m, fuel, ContinueEverywhere([s], incs), st) == ThenStep(m, fuel, incs, Exec(m, fuel, s, st))
    decreases s, 0
  {
    assert [s][1..] == [];
    var s' := WithArena(s.name, s.capacity, ContinueEverywhere(s.body, incs));
    assert ContinueEverywhere([s], incs) == [s'];
    RunsAlone(m, fuel, s', st);
    var out := Eval(m, fuel, s.capacity, st);
    if out.Value? {
      var handle := Ask(m, OfArena, [out.value], out.st);
      ContinueEverywhereRuns(m, fuel, s.body, incs, Write(s.name, handle.value, handle.st));
    }
  }

  lemma {:induction false} MatchContinues(m: Machine, fuel: nat, s: Stmt, incs: seq<Stmt>, st: State)
    requires s.Match? && QuietClausesIn(s) && UncapturedIn(s, incs)
    ensures ExecAll(m, fuel, ContinueEverywhere([s], incs), st) == ThenStep(m, fuel, incs, Exec(m, fuel, s, st))
    decreases s, 0
  {
    assert [s][1..] == [];
    var arms := ContinueInArms(s.arms, incs);
    var s' := Match(s.scrutinee, s.inferred, arms);
    assert ContinueEverywhere([s], incs) == [s'];
    RunsAlone(m, fuel, s', st);
    var out := Eval(m, fuel, s.scrutinee, st);
    if out.Value? && out.value.EnumV? {
      SameArms(s.arms, arms, out.value.variant);
      SameArms(s.arms, arms, "_");
      var k := PickArm(s.arms, out.value.variant);
      if k.Some? {
        var arm := s.arms[k.value];
        if arm.variant == "_" {
          ContinueEverywhereRuns(m, fuel, arm.body, incs, out.st);
        } else if |arm.bindings| == |out.value.fields| {
          var inner := ArmStore(arm, out.value, out.st);
          ContinueEverywhereRuns(m, fuel, arm.body, incs, inner);
          if NoneContinues(arm.body) {
            NeverContinues(m, fuel, arm.body, inner);
          }
          StepLeavesArm(m, fuel, arm, incs, out.st, ExecAll(m, fuel, arm.body, inner));
        }
      }
    }
  }

  lemma {:induction false} EverywhereGrows(ss: seq<Stmt>, incs: seq<Stmt>)
    ensures |ContinueEverywhere(ss, incs)| >= |ss|
    decreases ss
  {
    if ss != [] {
      EverywhereGrows(ss[1..], incs);
    }
  }

  lemma {:induction false} ConsIsEqual<T>(x: T, y: T, xs: seq<T>, ys: seq<T>)
    ensures [x] + xs == [y] + ys <==> x == y && xs == ys
  {
    assert ([x] + xs)[0] == x && ([y] + ys)[0] == y;
    assert ([x] + xs)[1..] == xs && ([y] + ys)[1..] == ys;
  }

  /** It changes a body exactly when the body has a continue of its own. */
  lemma {:induction false} EverywhereChanges(ss: seq<Stmt>, incs: seq<Stmt>)
    requires incs != [] && QuietClauses(ss)
    ensures ContinueEverywhere(ss, incs) == ss <==> NoneContinues(ss)
    decreases ss, 1
  {
    if ss != [] {
      EverywhereGrows(ss[1..], incs);
      EverywhereChanges(ss[1..], incs);
      assert NoneContinues(ss) <==> NoOwnContinue(ss[0]) && NoneContinues(ss[1..]) by {
        assert forall i :: 1 <= i < |ss| ==> ss[i] == ss[1..][i - 1];
      }
      assert ss == [ss[0]] + ss[1..];
      if !ss[0].Continue? {
        EverywhereChangesOne(ss[0], incs);
        var s' := ContinueEverywhere([ss[0]], incs)[0];
        assert [ss[0]][1..] == [];
        assert ContinueEverywhere(ss, incs) == [s'] + ContinueEverywhere(ss[1..], incs);
        ConsIsEqual(s', ss[0], ContinueEverywhere(ss[1..], incs), ss[1..]);
      }
    }
  }

  lemma {:induction false} EverywhereChangesOne(s: Stmt, incs: seq<Stmt>)
    requires incs != [] && QuietClausesIn(s) && !s.Continue?
    ensures |ContinueEverywhere([s], incs)| == 1
    ensures ContinueEverywhere([s], incs)[0] == s <==> NoOwnContinue(s)
    decreases s, 0
  {
    assert [s][1..] == [];
    match s {
      case If(_, x, y) =>
        EverywhereChanges(x, incs);
        EverywhereChanges(y, incs);
      case WithArena(_, _, body) => EverywhereChanges(body, incs);
      case Match(_, _, arms) =>
        forall i | 0 <= i < |arms|
          ensures ContinueEverywhere(arms[i].body, incs) == arms[i].body <==> NoneContinues(arms[i].body) {
          EverywhereChanges(arms[i].body, incs);
        }
        assert ContinueInArms(arms, incs) == arms <==> ArmsDoNotContinue(arms);
      case _ =>
    }
  }

  /** The rewrite reaches every continue exactly when none is hidden in an arena or a match arm. */
  lemma {:induction false} ReachesEveryContinueExactly(ss: seq<Stmt>, incs: seq<Stmt>)
    requires incs != [] && QuietClauses(ss)
    ensures ContinueWith(ss, incs) == ContinueEverywhere(ss, incs) <==> ContinuesVisible(ss)
    decreases ss, 1
  {
    if ss != [] {
      ReachesEveryContinueExactly(ss[1..], incs);
      var rest, all := ContinueWith(ss[1..], incs), ContinueEverywhere(ss[1..], incs);
      assert ContinuesVisible(ss) <==> Visible(ss[0]) && ContinuesVisible(ss[1..]) by {
        assert forall i :: 1 <= i < |ss| ==> ss[i] == ss[1..][i - 1];
      }
      if ss[0].Continue? {
        assert (incs + [Continue] + rest)[|incs| + 1..] == rest && (incs + [Continue] + all)[|incs| + 1..] == all;
      } else {
        ReachesInOne(ss[0], incs);
        assert [ss[0]][1..] == [];
        ConsIsEqual(ContinueWith([ss[0]], incs)[0], ContinueEverywhere([ss[0]], incs)[0], rest, all);
      }
    }
  }

  lemma {:induction false} ReachesInOne(s: Stmt, incs: seq<Stmt>)
    requires incs != [] && QuietClausesIn(s) && !s.Continue?
    ensures |ContinueWith([s], incs)| == 1 && |ContinueEverywhere([s], incs)| == 1
    ensures ContinueWith([s], incs)[0] == ContinueEverywhere([s], incs)[0] <==> Visible(s)
    decreases s, 0
  {
    assert [s][1..] == [];
    if s.If? {
      ReachesEveryContinueExactly(s.thenBody, incs);
      ReachesEveryContinueExactly(s.elseBody, incs);
    } else {
      EverywhereChangesOne(s, incs);
    }
  }

  const ZERO := Leaf(IntLit(I32, 0))

  predicate IsOne(st: State) {
    "x" in st.store && st.store["x"] == Int(1)
  }

  /** From any state where `x` is 1, the statement continues its loop and `x` is still 1. */
  ghost predicate HidesContinue(m: Machine, hidden: Stmt) {
    && (hidden.WithArena? || hidden.Match?)
    && LowerStmt(hidden) == [hidden]
    && forall n: nat, t :: IsOne(t) ==>
         var out := Exec(m, n, hidden, t); out.Halt? && out.sig.Continued? && IsOne(out.st)
  }

  /** `for (; x; x = 0) hidden` */
  function Misrewritten(hidden: Stmt): Stmt {
    CStyleFor(None, Some(Leaf(LocalRef("x"))), Some(Assign("x", ZERO)), [hidden])
  }

  function MisrewrittenLoop(hidden: Stmt): Stmt {
    While(Leaf(LocalRef("x")), [hidden, Assign("x", ZERO)])
  }

  lemma {:induction false} LoweredNeverEnds(m: Machine, fuel: nat, hidden: Stmt, st: State)
    requires HidesContinue(m, hidden) && IsOne(st)
    ensures var out := Exec(m, fuel, MisrewrittenLoop(hidden), st); out.Halt? && out.sig.OutOfFuel?
  {
    if fuel > 0 {
      var loop, ran := MisrewrittenLoop(hidden), Exec(m, fuel, hidden, st);
      assert Eval(m, fuel, loop.cond, st) == Value(Int(1), st);
      assert loop.body[0] == hidden && ExecAll(m, fuel, loop.body, st) == Halt(Continued, ran.st);
      LoweredNeverEnds(m, fuel - 1, hidden, ran.st);
    }
  }

  lemma {:induction false} StructuredEnds(m: Machine, fuel: nat, hidden: Stmt, st: State)
    requires HidesContinue(m, hidden) && fuel > 1 && IsOne(st)
    ensures CForTurns(m, fuel, Misrewritten(hidden), st).Value?
  {
    assert Eval(m, fuel, Leaf(LocalRef("x")), st) == Value(Int(1), st);
    RunsAlone(m, fuel, hidden, st);
    var t := Exec(m, fuel, hidden, st).st;
    assert Eval(m, fuel, ZERO, t) == Value(Int(0), t);
    var u := Write("x", Int(0), t);
    assert Exec(m, fuel, Assign("x", ZERO), t) == Value((), u);
    assert Eval(m, fuel - 1, Leaf(LocalRef("x")), u) == Value(Int(0), u);
    assert CForTurns(m, fuel - 1, Misrewritten(hidden), u) == Value((), u);
  }

  lemma {:induction false} MisrewrittenLowers(m: Machine, hidden: Stmt)
    requires HidesContinue(m, hidden)
    ensures LowerStmt(Misrewritten(hidden)) == [MisrewrittenLoop(hidden)]
  {
    assert [hidden][1..] == [];
    assert LowerBody([hidden]) == [hidden];
    var incs := LowerStmt(Assign("x", ZERO));
    assert ContinueWith([hidden], incs) == [hidden];
    assert LoweredLoop(Misrewritten(hidden)) == MisrewrittenLoop(hidden);
    assert LowerStmt(Misrewritten(hidden)) == [] + [LoweredLoop(Misrewritten(hidden))];
  }

  /**
   * A `continue` hidden from the rewrite skips the step: with any such statement in it this
   * loop ends after one turn, and its lowering never does.
   */
  lemma {:induction false} HiddenContinueGap(m: Machine, fuel: nat, hidden: Stmt, st: State)
    requires HidesContinue(m, hidden) && fuel > 1 && IsOne(st)
    ensures Exec(m, fuel, Misrewritten(hidden), st).Value?
    ensures var out := ExecAll(m, fuel, LowerStmt(Misrewritten(hidden)), st); out.Halt? && out.sig.OutOfFuel?
  {
    StructuredEnds(m, fuel, hidden, st);
    MisrewrittenLowers(m, hidden);
    LoweredNeverEnds(m, fuel, hidden, st);
    RunsAlone(m, fuel, LowerStmt(Misrewritten(hidden))[0], st);
  }

  lemma {:induction false} ContinueIsLowered()
    ensures LowerBody([Continue]) == [Continue]
  {
    assert [Continue][1..] == [];
    assert LowerBody([]) == [];
  }

  lemma {:induction false} ArenaHides(m: Machine)
    ensures HidesContinue(m, WithArena("a", ZERO, [Continue]))
  {
    var hidden := WithArena("a", ZERO, [Continue]);
    ContinueIsLowered();
    forall n: nat, t | IsOne(t)
      ensures var out := Exec(m, n, hidden, t); out.Halt? && out.sig.Continued? && IsOne(out.st) {
      assert Eval(m, n, ZERO, t) == Value(Int(0), t);
      var handle := Ask(m, OfArena, [Int(0)], t);
      RunsAlone(m, n, Continue, Write("a", handle.value, handle.st));
    }
  }

  lemma {:induction false} ArmHides(m: Machine)
    ensures HidesContinue(m, Match(Nary(EnumInit("E", [], "V", []), []), Some("E"), [MatchArm("V", [], [Continue])]))
  {
    var value, arm := Nary(EnumInit("E", [], "V", []), []), MatchArm("V", [], [Continue]);
    var hidden := Match(value, Some("E"), [arm]);
    ContinueIsLowered();
    assert [arm][1..] == [];
    assert LowerArms([arm]) == [arm];
    forall n: nat, t | IsOne(t)
      ensures var out := Exec(m, n, hidden, t); out.Halt? && out.sig.Continued? && IsOne(out.st) {
      assert EvalAll(m, n, [], t) == Value([], t);
      assert Eval(m, n, value, t) == Value(EnumV("E", "V", []), t);
      assert PickArm([arm], "V") == Some(0);
      assert ArmStore(arm, EnumV("E", "V", []), t) == t by {
        assert t.store + Bind([], []) == t.store;
      }
      RunsAlone(m, n, Continue, t);
    }
  }
}
