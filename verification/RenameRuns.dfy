/** Renaming a function preserves every run: only the names of entered frames change. */
module RenameRuns {
  import opened Wrappers
  import opened QuodTree
  import opened Runs
  import opened QuodRun
  import opened Rename
  import Arithmetic

  function RenamedMachine(r: Renaming, m: Machine): Machine {
    var names := set f | f in m.functions :: NewName(r, f);
    Machine(map f | f in names && NewName(Back(r), f) in m.functions :: RenameFn(r, m.functions[NewName(Back(r), f)]),
            m.strings, m.enums, m.world)
  }

  /** The new name is used by no function, extern or call. */
  predicate Renamable(r: Renaming, m: Machine) {
    && r.old_ != r.new_
    && r.old_ in m.functions
    && r.new_ !in m.functions
    && forall f :: f in m.functions ==> m.functions[f].name == f && NoCalls(m.functions[f].body, r.new_)
  }

  function MovedFrame(r: Renaming, frame: Frame): Frame {
    Frame(NewName(r, frame.callee), frame.args)
  }

  function MovedFrames(r: Renaming, frames: seq<Frame>): (moved: seq<Frame>)
    ensures |moved| == |frames| && forall k :: 0 <= k < |frames| ==> moved[k] == MovedFrame(r, frames[k])
  {
    if frames == [] then [] else [MovedFrame(r, frames[0])] + MovedFrames(r, frames[1..])
  }

  function Moved(r: Renaming, st: State): State {
    st.(frames := MovedFrames(r, st.frames))
  }

  function MovedOut<T>(r: Renaming, out: Out<State, T>): Out<State, T> {
    match out
    case Value(v, st) => Value(v, Moved(r, st))
    case Halt(sig, st) => Halt(sig, Moved(r, st))
  }

  lemma {:induction false} MovedAppend(r: Renaming, frames: seq<Frame>, frame: Frame)
    ensures MovedFrames(r, frames + [frame]) == MovedFrames(r, frames) + [MovedFrame(r, frame)]
  {}

  lemma {:induction false} Lookup(r: Renaming, m: Machine, f: string)
    requires Renamable(r, m) && f != r.new_
    ensures NewName(r, f) in RenamedMachine(r, m).functions <==> f in m.functions
    ensures f in m.functions ==> RenamedMachine(r, m).functions[NewName(r, f)] == RenameFn(r, m.functions[f])
  {}

  ghost predicate EvalSame(r: Renaming, m: Machine, fuel: nat, e: Expr, st: State) {
    Eval(RenamedMachine(r, m), fuel, RenameExpr(r, e), Moved(r, st)) == MovedOut(r, Eval(m, fuel, e, st))
  }

  lemma {:induction false} EvalMoves(r: Renaming, m: Machine, fuel: nat, e: Expr, st: State)
    requires Renamable(r, m) && NoCall(e, r.new_)
    ensures EvalSame(r, m, fuel, e, st)
    decreases fuel, e, 2
  {
    match e {
      case Leaf(leaf) => LeafMoves(r, m, leaf, st);
      case Unary(op, x) =>
        EvalMoves(r, m, fuel, x, st);
        UnaryMoves(r, m, fuel, e, st);
      case Binary(_, x, y) =>
        EvalMoves(r, m, fuel, x, st);
        EvalMoves(r, m, fuel, y, Eval(m, fuel, x, st).st);
        BinaryMoves(r, m, fuel, e, st);
      case Nary(_, _) => NaryMoves(r, m, fuel, e, st);
      case IfExpr(c, x, y) =>
        EvalMoves(r, m, fuel, c, st);
        var t := Eval(m, fuel, c, st).st;
        EvalMoves(r, m, fuel, x, t);
        EvalMoves(r, m, fuel, y, t);
    }
  }

  lemma {:induction false} LeafMoves(r: Renaming, m: Machine, leaf: Leaf, st: State)
    ensures EvalLeaf(RenamedMachine(r, m), leaf, Moved(r, st)) == MovedOut(r, EvalLeaf(m, leaf, st))
  {}

  lemma {:induction false} ApplyUnaryMoves(r: Renaming, m: Machine, op: UnaryOp, v: Val, st: State)
    ensures ApplyUnary(RenamedMachine(r, m), op, v, Moved(r, st)) == MovedOut(r, ApplyUnary(m, op, v, st))
  {}

  lemma {:induction false} UnaryMoves(r: Renaming, m: Machine, fuel: nat, e: Expr, st: State)
    requires e.Unary? && EvalSame(r, m, fuel, e.operand, st)
    ensures EvalSame(r, m, fuel, e, st)
  {
    var out := Eval(m, fuel, e.operand, st);
    if out.Value? {
      ApplyUnaryMoves(r, m, e.uop, out.value, out.st);
    }
  }

  lemma {:induction false} ApplyArithMoves(r: Renaming, m: Machine, op: ArithOp, x: Val, y: Val, st: State)
    ensures ApplyArith(RenamedMachine(r, m), op, x, y, Moved(r, st)) == MovedOut(r, ApplyArith(m, op, x, y, st))
  {}

  lemma {:induction false} BinaryMoves(r: Renaming, m: Machine, fuel: nat, e: Expr, st: State)
    requires e.Binary? && EvalSame(r, m, fuel, e.lhs, st) && EvalSame(r, m, fuel, e.rhs, Eval(m, fuel, e.lhs, st).st)
    ensures EvalSame(r, m, fuel, e, st)
  {
    var x := Eval(m, fuel, e.lhs, st);
    if x.Value? {
      RightMoves(r, m, fuel, e, x.value, x.st);
    }
  }

  lemma {:induction false} RightMoves(r: Renaming, m: Machine, fuel: nat, e: Expr, v: Val, st: State)
    requires e.Binary? && EvalSame(r, m, fuel, e.rhs, st)
    ensures EvalRight(RenamedMachine(r, m), fuel, RenameExpr(r, e), v, Moved(r, st)) == MovedOut(r, EvalRight(m, fuel, e, v, st))
  {
    var y := Eval(m, fuel, e.rhs, st);
    var e' := RenameExpr(r, e);
    assert e'.bop == e.bop && e'.rhs == RenameExpr(r, e.rhs);
    if y.Value? {
      match e.bop {
        case Arith(op) => ApplyArithMoves(r, m, op, v, y.value, y.st);
        case PtrOffset => AskMoves(r, m, OfOffset, [v, y.value], y.st);
        case _ =>
      }
    }
  }

  lemma {:induction false} AskMoves(r: Renaming, m: Machine, query: Query, args: seq<Val>, st: State)
    ensures Ask(RenamedMachine(r, m), query, args, Moved(r, st)) == MovedOut(r, Ask(m, query, args, st))
  {}

  lemma {:induction false} ApplyNaryMoves(r: Renaming, m: Machine, op: NaryOp, vs: seq<Val>, st: State)
    requires op.Call? ==> op.function_ != r.old_
    ensures ApplyNary(RenamedMachine(r, m), RenameOp(r, op), vs, Moved(r, st)) == MovedOut(r, ApplyNary(m, op, vs, st))
  {}

  lemma {:induction false} NaryMoves(r: Renaming, m: Machine, fuel: nat, e: Expr, st: State)
    requires Renamable(r, m) && NoCall(e, r.new_) && e.Nary?
    ensures EvalSame(r, m, fuel, e, st)
    decreases fuel, e, 1
  {
    EvalAllMoves(r, m, fuel, e.args, st);
    if e.nop.Call? && e.nop.function_ in m.functions {
      CallMoves(r, m, fuel, e, st);
    } else {
      var out := EvalAll(m, fuel, e.args, st);
      if e.nop.Call? {
        Lookup(r, m, e.nop.function_);
      }
      if out.Value? {
        ApplyNaryMoves(r, m, e.nop, out.value, out.st);
      }
    }
  }

  lemma {:induction false} CallMoves(r: Renaming, m: Machine, fuel: nat, e: Expr, st: State)
    requires Renamable(r, m) && NoCall(e, r.new_) && e.Nary? && e.nop.Call? && e.nop.function_ in m.functions
    requires EvalAll(RenamedMachine(r, m), fuel, RenameExprs(r, e.args), Moved(r, st)) ==
             MovedOut(r, EvalAll(m, fuel, e.args, st))
    ensures EvalSame(r, m, fuel, e, st)
    decreases fuel, e, 0
  {
    Lookup(r, m, e.nop.function_);
    var out := EvalAll(m, fuel, e.args, st);
    var fn := m.functions[e.nop.function_];
    if out.Value? && |out.value| == |fn.params| && fuel > 0 {
      BodyMoves(r, m, fuel - 1, fn, out.value, out.st);
      LeaveMoves(r, out.st, Body(m, fuel - 1, fn, out.value, out.st));
    }
  }

  lemma {:induction false} LeaveMoves(r: Renaming, caller: State, body: Out<State, ()>)
    ensures Leave(Moved(r, caller), MovedOut(r, body)) == MovedOut(r, Leave(caller, body))
  {}

  lemma {:induction false} EvalAllMoves(r: Renaming, m: Machine, fuel: nat, es: seq<Expr>, st: State)
    requires Renamable(r, m) && forall i :: 0 <= i < |es| ==> NoCall(es[i], r.new_)
    ensures EvalAll(RenamedMachine(r, m), fuel, RenameExprs(r, es), Moved(r, st)) == MovedOut(r, EvalAll(m, fuel, es, st))
    decreases fuel, es
  {
    if es != [] {
      EvalMoves(r, m, fuel, es[0], st);
      EvalAllMoves(r, m, fuel, es[1..], Eval(m, fuel, es[0], st).st);
      assert RenameExprs(r, es)[1..] == RenameExprs(r, es[1..]);
    }
  }

  /** Running a renamed function gives the same outcome as the original. */
  lemma {:induction false} BodyMoves(r: Renaming, m: Machine, fuel: nat, fn: Function, vs: seq<Val>, st: State)
    requires Renamable(r, m) && NoCalls(fn.body, r.new_) && |vs| == |fn.params|
    ensures Body(RenamedMachine(r, m), fuel, RenameFn(r, fn), vs, Moved(r, st)) == MovedOut(r, Body(m, fuel, fn, vs, st))
    decreases fuel, fn.body, 1
  {
    MovedAppend(r, st.frames, Frame(fn.name, vs));
    ExecAllMoves(r, m, fuel, fn.body, State(Bind(ParamNames(fn.params), vs), st.io, st.frames + [Frame(fn.name, vs)]));
  }

  ghost predicate ExecSame(r: Renaming, m: Machine, fuel: nat, s: Stmt, st: State) {
    Exec(RenamedMachine(r, m), fuel, RenameStmt(r, s), Moved(r, st)) == MovedOut(r, Exec(m, fuel, s, st))
  }

  lemma {:induction false} ExecAllMoves(r: Renaming, m: Machine, fuel: nat, ss: seq<Stmt>, st: State)
    requires Renamable(r, m) && NoCalls(ss, r.new_)
    ensures ExecAll(RenamedMachine(r, m), fuel, RenameStmts(r, ss), Moved(r, st)) == MovedOut(r, ExecAll(m, fuel, ss, st))
    decreases fuel, ss, 0
  {
    if ss != [] {
      ExecMoves(r, m, fuel, ss[0], st);
      ExecAllMoves(r, m, fuel, ss[1..], Exec(m, fuel, ss[0], st).st);
      assert RenameStmts(r, ss)[1..] == RenameStmts(r, ss[1..]);
    }
  }

  lemma {:induction false} ExecMoves(r: Renaming, m: Machine, fuel: nat, s: Stmt, st: State)
    requires Renamable(r, m) && NoCallIn(s, r.new_)
    ensures ExecSame(r, m, fuel, s, st)
    decreases fuel, s, 3
  {
    if
    case s.If? =>
      EvalMoves(r, m, fuel, s.cond, st);
      var out := Eval(m, fuel, s.cond, st);
      if out.Value? {
        ExecAllMoves(r, m, fuel, if Truthy(out.value) then s.thenBody else s.elseBody, out.st);
      }
    case s.While? =>
      WhileMoves(r, m, fuel, s, st);
    case s.DoWhile? =>
      DoWhileMoves(r, m, fuel, s, st);
    case s.For? =>
      ForMoves(r, m, fuel, s, st);
    case s.Match? =>
      MatchMoves(r, m, fuel, s, st);
    case s.WithArena? =>
      EvalMoves(r, m, fuel, s.capacity, st);
      var out := Eval(m, fuel, s.capacity, st);
      if out.Value? {
        var handle := Ask(m, OfArena, [out.value], out.st);
        ExecAllMoves(r, m, fuel, s.body, Write(s.name, handle.value, handle.st));
      }
    case s.CStyleFor? =>
      CStyleForMoves(r, m, fuel, s, st);
    case !HasBody(s) =>
      SimpleMoves(r, m, fuel, s, st);
  }

  lemma {:induction false} SimpleMoves(r: Renaming, m: Machine, fuel: nat, s: Stmt, st: State)
    requires Renamable(r, m) && NoCallIn(s, r.new_) && !HasBody(s)
    ensures ExecSame(r, m, fuel, s, st)
    decreases fuel, s, 2
  {
    match s {
      case Let(_, _, Some(e)) => EvalMoves(r, m, fuel, e, st);
      case Assign(_, e) => EvalMoves(r, m, fuel, e, st);
      case ExprStmt(e) => EvalMoves(r, m, fuel, e, st);
      case ReturnExpr(e) => EvalMoves(r, m, fuel, e, st);
      case FieldSet(_, _, e) => EvalMoves(r, m, fuel, e, st);
      case Store(_, _) => StoreMoves(r, m, fuel, s, st);
      case StoreField(_, _, _, _, _) => StoreMoves(r, m, fuel, s, st);
      case _ =>
    }
  }

  lemma {:induction false} StoreMoves(r: Renaming, m: Machine, fuel: nat, s: Stmt, st: State)
    requires Renamable(r, m) && NoCallIn(s, r.new_) && (s.Store? || s.StoreField?)
    ensures ExecSame(r, m, fuel, s, st)
    decreases fuel, s, 1
  {
    EvalMoves(r, m, fuel, s.ptr, st);
    EvalMoves(r, m, fuel, s.value, Eval(m, fuel, s.ptr, st).st);
  }

  lemma {:induction false} WhileMoves(r: Renaming, m: Machine, fuel: nat, s: Stmt, st: State)
    requires Renamable(r, m) && NoCallIn(s, r.new_) && s.While?
    ensures ExecSame(r, m, fuel, s, st)
    decreases fuel, s, 2
  {
    if fuel > 0 {
      EvalMoves(r, m, fuel, s.cond, st);
      var out := Eval(m, fuel, s.cond, st);
      if out.Value? && Truthy(out.value) {
        ExecAllMoves(r, m, fuel, s.body, out.st);
        var turn := AfterBody(ExecAll(m, fuel, s.body, out.st));
        if turn.Next? {
          WhileMoves(r, m, fuel - 1, s, turn.st);
        }
      }
    }
  }

  lemma {:induction false} DoWhileMoves(r: Renaming, m: Machine, fuel: nat, s: Stmt, st: State)
    requires Renamable(r, m) && NoCallIn(s, r.new_) && s.DoWhile?
    ensures ExecSame(r, m, fuel, s, st)
    decreases fuel, s, 2
  {
    if fuel > 0 {
      ExecAllMoves(r, m, fuel, s.body, st);
      var turn := AfterBody(ExecAll(m, fuel, s.body, st));
      if turn.Next? {
        EvalMoves(r, m, fuel, s.cond, turn.st);
        var out := Eval(m, fuel, s.cond, turn.st);
        if out.Value? && Truthy(out.value) {
          DoWhileMoves(r, m, fuel - 1, s, out.st);
        }
      }
    }
  }

  lemma {:induction false} ForMoves(r: Renaming, m: Machine, fuel: nat, s: Stmt, st: State)
    requires Renamable(r, m) && NoCallIn(s, r.new_) && s.For?
    ensures ExecSame(r, m, fuel, s, st)
    decreases fuel, s, 2
  {
    EvalMoves(r, m, fuel, s.lo, st);
    var lo := Eval(m, fuel, s.lo, st);
    if lo.Value? {
      EvalMoves(r, m, fuel, s.hi, lo.st);
      var hi := Eval(m, fuel, s.hi, lo.st);
      if hi.Value? && hi.value.Int? {
        ForTurnsMove(r, m, fuel, s, hi.value.n, Write(s.name, lo.value, hi.st));
      }
    }
  }

  lemma {:induction false} AfterBodyMoves(r: Renaming, ran: Out<State, ()>)
    ensures AfterBody(MovedOut(r, ran)) ==
            (match AfterBody(ran)
             case Next(t) => Next(Moved(r, t))
             case Exit(out) => Exit(MovedOut(r, out)))
  {}

  /** One variable is read alike. */
  lemma {:induction false} ReadVarMoves(r: Renaming, name: string, st: State)
    ensures ReadVar(name, Moved(r, st)) == MovedOut(r, ReadVar(name, st))
  {}

  /** The renamed loop body ends its turn as the original does. */
  lemma {:induction false} TurnMoves(r: Renaming, m: Machine, fuel: nat, s: Stmt, st: State)
    requires Renamable(r, m) && NoCallIn(s, r.new_) && (s.For? || s.CStyleFor?)
    ensures var turn := AfterBody(ExecAll(m, fuel, s.body, st));
            var turn' := AfterBody(ExecAll(RenamedMachine(r, m), fuel, RenameStmt(r, s).body, Moved(r, st)));
            turn' == (match turn case Next(t) => Next(Moved(r, t)) case Exit(out) => Exit(MovedOut(r, out)))
    decreases fuel, s, 0
  {
    assert RenameStmt(r, s).body == RenameStmts(r, s.body);
    ExecAllMoves(r, m, fuel, s.body, st);
    AfterBodyMoves(r, ExecAll(m, fuel, s.body, st));
  }

  lemma {:induction false} ForTurnsMove(r: Renaming, m: Machine, fuel: nat, s: Stmt, hi: int, st: State)
    requires Renamable(r, m) && NoCallIn(s, r.new_) && s.For?
    ensures ForTurns(RenamedMachine(r, m), fuel, RenameStmt(r, s), hi, Moved(r, st)) ==
            MovedOut(r, ForTurns(m, fuel, s, hi, st))
    decreases fuel, s, 1
  {
    if fuel > 0 {
      var s' := RenameStmt(r, s);
      assert s'.For? && s'.name == s.name;
      ReadVarMoves(r, s.name, st);
      var i := ReadVar(s.name, st);
      if i.Value? && i.value.Int? && i.value.n < hi {
        TurnMoves(r, m, fuel, s, st);
        var turn := AfterBody(ExecAll(m, fuel, s.body, st));
        if turn.Next? {
          ReadVarMoves(r, s.name, turn.st);
          var j := ReadVar(s.name, turn.st);
          if j.Value? && j.value.Int? {
            var next := Write(s.name, Int(Arithmetic.Wrap(j.value.n + 1)), turn.st);
            ForTurnsMove(r, m, fuel - 1, s, hi, next);
            assert Write(s.name, Int(Arithmetic.Wrap(j.value.n + 1)), Moved(r, turn.st)) == Moved(r, next);
          }
        }
      }
    }
  }

  lemma {:induction false} CStyleForMoves(r: Renaming, m: Machine, fuel: nat, s: Stmt, st: State)
    requires Renamable(r, m) && NoCallIn(s, r.new_) && s.CStyleFor?
    ensures ExecSame(r, m, fuel, s, st)
    decreases fuel, s, 2
  {
    if s.forInit.Some? {
      ExecMoves(r, m, fuel, s.forInit.value, st);
      var out := Exec(m, fuel, s.forInit.value, st);
      if out.Value? {
        CForTurnsMove(r, m, fuel, s, out.st);
      }
    } else {
      CForTurnsMove(r, m, fuel, s, st);
    }
  }

  lemma {:induction false} CForTestMoves(r: Renaming, m: Machine, fuel: nat, s: Stmt, st: State)
    requires Renamable(r, m) && NoCallIn(s, r.new_) && s.CStyleFor?
    ensures CForTest(RenamedMachine(r, m), fuel, RenameStmt(r, s), Moved(r, st)) == MovedOut(r, CForTest(m, fuel, s, st))
    decreases fuel, s, 0
  {
    if s.forCond.Some? {
      EvalMoves(r, m, fuel, s.forCond.value, st);
    }
  }

  lemma {:induction false} CForTurnsMove(r: Renaming, m: Machine, fuel: nat, s: Stmt, st: State)
    requires Renamable(r, m) && NoCallIn(s, r.new_) && s.CStyleFor?
    ensures CForTurns(RenamedMachine(r, m), fuel, RenameStmt(r, s), Moved(r, st)) == MovedOut(r, CForTurns(m, fuel, s, st))
    decreases fuel, s, 1
  {
    if fuel > 0 {
      CForTestMoves(r, m, fuel, s, st);
      var test := CForTest(m, fuel, s, st);
      if test.Value? && test.value {
        TurnMoves(r, m, fuel, s, test.st);
        var turn := AfterBody(ExecAll(m, fuel, s.body, test.st));
        if turn.Next? {
          CForStepMoves(r, m, fuel, s, turn.st);
        }
      }
    }
  }

  /** The step after a turn, then the later turns. */
  lemma {:induction false} CForStepMoves(r: Renaming, m: Machine, fuel: nat, s: Stmt, st: State)
    requires Renamable(r, m) && NoCallIn(s, r.new_) && s.CStyleFor? && fuel > 0
    ensures s.inc.Some? ==> ExecSame(r, m, fuel, s.inc.value, st)
    ensures var after := if s.inc.Some? then Exec(m, fuel, s.inc.value, st) else Value((), st);
            after.Value? ==>
              CForTurns(RenamedMachine(r, m), fuel - 1, RenameStmt(r, s), Moved(r, after.st)) ==
              MovedOut(r, CForTurns(m, fuel - 1, s, after.st))
    decreases fuel, s, 0
  {
    if s.inc.None? {
      CForTurnsMove(r, m, fuel - 1, s, st);
    } else {
      ExecMoves(r, m, fuel, s.inc.value, st);
      var out := Exec(m, fuel, s.inc.value, st);
      if out.Value? {
        CForTurnsMove(r, m, fuel - 1, s, out.st);
      }
    }
  }

  lemma {:induction false} SameArm(r: Renaming, arms: seq<MatchArm>, variant: string)
    ensures FindArm(RenameArms(r, arms), variant) == FindArm(arms, variant)
  {
    if arms != [] {
      SameArm(r, arms[1..], variant);
      assert RenameArms(r, arms)[1..] == RenameArms(r, arms[1..]);
    }
  }

  lemma {:induction false} ArmAt(r: Renaming, arms: seq<MatchArm>, k: nat)
    requires k < |arms|
    ensures RenameArms(r, arms)[k] == MatchArm(arms[k].variant, arms[k].bindings, RenameStmts(r, arms[k].body))
  {
    if k > 0 {
      ArmAt(r, arms[1..], k - 1);
    }
  }

  lemma {:induction false} MatchMoves(r: Renaming, m: Machine, fuel: nat, s: Stmt, st: State)
    requires Renamable(r, m) && NoCallIn(s, r.new_) && s.Match?
    ensures ExecSame(r, m, fuel, s, st)
    decreases fuel, s, 2
  {
    EvalMoves(r, m, fuel, s.scrutinee, st);
    var out := Eval(m, fuel, s.scrutinee, st);
    if out.Value? && out.value.EnumV? {
      RunArmMoves(r, m, fuel, s, out.value, out.st);
    }
  }

  lemma {:induction false} RunArmMoves(r: Renaming, m: Machine, fuel: nat, s: Stmt, v: Val, st: State)
    requires Renamable(r, m) && NoCallIn(s, r.new_) && s.Match? && v.EnumV?
    ensures RunArm(RenamedMachine(r, m), fuel, RenameStmt(r, s), v, Moved(r, st)) == MovedOut(r, RunArm(m, fuel, s, v, st))
    decreases fuel, s, 1
  {
    SameArm(r, s.arms, v.variant);
    SameArm(r, s.arms, "_");
    var k := PickArm(s.arms, v.variant);
    if k.Some? {
      var arm := s.arms[k.value];
      ArmAt(r, s.arms, k.value);
      if arm.variant == "_" {
        ExecAllMoves(r, m, fuel, arm.body, st);
      } else if |arm.bindings| == |v.fields| {
        ExecAllMoves(r, m, fuel, arm.body, ArmStore(arm, v, st));
      }
    }
  }

  // ---------- Whole programs ----------

  function NoFrames(st: State): State {
    st.(frames := [])
  }

  /**
   * A call of any function, by its new name if it is the renamed one, gives the same
   * outcome, store and interaction with the world; the entered frames correspond.
   */
  lemma {:induction false} RenamingPreservesCalls(r: Renaming, m: Machine, fuel: nat, f: string, args: seq<Expr>, st: State)
    requires Renamable(r, m) && f in m.functions && forall i :: 0 <= i < |args| ==> NoCall(args[i], r.new_)
    ensures var before := Eval(m, fuel, Nary(Call(f, []), args), st);
            var after := Eval(RenamedMachine(r, m), fuel, Nary(Call(NewName(r, f), []), RenameExprs(r, args)), Moved(r, st));
            && (before.Value? <==> after.Value?)
            && (before.Value? ==> after.value == before.value)
            && (before.Halt? ==> after.sig == before.sig)
            && NoFrames(after.st) == NoFrames(before.st)
            && after.st.frames == MovedFrames(r, before.st.frames)
  {
    var call := Nary(Call(f, []), args);
    EvalMoves(r, m, fuel, call, st);
    assert RenameExpr(r, call) == Nary(Call(NewName(r, f), []), RenameExprs(r, args));
  }

  /**
   * The new name is only compared with the names of functions. A call that already had it, of
   * an extern before, enters the renamed function; it gives the same value exactly when the
   * extern answers what that function returns, and it no longer asks the extern.
   */
  lemma {:induction false} CaptureGap(r: Renaming, m: Machine, fuel: nat, k: int, st: State)
    requires r.old_ != r.new_ && r.old_ in m.functions && r.new_ !in m.functions && fuel > 0
    requires m.functions[r.old_].params == [] && m.functions[r.old_].body == [ReturnExpr(Leaf(IntLit(I32, k)))]
    ensures var call := Nary(Call(r.new_, []), []);
            var before := Eval(m, fuel, call, st);
            var after := Eval(RenamedMachine(r, m), fuel, RenameExpr(r, call), Moved(r, st));
            && before == Ask(m, Extern(r.new_), [], st)
            && after.Value? && after.st.io == st.io
            && (after.value == before.value <==> m.world(st.io + [Event(Extern(r.new_), [])]) == Int(k))
  {
    var call, m' := Nary(Call(r.new_, []), []), RenamedMachine(r, m);
    assert EvalAll(m, fuel, [], st) == Value([], st);
    assert Eval(m, fuel, call, st) == Ask(m, Extern(r.new_), [], st);
    assert RenameExpr(r, call) == call;
    var fn, body := m.functions[r.old_], [ReturnExpr(Leaf(IntLit(I32, k)))];
    assert r.new_ in m'.functions && m'.functions[r.new_] == RenameFn(r, fn);
    assert body[1..] == [] && RenameStmts(r, body) == body;
    ReturningRuns(m', fuel, r.new_, k, Moved(r, st));
  }

  lemma {:induction false} ReturningRuns(m: Machine, fuel: nat, f: string, k: int, st: State)
    requires f in m.functions && fuel > 0
    requires m.functions[f].params == [] && m.functions[f].body == [ReturnExpr(Leaf(IntLit(I32, k)))]
    ensures var out := Eval(m, fuel, Nary(Call(f, []), []), st); out.Value? && out.value == Int(k) && out.st.io == st.io
  {
    var fn, call := m.functions[f], Nary(Call(f, []), []);
    var entered := State(Bind(ParamNames([]), []), st.io, st.frames + [Frame(fn.name, [])]);
    assert EvalAll(m, fuel, [], st) == Value([], st);
    assert fn.body[0] == ReturnExpr(Leaf(IntLit(I32, k)));
    assert Exec(m, fuel - 1, fn.body[0], entered) == Halt(Returned(Some(Int(k))), entered);
    assert Body(m, fuel - 1, fn, [], st) == Halt(Returned(Some(Int(k))), entered);
    assert Enter(m, fuel, call, [], st) == Leave(st, Body(m, fuel - 1, fn, [], st));
  }

  /** The renamed machine is the machine of the rewritten function list. */
  lemma {:induction false} RenamedProgram(r: Renaming, m: Machine, fns: seq<Function>)
    requires Renamable(r, m) && IsProgramOf(m, fns)
    ensures IsProgramOf(RenamedMachine(r, m), RenameFns(r, fns))
  {
    var renamed := RenameFns(r, fns);
    var m' := RenamedMachine(r, m);
    forall i | 0 <= i < |fns| ensures renamed[i].name in m'.functions && m'.functions[renamed[i].name] == renamed[i] {
      assert fns[i] in fns;
      Lookup(r, m, fns[i].name);
    }
    forall f | f in m'.functions ensures m'.functions[f] in renamed && m'.functions[f].name == f {
      var g := NewName(Back(r), f);
      var i :| 0 <= i < |fns| && fns[i] == m.functions[g];
      assert renamed[i] == m'.functions[f];
    }
  }
}
