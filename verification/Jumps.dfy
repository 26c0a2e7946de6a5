/** A list of statements with no break or continue of its own never ends with a pending one. */
module Jumps {
  import opened Wrappers
  import opened QuodTree
  import opened Runs
  import opened QuodRun
  import Arithmetic

  /** No break or continue of the loop around; loops catch those of their bodies. */
  predicate NoOwnJump(s: Stmt)
    decreases s
  {
    match s
    case Break => false
    case Continue => false
    case If(_, x, y) => NoOwnJumps(x) && NoOwnJumps(y)
    case WithArena(_, _, body) => NoOwnJumps(body)
    case Match(_, _, arms) => forall i :: 0 <= i < |arms| ==> NoOwnJumps(arms[i].body)
    case CStyleFor(init, _, inc, _) => (init.None? || NoOwnJump(init.value)) && (inc.None? || NoOwnJump(inc.value))
    case _ => true
  }

  predicate NoOwnJumps(ss: seq<Stmt>)
    decreases ss
  {
    forall i :: 0 <= i < |ss| ==> NoOwnJump(ss[i])
  }

  predicate NoneLeft<T>(out: Out<State, T>) {
    out.Halt? ==> !out.sig.Broke? && !out.sig.Continued?
  }

  lemma {:induction false} NoJumpLeft(m: Machine, fuel: nat, ss: seq<Stmt>, st: State)
    requires NoOwnJumps(ss)
    ensures NoneLeft(ExecAll(m, fuel, ss, st))
    decreases fuel, ss, 0
  {
    if ss != [] {
      NoJumpLeftByStmt(m, fuel, ss[0], st);
      var out := Exec(m, fuel, ss[0], st);
      if out.Value? {
        NoJumpLeft(m, fuel, ss[1..], out.st);
      }
    }
  }

  lemma {:induction false} NoJumpLeftByStmt(m: Machine, fuel: nat, s: Stmt, st: State)
    requires NoOwnJump(s)
    ensures NoneLeft(Exec(m, fuel, s, st))
    decreases fuel, s, 2
  {
    if
    case s.If? =>
      var out := Eval(m, fuel, s.cond, st);
      if out.Value? {
        NoJumpLeft(m, fuel, if Truthy(out.value) then s.thenBody else s.elseBody, out.st);
      }
    case s.WithArena? =>
      var out := Eval(m, fuel, s.capacity, st);
      if out.Value? {
        var handle := Ask(m, OfArena, [out.value], out.st);
        NoJumpLeft(m, fuel, s.body, Write(s.name, handle.value, handle.st));
      }
    case s.Match? =>
      NoJumpLeftByMatch(m, fuel, s, st);
    case s.While? || s.DoWhile? || s.For? || s.CStyleFor? =>
      NoJumpLeftByLoop(m, fuel, s, st);
    case !s.If? && !s.WithArena? && !s.Match? && !s.While? && !s.DoWhile? && !s.For? && !s.CStyleFor? =>
      {}
  }

  lemma {:induction false} NoJumpLeftByMatch(m: Machine, fuel: nat, s: Stmt, st: State)
    requires s.Match? && NoOwnJump(s)
    ensures NoneLeft(Exec(m, fuel, s, st))
    decreases fuel, s, 1
  {
    var out := Eval(m, fuel, s.scrutinee, st);
    if out.Value? && out.value.EnumV? {
      var k := PickArm(s.arms, out.value.variant);
      if k.Some? {
        var arm := s.arms[k.value];
        if arm.variant == "_" {
          NoJumpLeft(m, fuel, arm.body, out.st);
        } else if |arm.bindings| == |out.value.fields| {
          NoJumpLeft(m, fuel, arm.body, ArmStore(arm, out.value, out.st));
        }
      }
    }
  }

  lemma {:induction false} NoJumpLeftByLoop(m: Machine, fuel: nat, s: Stmt, st: State)
    requires (s.While? || s.DoWhile? || s.For? || s.CStyleFor?) && NoOwnJump(s)
    ensures NoneLeft(Exec(m, fuel, s, st))
    decreases fuel, s, 1
  {
    match s {
      case While(c, body) =>
        if fuel > 0 {
          var out := Eval(m, fuel, c, st);
          if out.Value? && Truthy(out.value) {
            var turn := AfterBody(ExecAll(m, fuel, body, out.st));
            if turn.Next? {
              NoJumpLeftByLoop(m, fuel - 1, s, turn.st);
            }
          }
        }
      case DoWhile(body, c) =>
        if fuel > 0 {
          var turn := AfterBody(ExecAll(m, fuel, body, st));
          if turn.Next? {
            var out := Eval(m, fuel, c, turn.st);
            if out.Value? && Truthy(out.value) {
              NoJumpLeftByLoop(m, fuel - 1, s, out.st);
            }
          }
        }
      case For(_, _, _, _, _) =>
        forall hi, t ensures NoneLeft(ForTurns(m, fuel, s, hi, t)) {
          NoJumpLeftByFor(m, fuel, s, hi, t);
        }
      case CStyleFor(init, _, _, _) =>
        forall t ensures NoneLeft(CForTurns(m, fuel, s, t)) {
          NoJumpLeftByCFor(m, fuel, s, t);
        }
        if init.Some? {
          NoJumpLeftByStmt(m, fuel, init.value, st);
        }
    }
  }

  lemma {:induction false} NoJumpLeftByFor(m: Machine, fuel: nat, s: Stmt, hi: int, st: State)
    requires s.For?
    ensures NoneLeft(ForTurns(m, fuel, s, hi, st))
    decreases fuel, s, 0
  {
    if fuel > 0 {
      var i := ReadVar(s.name, st);
      if i.Value? && i.value.Int? && i.value.n < hi {
        var turn := AfterBody(ExecAll(m, fuel, s.body, st));
        if turn.Next? {
          var j := ReadVar(s.name, turn.st);
          if j.Value? && j.value.Int? {
            NoJumpLeftByFor(m, fuel - 1, s, hi, Write(s.name, Int(Arithmetic.Wrap(j.value.n + 1)), turn.st));
          }
        }
      }
    }
  }

  lemma {:induction false} NoJumpLeftByCFor(m: Machine, fuel: nat, s: Stmt, st: State)
    requires s.CStyleFor? && NoOwnJump(s)
    ensures NoneLeft(CForTurns(m, fuel, s, st))
    decreases fuel, s, 0
  {
    if fuel > 0 {
      var test := CForTest(m, fuel, s, st);
      if test.Value? && test.value {
        var turn := AfterBody(ExecAll(m, fuel, s.body, test.st));
        if turn.Next? {
          if s.inc.None? {
            NoJumpLeftByCFor(m, fuel - 1, s, turn.st);
          } else {
            NoJumpLeftByStmt(m, fuel, s.inc.value, turn.st);
            var out := Exec(m, fuel, s.inc.value, turn.st);
            if out.Value? {
              NoJumpLeftByCFor(m, fuel - 1, s, out.st);
            }
          }
        }
      }
    }
  }
}
