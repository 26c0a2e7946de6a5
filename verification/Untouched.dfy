/**
 * Names that code does not mention do not matter to it: exchanging their slots before a
 * run and after it comes to the same.
 */
module Untouched {
  import opened Wrappers
  import opened QuodTree
  import opened Runs
  import opened QuodRun
  import Arithmetic

  // ---------- Mentioned names ----------

  predicate AvoidsExpr(e: Expr, names: set<string>) {
    match e
    case Leaf(LocalRef(x)) => x !in names
    case Leaf(ParamRef(x)) => x !in names
    case Leaf(_) => true
    case Unary(_, x) => AvoidsExpr(x, names)
    case Binary(_, l, r) => AvoidsExpr(l, names) && AvoidsExpr(r, names)
    case Nary(_, args) => forall i :: 0 <= i < |args| ==> AvoidsExpr(args[i], names)
    case IfExpr(c, x, y) => AvoidsExpr(c, names) && AvoidsExpr(x, names) && AvoidsExpr(y, names)
  }

  /** The statement neither reads, writes nor binds one of the names. */
  predicate Avoids(s: Stmt, names: set<string>)
    decreases s
  {
    match s
    case Let(x, _, init) => x !in names && (init.Some? ==> AvoidsExpr(init.value, names))
    case Assign(x, e) => x !in names && AvoidsExpr(e, names)
    case FieldSet(x, _, e) => x !in names && AvoidsExpr(e, names)
    case ExprStmt(e) => AvoidsExpr(e, names)
    case ReturnExpr(e) => AvoidsExpr(e, names)
    case Store(p, e) => AvoidsExpr(p, names) && AvoidsExpr(e, names)
    case StoreField(p, _, _, _, e) => AvoidsExpr(p, names) && AvoidsExpr(e, names)
    case If(c, x, y) => AvoidsExpr(c, names) && AllAvoid(x, names) && AllAvoid(y, names)
    case While(c, body) => AvoidsExpr(c, names) && AllAvoid(body, names)
    case DoWhile(body, c) => AvoidsExpr(c, names) && AllAvoid(body, names)
    case For(x, _, lo, hi, body) => x !in names && AvoidsExpr(lo, names) && AvoidsExpr(hi, names) && AllAvoid(body, names)
    case WithArena(x, capacity, body) => x !in names && AvoidsExpr(capacity, names) && AllAvoid(body, names)
    case Match(scrutinee, _, arms) =>
      && AvoidsExpr(scrutinee, names)
      && forall i :: 0 <= i < |arms| ==> Elements(arms[i].bindings) !! names && AllAvoid(arms[i].body, names)
    case CStyleFor(init, cond, inc, body) =>
      && (init.Some? ==> Avoids(init.value, names))
      && (cond.Some? ==> AvoidsExpr(cond.value, names))
      && (inc.Some? ==> Avoids(inc.value, names))
      && AllAvoid(body, names)
    case _ => true
  }

  predicate AllAvoid(ss: seq<Stmt>, names: set<string>)
    decreases ss
  {
    forall i :: 0 <= i < |ss| ==> Avoids(ss[i], names)
  }

  // ---------- Exchanging slots ----------

  /** The slots to put in place of those of some names. */
  datatype Veil = Veil(names: set<string>, slots: map<string, Val>)

  function Veiled(h: Veil, st: State): State {
    st.(store := Restore(h.slots, st.store, h.names))
  }

  function VeiledOut<T>(h: Veil, out: Out<State, T>): Out<State, T> {
    match out
    case Value(v, st) => Value(v, Veiled(h, st))
    case Halt(sig, st) => Halt(sig, Veiled(h, st))
  }

  lemma {:induction false} WriteVeils(h: Veil, name: string, v: Val, st: State)
    requires name !in h.names
    ensures Write(name, v, Veiled(h, st)) == Veiled(h, Write(name, v, st))
  {
    assert Write(name, v, Veiled(h, st)).store == Veiled(h, Write(name, v, st)).store;
  }

  lemma {:induction false} ReadVarVeils(h: Veil, name: string, st: State)
    requires name !in h.names
    ensures ReadVar(name, Veiled(h, st)) == VeiledOut(h, ReadVar(name, st))
  {}

  lemma {:induction false} BoundNames(names: seq<string>, vs: seq<Val>)
    requires |names| == |vs|
    ensures Bind(names, vs).Keys == Elements(names)
  {
    if names != [] {
      BoundNames(names[1..], vs[1..]);
      assert Elements(names) == {names[0]} + Elements(names[1..]);
    }
  }

  lemma {:induction false} ArmStoreVeils(h: Veil, arm: MatchArm, v: Val, st: State)
    requires v.EnumV? && |arm.bindings| == |v.fields| && Elements(arm.bindings) !! h.names
    ensures ArmStore(arm, v, Veiled(h, st)) == Veiled(h, ArmStore(arm, v, st))
  {
    BoundNames(arm.bindings, v.fields);
    assert ArmStore(arm, v, Veiled(h, st)).store == Veiled(h, ArmStore(arm, v, st)).store;
  }

  lemma {:induction false} LeaveArmVeils(h: Veil, arm: MatchArm, before: State, out: Out<State, ()>)
    requires Elements(arm.bindings) !! h.names
    ensures LeaveArm(arm, Veiled(h, before), VeiledOut(h, out)) == VeiledOut(h, LeaveArm(arm, before, out))
  {
    RestoresCommute(h.slots, before.store, out.st.store, h.names, Elements(arm.bindings));
  }

  lemma {:induction false} RestoresCommute(slots: map<string, Val>, before: map<string, Val>, after: map<string, Val>,
                                           names: set<string>, bound: set<string>)
    requires names !! bound
    ensures Restore(Restore(slots, before, names), Restore(slots, after, names), bound) ==
            Restore(slots, Restore(before, after, bound), names)
  {
    var one, other := Restore(Restore(slots, before, names), Restore(slots, after, names), bound),
                      Restore(slots, Restore(before, after, bound), names);
    forall x ensures Slot(one, x) == Slot(other, x) {
      RestoredSlot(Restore(slots, before, names), Restore(slots, after, names), bound, x);
      RestoredSlot(slots, before, names, x);
      RestoredSlot(slots, after, names, x);
      RestoredSlot(slots, Restore(before, after, bound), names, x);
      RestoredSlot(before, after, bound, x);
    }
    SameSlots(one, other);
  }

  function Slot(store: map<string, Val>, x: string): Option<Val> {
    if x in store then Some(store[x]) else None
  }

  lemma {:induction false} RestoredSlot(before: map<string, Val>, after: map<string, Val>, names: set<string>, x: string)
    ensures Slot(Restore(before, after, names), x) == if x in names then Slot(before, x) else Slot(after, x)
  {}

  lemma {:induction false} SameSlots(one: map<string, Val>, other: map<string, Val>)
    requires forall x :: Slot(one, x) == Slot(other, x)
    ensures one == other
  {
    forall x ensures x in one <==> x in other {
      assert Slot(one, x) == Slot(other, x);
    }
    forall x | x in one ensures one[x] == other[x] {
      assert Slot(one, x) == Slot(other, x);
    }
    assert one.Keys == other.Keys;
  }

  lemma {:induction false} AfterBodyVeils(h: Veil, ran: Out<State, ()>)
    ensures AfterBody(VeiledOut(h, ran)) ==
            (match AfterBody(ran)
             case Next(t) => Next(Veiled(h, t))
             case Exit(out) => Exit(VeiledOut(h, out)))
  {}

  // ---------- Expressions ----------

  lemma {:induction false} EvalVeils(h: Veil, m: Machine, fuel: nat, e: Expr, st: State)
    requires AvoidsExpr(e, h.names)
    ensures Eval(m, fuel, e, Veiled(h, st)) == VeiledOut(h, Eval(m, fuel, e, st))
    decreases e
  {
    match e {
      case Leaf(_) =>
      case Unary(_, x) =>
        EvalVeils(h, m, fuel, x, st);
      case Binary(_, x, y) =>
        EvalVeils(h, m, fuel, x, st);
        EvalVeils(h, m, fuel, y, Eval(m, fuel, x, st).st);
      case Nary(op, args) =>
        EvalAllVeils(h, m, fuel, args, st);
        var out := EvalAll(m, fuel, args, st);
        if op.Call? && op.function_ in m.functions && out.Value? {
          EnterVeils(h, m, fuel, e, out.value, out.st);
        }
      case IfExpr(c, x, y) =>
        EvalVeils(h, m, fuel, c, st);
        var t := Eval(m, fuel, c, st).st;
        EvalVeils(h, m, fuel, x, t);
        EvalVeils(h, m, fuel, y, t);
    }
  }

  /** A callee sees none of its caller's slots. */
  lemma {:induction false} EnterVeils(h: Veil, m: Machine, fuel: nat, e: Expr, vs: seq<Val>, st: State)
    requires e.Nary? && e.nop.Call? && e.nop.function_ in m.functions
    ensures Enter(m, fuel, e, vs, Veiled(h, st)) == VeiledOut(h, Enter(m, fuel, e, vs, st))
  {
    var fn := m.functions[e.nop.function_];
    if fuel > 0 && |vs| == |fn.params| {
      assert Body(m, fuel - 1, fn, vs, Veiled(h, st)) == Body(m, fuel - 1, fn, vs, st);
    }
  }

  lemma {:induction false} EvalAllVeils(h: Veil, m: Machine, fuel: nat, es: seq<Expr>, st: State)
    requires forall i :: 0 <= i < |es| ==> AvoidsExpr(es[i], h.names)
    ensures EvalAll(m, fuel, es, Veiled(h, st)) == VeiledOut(h, EvalAll(m, fuel, es, st))
    decreases es
  {
    if es != [] {
      EvalVeils(h, m, fuel, es[0], st);
      EvalAllVeils(h, m, fuel, es[1..], Eval(m, fuel, es[0], st).st);
    }
  }

  // ---------- Statements ----------

  ghost predicate Same(h: Veil, m: Machine, fuel: nat, s: Stmt, st: State) {
    Exec(m, fuel, s, Veiled(h, st)) == VeiledOut(h, Exec(m, fuel, s, st))
  }

  /** Exchanging slots that a list does not mention, then running it, is running it, then exchanging them. */
  lemma {:induction false} ExecAllVeils(h: Veil, m: Machine, fuel: nat, ss: seq<Stmt>, st: State)
    requires AllAvoid(ss, h.names)
    ensures ExecAll(m, fuel, ss, Veiled(h, st)) == VeiledOut(h, ExecAll(m, fuel, ss, st))
    decreases fuel, ss, 0
  {
    if ss != [] {
      ExecVeils(h, m, fuel, ss[0], st);
      ExecAllVeils(h, m, fuel, ss[1..], Exec(m, fuel, ss[0], st).st);
    }
  }

  lemma {:induction false} ExecVeils(h: Veil, m: Machine, fuel: nat, s: Stmt, st: State)
    requires Avoids(s, h.names)
    ensures Same(h, m, fuel, s, st)
    decreases fuel, s, 3
  {
    if
    case s.If? =>
      EvalVeils(h, m, fuel, s.cond, st);
      var out := Eval(m, fuel, s.cond, st);
      if out.Value? {
        ExecAllVeils(h, m, fuel, if Truthy(out.value) then s.thenBody else s.elseBody, out.st);
      }
    case s.While? =>
      WhileVeils(h, m, fuel, s, st);
    case s.DoWhile? =>
      DoWhileVeils(h, m, fuel, s, st);
    case s.For? =>
      ForVeils(h, m, fuel, s, st);
    case s.Match? =>
      EvalVeils(h, m, fuel, s.scrutinee, st);
      var out := Eval(m, fuel, s.scrutinee, st);
      if out.Value? && out.value.EnumV? {
        RunArmVeils(h, m, fuel, s, out.value, out.st);
      }
    case s.WithArena? =>
      ArenaVeils(h, m, fuel, s, st);
    case s.CStyleFor? =>
      CStyleForVeils(h, m, fuel, s, st);
    case !s.If? && !s.While? && !s.DoWhile? && !s.For? && !s.Match? && !s.WithArena? && !s.CStyleFor? =>
      SimpleVeils(h, m, fuel, s, st);
  }

  lemma {:induction false} SimpleVeils(h: Veil, m: Machine, fuel: nat, s: Stmt, st: State)
    requires Avoids(s, h.names)
    requires !s.If? && !s.While? && !s.DoWhile? && !s.For? && !s.Match? && !s.WithArena? && !s.CStyleFor?
    ensures Same(h, m, fuel, s, st)
    decreases fuel, s, 2
  {
    match s {
      case Let(_, _, Some(e)) => WriteStmtVeils(h, m, fuel, s, e, st);
      case Assign(_, e) => WriteStmtVeils(h, m, fuel, s, e, st);
      case ExprStmt(e) => EvalVeils(h, m, fuel, e, st);
      case ReturnExpr(e) => EvalVeils(h, m, fuel, e, st);
      case FieldSet(_, _, _) => FieldSetVeils(h, m, fuel, s, st);
      case Store(_, _) => StoreVeils(h, m, fuel, s, st);
      case StoreField(_, _, _, _, _) => StoreVeils(h, m, fuel, s, st);
      case _ =>
    }
  }

  lemma {:induction false} WriteStmtVeils(h: Veil, m: Machine, fuel: nat, s: Stmt, e: Expr, st: State)
    requires Avoids(s, h.names) && ((s.Let? && s.init == Some(e)) || (s.Assign? && s.value == e))
    ensures Same(h, m, fuel, s, st)
  {
    EvalVeils(h, m, fuel, e, st);
    var out := Eval(m, fuel, e, st);
    if out.Value? {
      WriteVeils(h, s.name, out.value, out.st);
    }
  }

  lemma {:induction false} FieldSetVeils(h: Veil, m: Machine, fuel: nat, s: Stmt, st: State)
    requires Avoids(s, h.names) && s.FieldSet?
    ensures Same(h, m, fuel, s, st)
  {
    EvalVeils(h, m, fuel, s.value, st);
    var out := Eval(m, fuel, s.value, st);
    if out.Value? && s.name in out.st.store {
      var whole := Ask(m, OfFieldSet(s.field), [out.st.store[s.name], out.value], out.st);
      WriteVeils(h, s.name, whole.value, whole.st);
    }
  }

  lemma {:induction false} StoreVeils(h: Veil, m: Machine, fuel: nat, s: Stmt, st: State)
    requires Avoids(s, h.names) && (s.Store? || s.StoreField?)
    ensures Same(h, m, fuel, s, st)
  {
    EvalVeils(h, m, fuel, s.ptr, st);
    EvalVeils(h, m, fuel, s.value, Eval(m, fuel, s.ptr, st).st);
  }

  lemma {:induction false} TurnVeils(h: Veil, m: Machine, fuel: nat, body: seq<Stmt>, st: State)
    requires AllAvoid(body, h.names)
    ensures var turn := AfterBody(ExecAll(m, fuel, body, st));
            AfterBody(ExecAll(m, fuel, body, Veiled(h, st))) ==
            (match turn case Next(t) => Next(Veiled(h, t)) case Exit(out) => Exit(VeiledOut(h, out)))
    decreases fuel, body, 1
  {
    ExecAllVeils(h, m, fuel, body, st);
    AfterBodyVeils(h, ExecAll(m, fuel, body, st));
  }

  lemma {:induction false} WhileVeils(h: Veil, m: Machine, fuel: nat, s: Stmt, st: State)
    requires Avoids(s, h.names) && s.While?
    ensures WhileTurns(m, fuel, s, Veiled(h, st)) == VeiledOut(h, WhileTurns(m, fuel, s, st))
    decreases fuel, s, 2
  {
    if fuel > 0 {
      EvalVeils(h, m, fuel, s.cond, st);
      var out := Eval(m, fuel, s.cond, st);
      if out.Value? && Truthy(out.value) {
        TurnVeils(h, m, fuel, s.body, out.st);
        var turn := AfterBody(ExecAll(m, fuel, s.body, out.st));
        if turn.Next? {
          WhileVeils(h, m, fuel - 1, s, turn.st);
        }
      }
    }
  }

  lemma {:induction false} DoWhileVeils(h: Veil, m: Machine, fuel: nat, s: Stmt, st: State)
    requires Avoids(s, h.names) && s.DoWhile?
    ensures DoWhileTurns(m, fuel, s, Veiled(h, st)) == VeiledOut(h, DoWhileTurns(m, fuel, s, st))
    decreases fuel, s, 2
  {
    if fuel > 0 {
      TurnVeils(h, m, fuel, s.body, st);
      var turn := AfterBody(ExecAll(m, fuel, s.body, st));
      if turn.Next? {
        EvalVeils(h, m, fuel, s.cond, turn.st);
        var out := Eval(m, fuel, s.cond, turn.st);
        if out.Value? && Truthy(out.value) {
          DoWhileVeils(h, m, fuel - 1, s, out.st);
        }
      }
    }
  }

  lemma {:induction false} ForVeils(h: Veil, m: Machine, fuel: nat, s: Stmt, st: State)
    requires Avoids(s, h.names) && s.For?
    ensures Same(h, m, fuel, s, st)
    decreases fuel, s, 2
  {
    EvalVeils(h, m, fuel, s.lo, st);
    var lo := Eval(m, fuel, s.lo, st);
    if lo.Value? {
      EvalVeils(h, m, fuel, s.hi, lo.st);
      var hi := Eval(m, fuel, s.hi, lo.st);
      if hi.Value? && hi.value.Int? {
        WriteVeils(h, s.name, lo.value, hi.st);
        ForTurnsVeil(h, m, fuel, s, hi.value.n, Write(s.name, lo.value, hi.st));
      }
    }
  }

  lemma {:induction false} ForTurnsVeil(h: Veil, m: Machine, fuel: nat, s: Stmt, hi: int, st: State)
    requires Avoids(s, h.names) && s.For?
    ensures ForTurns(m, fuel, s, hi, Veiled(h, st)) == VeiledOut(h, ForTurns(m, fuel, s, hi, st))
    decreases fuel, s, 1
  {
    if fuel > 0 {
      ReadVarVeils(h, s.name, st);
      var i := ReadVar(s.name, st);
      if i.Value? && i.value.Int? && i.value.n < hi {
        TurnVeils(h, m, fuel, s.body, st);
        var turn := AfterBody(ExecAll(m, fuel, s.body, st));
        if turn.Next? {
          ReadVarVeils(h, s.name, turn.st);
          var j := ReadVar(s.name, turn.st);
          if j.Value? && j.value.Int? {
            NextTurnVeils(h, m, fuel - 1, s, hi, Int(Arithmetic.Wrap(j.value.n + 1)), turn.st);
          }
        }
      }
    }
  }

  lemma {:induction false} NextTurnVeils(h: Veil, m: Machine, fuel: nat, s: Stmt, hi: int, next: Val, st: State)
    requires Avoids(s, h.names) && s.For?
    ensures ForTurns(m, fuel, s, hi, Write(s.name, next, Veiled(h, st))) ==
            VeiledOut(h, ForTurns(m, fuel, s, hi, Write(s.name, next, st)))
    decreases fuel, s, 2
  {
    WriteVeils(h, s.name, next, st);
    ForTurnsVeil(h, m, fuel, s, hi, Write(s.name, next, st));
  }

  lemma {:induction false} RunArmVeils(h: Veil, m: Machine, fuel: nat, s: Stmt, v: Val, st: State)
    requires Avoids(s, h.names) && s.Match? && v.EnumV?
    ensures RunArm(m, fuel, s, v, Veiled(h, st)) == VeiledOut(h, RunArm(m, fuel, s, v, st))
    decreases fuel, s, 2
  {
    var k := PickArm(s.arms, v.variant);
    if k.Some? {
      var arm := s.arms[k.value];
      if arm.variant == "_" {
        ExecAllVeils(h, m, fuel, arm.body, st);
      } else if |arm.bindings| == |v.fields| {
        ArmStoreVeils(h, arm, v, st);
        ExecAllVeils(h, m, fuel, arm.body, ArmStore(arm, v, st));
        LeaveArmVeils(h, arm, st, ExecAll(m, fuel, arm.body, ArmStore(arm, v, st)));
      }
    }
  }

  lemma {:induction false} ArenaVeils(h: Veil, m: Machine, fuel: nat, s: Stmt, st: State)
    requires Avoids(s, h.names) && s.WithArena?
    ensures Same(h, m, fuel, s, st)
    decreases fuel, s, 2
  {
    EvalVeils(h, m, fuel, s.capacity, st);
    var out := Eval(m, fuel, s.capacity, st);
    if out.Value? {
      var handle := Ask(m, OfArena, [out.value], out.st);
      WriteVeils(h, s.name, handle.value, handle.st);
      ExecAllVeils(h, m, fuel, s.body, Write(s.name, handle.value, handle.st));
    }
  }

  lemma {:induction false} CStyleForVeils(h: Veil, m: Machine, fuel: nat, s: Stmt, st: State)
    requires Avoids(s, h.names) && s.CStyleFor?
    ensures Same(h, m, fuel, s, st)
    decreases fuel, s, 2
  {
    if s.forInit.Some? {
      ExecVeils(h, m, fuel, s.forInit.value, st);
      var out := Exec(m, fuel, s.forInit.value, st);
      if out.Value? {
        CForTurnsVeil(h, m, fuel, s, out.st);
      }
    } else {
      CForTurnsVeil(h, m, fuel, s, st);
    }
  }

  lemma {:induction false} CForTestVeils(h: Veil, m: Machine, fuel: nat, s: Stmt, st: State)
    requires Avoids(s, h.names) && s.CStyleFor?
    ensures CForTest(m, fuel, s, Veiled(h, st)) == VeiledOut(h, CForTest(m, fuel, s, st))
  {
    if s.forCond.Some? {
      EvalVeils(h, m, fuel, s.forCond.value, st);
    }
  }

  lemma {:induction false} CForTurnsVeil(h: Veil, m: Machine, fuel: nat, s: Stmt, st: State)
    requires Avoids(s, h.names) && s.CStyleFor?
    ensures CForTurns(m, fuel, s, Veiled(h, st)) == VeiledOut(h, CForTurns(m, fuel, s, st))
    decreases fuel, s, 1
  {
    if fuel > 0 {
      CForTestVeils(h, m, fuel, s, st);
      var test := CForTest(m, fuel, s, st);
      if test.Value? && test.value {
        TurnVeils(h, m, fuel, s.body, test.st);
        var turn := AfterBody(ExecAll(m, fuel, s.body, test.st));
        if turn.Next? {
          if s.inc.None? {
            CForTurnsVeil(h, m, fuel - 1, s, turn.st);
          } else {
            ExecVeils(h, m, fuel, s.inc.value, turn.st);
            var out := Exec(m, fuel, s.inc.value, turn.st);
            if out.Value? {
              CForTurnsVeil(h, m, fuel - 1, s, out.st);
            }
          }
        }
      }
    }
  }
}
