/**
 * Derived ranges hold in every run: each frame entered by a call inside the program has
 * its claimed parameters within their ranges.
 */
module RangeRuns {
  import opened Wrappers
  import opened QuodTree
  import opened Runs
  import opened QuodRun
  import opened LiteralRange
  import Arithmetic

  // ---------- All calls that a run can make ----------

  function DeepInExpr(e: Expr): seq<Expr> {
    match e
    case Leaf(_) => []
    case Unary(_, x) => DeepInExpr(x)
    case Binary(_, l, r) => DeepInExpr(l) + DeepInExpr(r)
    case Nary(op, args) => (if op.Call? then [e] else []) + DeepInExprs(args)
    case IfExpr(c, x, y) => DeepInExpr(c) + DeepInExpr(x) + DeepInExpr(y)
  }

  function DeepInExprs(es: seq<Expr>): seq<Expr> {
    if es == [] then [] else DeepInExpr(es[0]) + DeepInExprs(es[1..])
  }

  function DeepInStmt(s: Stmt): seq<Expr>
    decreases s
  {
    match s
    case ReturnExpr(e) => DeepInExpr(e)
    case ExprStmt(e) => DeepInExpr(e)
    case If(c, x, y) => DeepInExpr(c) + Deep(x) + Deep(y)
    case Let(_, _, init) => if init.Some? then DeepInExpr(init.value) else []
    case Assign(_, e) => DeepInExpr(e)
    case FieldSet(_, _, e) => DeepInExpr(e)
    case Store(p, e) => DeepInExpr(p) + DeepInExpr(e)
    case StoreField(p, _, _, _, e) => DeepInExpr(p) + DeepInExpr(e)
    case While(c, body) => DeepInExpr(c) + Deep(body)
    case DoWhile(body, c) => DeepInExpr(c) + Deep(body)
    case For(_, _, lo, hi, body) => DeepInExpr(lo) + DeepInExpr(hi) + Deep(body)
    case WithArena(_, capacity, body) => DeepInExpr(capacity) + Deep(body)
    case Match(scrutinee, _, arms) => DeepInExpr(scrutinee) + DeepInArms(arms)
    case CStyleFor(init, c, inc, body) =>
      (if init.Some? then DeepInStmt(init.value) else []) + (if c.Some? then DeepInExpr(c.value) else [])
      + (if inc.Some? then DeepInStmt(inc.value) else []) + Deep(body)
    case _ => []
  }

  function Deep(ss: seq<Stmt>): seq<Expr>
    decreases ss
  {
    if ss == [] then [] else DeepInStmt(ss[0]) + Deep(ss[1..])
  }

  function DeepInArms(arms: seq<MatchArm>): seq<Expr>
    decreases arms
  {
    if arms == [] then [] else Deep(arms[0].body) + DeepInArms(arms[1..])
  }

  // ---------- Nodes that the call walkers cover ----------

  /** No call below a node that the walkers do not look into. */
  predicate Covered(e: Expr) {
    match e
    case Leaf(_) => true
    case Unary(op, x) => if op.LoadField? || op.Try? then DeepInExpr(x) == [] else Covered(x)
    case Binary(_, l, r) => Covered(l) && Covered(r)
    case Nary(op, args) =>
      if op.TraitCall? then DeepInExprs(args) == [] else forall i :: 0 <= i < |args| ==> Covered(args[i])
    case IfExpr(c, x, y) => Covered(c) && Covered(x) && Covered(y)
  }

  predicate CoveredStmt(s: Stmt)
    decreases s
  {
    match s
    case ReturnExpr(e) => Covered(e)
    case ExprStmt(e) => Covered(e)
    case If(c, x, y) => Covered(c) && AllCovered(x) && AllCovered(y)
    case Let(_, _, init) => init.None? || Covered(init.value)
    case Assign(_, e) => Covered(e)
    case FieldSet(_, _, e) => Covered(e)
    case Store(p, e) => Covered(p) && Covered(e)
    case StoreField(_, _, _, _, _) => DeepInStmt(s) == []
    case While(c, body) => Covered(c) && AllCovered(body)
    case DoWhile(body, c) => Covered(c) && AllCovered(body)
    case For(_, _, lo, hi, body) => Covered(lo) && Covered(hi) && AllCovered(body)
    case WithArena(_, capacity, body) => Covered(capacity) && AllCovered(body)
    case Match(scrutinee, _, arms) => Covered(scrutinee) && forall i :: 0 <= i < |arms| ==> AllCovered(arms[i].body)
    case CStyleFor(_, _, _, _) => DeepInStmt(s) == []
    case _ => true
  }

  predicate AllCovered(ss: seq<Stmt>)
    decreases ss
  {
    forall i :: 0 <= i < |ss| ==> CoveredStmt(ss[i])
  }

  /** What a walk finds of all the calls that are there: all of them, or fewer. */
  predicate Finds(found: seq<Expr>, all: seq<Expr>, covered: bool) {
    if covered then found == all else |found| < |all|
  }

  lemma {:induction false} FindsBoth(f1: seq<Expr>, a1: seq<Expr>, c1: bool, f2: seq<Expr>, a2: seq<Expr>, c2: bool)
    requires Finds(f1, a1, c1) && Finds(f2, a2, c2)
    ensures Finds(f1 + f2, a1 + a2, c1 && c2)
  {}

  lemma {:induction false} ExprWalkIsExact(e: Expr)
    ensures Finds(CallsInExpr(e), DeepInExpr(e), Covered(e))
  {
    match e {
      case Leaf(_) =>
      case Unary(op, x) => ExprWalkIsExact(x);
      case Binary(_, l, r) =>
        ExprWalkIsExact(l);
        ExprWalkIsExact(r);
        FindsBoth(CallsInExpr(l), DeepInExpr(l), Covered(l), CallsInExpr(r), DeepInExpr(r), Covered(r));
      case Nary(op, args) => ExprsWalkIsExact(args);
      case IfExpr(c, x, y) =>
        ExprWalkIsExact(c);
        ExprWalkIsExact(x);
        ExprWalkIsExact(y);
        FindsBoth(CallsInExpr(c), DeepInExpr(c), Covered(c), CallsInExpr(x), DeepInExpr(x), Covered(x));
        FindsBoth(CallsInExpr(c) + CallsInExpr(x), DeepInExpr(c) + DeepInExpr(x), Covered(c) && Covered(x),
                  CallsInExpr(y), DeepInExpr(y), Covered(y));
    }
  }

  lemma {:induction false} ExprsWalkIsExact(es: seq<Expr>)
    ensures Finds(CallsInExprs(es), DeepInExprs(es), forall i :: 0 <= i < |es| ==> Covered(es[i]))
  {
    if es != [] {
      ExprWalkIsExact(es[0]);
      ExprsWalkIsExact(es[1..]);
      assert (forall i :: 0 <= i < |es| ==> Covered(es[i])) <==>
             Covered(es[0]) && forall i :: 0 <= i < |es[1..]| ==> Covered(es[1..][i]) by {
        assert forall i :: 1 <= i < |es| ==> es[i] == es[1..][i - 1];
      }
      FindsBoth(CallsInExpr(es[0]), DeepInExpr(es[0]), Covered(es[0]), CallsInExprs(es[1..]), DeepInExprs(es[1..]),
                forall i :: 0 <= i < |es[1..]| ==> Covered(es[1..][i]));
    }
  }

  /** A statement with one expression in front of one body. */
  lemma {:induction false} HeadAndBody(e: Expr, body: seq<Stmt>)
    requires Finds(Calls(body), Deep(body), AllCovered(body))
    ensures Finds(CallsInExpr(e) + Calls(body), DeepInExpr(e) + Deep(body), Covered(e) && AllCovered(body))
  {
    ExprWalkIsExact(e);
    FindsBoth(CallsInExpr(e), DeepInExpr(e), Covered(e), Calls(body), Deep(body), AllCovered(body));
  }

  lemma {:induction false} TwoExprs(x: Expr, y: Expr)
    ensures Finds(CallsInExpr(x) + CallsInExpr(y), DeepInExpr(x) + DeepInExpr(y), Covered(x) && Covered(y))
  {
    ExprWalkIsExact(x);
    ExprWalkIsExact(y);
    FindsBoth(CallsInExpr(x), DeepInExpr(x), Covered(x), CallsInExpr(y), DeepInExpr(y), Covered(y));
  }

  lemma {:induction false} StmtWalkIsExact(s: Stmt)
    ensures Finds(CallsInStmt(s), DeepInStmt(s), CoveredStmt(s))
    decreases s
  {
    match s {
      case ReturnExpr(e) => ExprWalkIsExact(e);
      case ExprStmt(e) => ExprWalkIsExact(e);
      case If(c, x, y) =>
        WalkIsExact(x);
        WalkIsExact(y);
        HeadAndBody(c, x);
        FindsBoth(CallsInExpr(c) + Calls(x), DeepInExpr(c) + Deep(x), Covered(c) && AllCovered(x),
                  Calls(y), Deep(y), AllCovered(y));
      case Let(_, _, Some(e)) => ExprWalkIsExact(e);
      case Assign(_, e) => ExprWalkIsExact(e);
      case FieldSet(_, _, e) => ExprWalkIsExact(e);
      case Store(p, e) => TwoExprs(p, e);
      case While(c, body) =>
        WalkIsExact(body);
        HeadAndBody(c, body);
      case DoWhile(body, c) =>
        WalkIsExact(body);
        HeadAndBody(c, body);
      case For(_, _, lo, hi, body) =>
        WalkIsExact(body);
        TwoExprs(lo, hi);
        FindsBoth(CallsInExpr(lo) + CallsInExpr(hi), DeepInExpr(lo) + DeepInExpr(hi), Covered(lo) && Covered(hi),
                  Calls(body), Deep(body), AllCovered(body));
      case WithArena(_, capacity, body) =>
        WalkIsExact(body);
        HeadAndBody(capacity, body);
      case Match(scrutinee, _, arms) =>
        ExprWalkIsExact(scrutinee);
        ArmsWalkIsExact(arms);
        FindsBoth(CallsInExpr(scrutinee), DeepInExpr(scrutinee), Covered(scrutinee), CallsInArms(arms), DeepInArms(arms),
                  ArmsCovered(arms));
      case _ =>
    }
  }

  lemma {:induction false} WalkIsExact(ss: seq<Stmt>)
    ensures Finds(Calls(ss), Deep(ss), AllCovered(ss))
    decreases ss
  {
    if ss != [] {
      StmtWalkIsExact(ss[0]);
      WalkIsExact(ss[1..]);
      assert AllCovered(ss) <==> CoveredStmt(ss[0]) && AllCovered(ss[1..]) by {
        assert forall i :: 1 <= i < |ss| ==> ss[i] == ss[1..][i - 1];
      }
      FindsBoth(CallsInStmt(ss[0]), DeepInStmt(ss[0]), CoveredStmt(ss[0]), Calls(ss[1..]), Deep(ss[1..]), AllCovered(ss[1..]));
    }
  }

  predicate ArmsCovered(arms: seq<MatchArm>) {
    forall i :: 0 <= i < |arms| ==> AllCovered(arms[i].body)
  }

  lemma {:induction false} ArmsWalkIsExact(arms: seq<MatchArm>)
    ensures Finds(CallsInArms(arms), DeepInArms(arms), ArmsCovered(arms))
    decreases arms
  {
    if arms != [] {
      WalkIsExact(arms[0].body);
      ArmsWalkIsExact(arms[1..]);
      assert ArmsCovered(arms) <==> AllCovered(arms[0].body) && ArmsCovered(arms[1..]) by {
        assert forall i :: 1 <= i < |arms| ==> arms[i] == arms[1..][i - 1];
      }
      FindsBoth(Calls(arms[0].body), Deep(arms[0].body), AllCovered(arms[0].body), CallsInArms(arms[1..]), DeepInArms(arms[1..]),
                ArmsCovered(arms[1..]));
    }
  }

  /** The walkers find every call, in order, exactly when no call is below a node that they skip. */
  lemma {:induction false} WalkIsComplete(ss: seq<Stmt>)
    ensures Calls(ss) == Deep(ss) <==> AllCovered(ss)
  {
    WalkIsExact(ss);
  }

  // ---------- Frames ----------

  /** The frame's values are within the ranges derived from `calls` for its callee. */
  ghost predicate FrameFits(m: Machine, calls: seq<Expr>, hash: Hash, frame: Frame) {
    && frame.callee in m.functions
    && var fn := m.functions[frame.callee];
       && |frame.args| == |fn.params|
       && forall i :: 0 <= i < |fn.params| && Derived(calls, fn, i, hash).Some? ==>
            var range := Derived(calls, fn, i, hash).value;
            frame.args[i].Int? && range.lo <= frame.args[i].n <= range.hi
  }

  ghost predicate FramesFit(m: Machine, calls: seq<Expr>, hash: Hash, frames: seq<Frame>) {
    forall k :: 0 <= k < |frames| ==> FrameFits(m, calls, hash, frames[k])
  }

  /** The machine runs functions by their names and `calls` has all of their calls. */
  ghost predicate Complete(m: Machine, calls: seq<Expr>) {
    forall f :: f in m.functions ==> m.functions[f].name == f && forall c :: c in Deep(m.functions[f].body) ==> c in calls
  }

  ghost predicate Known(found: seq<Expr>, calls: seq<Expr>) {
    forall c :: c in found ==> c in calls
  }

  lemma {:induction false} LiteralsArePassed(m: Machine, fuel: nat, es: seq<Expr>, st: State, i: nat)
    requires i < |es| && EvalAll(m, fuel, es, st).Value? && es[i].Leaf? && es[i].leaf.IntLit?
    ensures EvalAll(m, fuel, es, st).value[i] == Int(es[i].leaf.value)
    decreases es
  {
    if i > 0 {
      LiteralsArePassed(m, fuel, es[1..], Eval(m, fuel, es[0], st).st, i - 1);
    }
  }

  /** A call that the analysis has seen enters a frame that fits. */
  lemma {:induction false} CallFits(m: Machine, calls: seq<Expr>, hash: Hash, fuel: nat, e: Expr, st: State)
    requires Complete(m, calls) && e in calls && e.Nary? && e.nop.Call? && e.nop.function_ in m.functions
    requires EvalAll(m, fuel, e.args, st).Value? && |e.args| == |m.functions[e.nop.function_].params|
    ensures FrameFits(m, calls, hash, Frame(e.nop.function_, EvalAll(m, fuel, e.args, st).value))
  {
    var fn := m.functions[e.nop.function_];
    var vs := EvalAll(m, fuel, e.args, st).value;
    forall i | 0 <= i < |fn.params| && Derived(calls, fn, i, hash).Some?
      ensures var range := Derived(calls, fn, i, hash).value; vs[i].Int? && range.lo <= vs[i].n <= range.hi {
      DerivedExactly(calls, fn, i, hash, Derived(calls, fn, i, hash).value);
      assert IsCallOf(e, fn.name);
      LiteralsArePassed(m, fuel, e.args, st, i);
    }
  }

  lemma {:induction false} EvalFits(m: Machine, calls: seq<Expr>, hash: Hash, fuel: nat, e: Expr, st: State)
    requires Complete(m, calls) && Known(DeepInExpr(e), calls) && FramesFit(m, calls, hash, st.frames)
    ensures FramesFit(m, calls, hash, Eval(m, fuel, e, st).st.frames)
    decreases fuel, e
  {
    match e {
      case Leaf(_) =>
      case Unary(_, x) => EvalFits(m, calls, hash, fuel, x, st);
      case Binary(_, l, r) =>
        EvalFits(m, calls, hash, fuel, l, st);
        EvalFits(m, calls, hash, fuel, r, Eval(m, fuel, l, st).st);
      case Nary(op, args) =>
        EvalAllFits(m, calls, hash, fuel, args, st);
        var out := EvalAll(m, fuel, args, st);
        if op.Call? && op.function_ in m.functions && out.Value? && fuel > 0 {
          var fn := m.functions[op.function_];
          if |out.value| == |fn.params| {
            CallFits(m, calls, hash, fuel, e, st);
            BodyFits(m, calls, hash, fuel - 1, fn, out.value, out.st);
          }
        }
      case IfExpr(c, x, y) =>
        EvalFits(m, calls, hash, fuel, c, st);
        var t := Eval(m, fuel, c, st).st;
        EvalFits(m, calls, hash, fuel, x, t);
        EvalFits(m, calls, hash, fuel, y, t);
    }
  }

  lemma {:induction false} EvalAllFits(m: Machine, calls: seq<Expr>, hash: Hash, fuel: nat, es: seq<Expr>, st: State)
    requires Complete(m, calls) && Known(DeepInExprs(es), calls) && FramesFit(m, calls, hash, st.frames)
    ensures FramesFit(m, calls, hash, EvalAll(m, fuel, es, st).st.frames)
    decreases fuel, es
  {
    if es != [] {
      EvalFits(m, calls, hash, fuel, es[0], st);
      EvalAllFits(m, calls, hash, fuel, es[1..], Eval(m, fuel, es[0], st).st);
    }
  }

  lemma {:induction false} BodyFits(m: Machine, calls: seq<Expr>, hash: Hash, fuel: nat, fn: Function, vs: seq<Val>, st: State)
    requires Complete(m, calls) && Known(Deep(fn.body), calls) && |vs| == |fn.params|
    requires FramesFit(m, calls, hash, st.frames) && FrameFits(m, calls, hash, Frame(fn.name, vs))
    ensures FramesFit(m, calls, hash, Body(m, fuel, fn, vs, st).st.frames)
    decreases fuel, fn.body, 1
  {
    ExecAllFits(m, calls, hash, fuel, fn.body,
                State(Bind(ParamNames(fn.params), vs), st.io, st.frames + [Frame(fn.name, vs)]));
  }

  lemma {:induction false} ExecAllFits(m: Machine, calls: seq<Expr>, hash: Hash, fuel: nat, ss: seq<Stmt>, st: State)
    requires Complete(m, calls) && Known(Deep(ss), calls) && FramesFit(m, calls, hash, st.frames)
    ensures FramesFit(m, calls, hash, ExecAll(m, fuel, ss, st).st.frames)
    decreases fuel, ss, 0
  {
    if ss != [] {
      ExecFits(m, calls, hash, fuel, ss[0], st);
      ExecAllFits(m, calls, hash, fuel, ss[1..], Exec(m, fuel, ss[0], st).st);
    }
  }

  lemma {:induction false} ExecFits(m: Machine, calls: seq<Expr>, hash: Hash, fuel: nat, s: Stmt, st: State)
    requires Complete(m, calls) && Known(DeepInStmt(s), calls) && FramesFit(m, calls, hash, st.frames)
    ensures FramesFit(m, calls, hash, Exec(m, fuel, s, st).st.frames)
    decreases fuel, s, 3
  {
    if
    case s.If? =>
      EvalFits(m, calls, hash, fuel, s.cond, st);
      var out := Eval(m, fuel, s.cond, st);
      if out.Value? {
        ExecAllFits(m, calls, hash, fuel, if Truthy(out.value) then s.thenBody else s.elseBody, out.st);
      }
    case s.While? =>
      WhileFits(m, calls, hash, fuel, s, st);
    case s.DoWhile? =>
      DoWhileFits(m, calls, hash, fuel, s, st);
    case s.For? =>
      EvalFits(m, calls, hash, fuel, s.lo, st);
      var lo := Eval(m, fuel, s.lo, st);
      if lo.Value? {
        EvalFits(m, calls, hash, fuel, s.hi, lo.st);
        var hi := Eval(m, fuel, s.hi, lo.st);
        if hi.Value? && hi.value.Int? {
          ForTurnsFit(m, calls, hash, fuel, s, hi.value.n, Write(s.name, lo.value, hi.st));
        }
      }
    case s.Match? =>
      MatchFits(m, calls, hash, fuel, s, st);
    case s.WithArena? =>
      EvalFits(m, calls, hash, fuel, s.capacity, st);
      var out := Eval(m, fuel, s.capacity, st);
      if out.Value? {
        var handle := Ask(m, OfArena, [out.value], out.st);
        ExecAllFits(m, calls, hash, fuel, s.body, Write(s.name, handle.value, handle.st));
      }
    case s.CStyleFor? =>
      if s.forInit.Some? {
        ExecFits(m, calls, hash, fuel, s.forInit.value, st);
        CForTurnsFit(m, calls, hash, fuel, s, Exec(m, fuel, s.forInit.value, st).st);
      } else {
        CForTurnsFit(m, calls, hash, fuel, s, st);
      }
    case !s.If? && !s.While? && !s.DoWhile? && !s.For? && !s.Match? && !s.WithArena? && !s.CStyleFor? =>
      SimpleFits(m, calls, hash, fuel, s, st);
  }

  lemma {:induction false} SimpleFits(m: Machine, calls: seq<Expr>, hash: Hash, fuel: nat, s: Stmt, st: State)
    requires Complete(m, calls) && Known(DeepInStmt(s), calls) && FramesFit(m, calls, hash, st.frames)
    requires !s.If? && !s.While? && !s.DoWhile? && !s.For? && !s.Match? && !s.WithArena? && !s.CStyleFor?
    ensures FramesFit(m, calls, hash, Exec(m, fuel, s, st).st.frames)
    decreases fuel, s, 2
  {
    match s {
      case Let(_, _, Some(e)) => EvalFits(m, calls, hash, fuel, e, st);
      case Assign(_, e) => EvalFits(m, calls, hash, fuel, e, st);
      case ExprStmt(e) => EvalFits(m, calls, hash, fuel, e, st);
      case ReturnExpr(e) => EvalFits(m, calls, hash, fuel, e, st);
      case FieldSet(_, _, e) => EvalFits(m, calls, hash, fuel, e, st);
      case Store(p, e) =>
        EvalFits(m, calls, hash, fuel, p, st);
        EvalFits(m, calls, hash, fuel, e, Eval(m, fuel, p, st).st);
      case StoreField(p, _, _, _, e) =>
        EvalFits(m, calls, hash, fuel, p, st);
        EvalFits(m, calls, hash, fuel, e, Eval(m, fuel, p, st).st);
      case _ =>
    }
  }

  lemma {:induction false} WhileFits(m: Machine, calls: seq<Expr>, hash: Hash, fuel: nat, s: Stmt, st: State)
    requires s.While? && Complete(m, calls) && Known(DeepInStmt(s), calls) && FramesFit(m, calls, hash, st.frames)
    ensures FramesFit(m, calls, hash, Exec(m, fuel, s, st).st.frames)
    decreases fuel, s, 2
  {
    if fuel > 0 {
      EvalFits(m, calls, hash, fuel, s.cond, st);
      var out := Eval(m, fuel, s.cond, st);
      if out.Value? && Truthy(out.value) {
        ExecAllFits(m, calls, hash, fuel, s.body, out.st);
        var turn := AfterBody(ExecAll(m, fuel, s.body, out.st));
        if turn.Next? {
          WhileFits(m, calls, hash, fuel - 1, s, turn.st);
        }
      }
    }
  }

  lemma {:induction false} DoWhileFits(m: Machine, calls: seq<Expr>, hash: Hash, fuel: nat, s: Stmt, st: State)
    requires s.DoWhile? && Complete(m, calls) && Known(DeepInStmt(s), calls) && FramesFit(m, calls, hash, st.frames)
    ensures FramesFit(m, calls, hash, Exec(m, fuel, s, st).st.frames)
    decreases fuel, s, 2
  {
    if fuel > 0 {
      ExecAllFits(m, calls, hash, fuel, s.body, st);
      var turn := AfterBody(ExecAll(m, fuel, s.body, st));
      if turn.Next? {
        EvalFits(m, calls, hash, fuel, s.cond, turn.st);
        var out := Eval(m, fuel, s.cond, turn.st);
        if out.Value? && Truthy(out.value) {
          DoWhileFits(m, calls, hash, fuel - 1, s, out.st);
        }
      }
    }
  }

  lemma {:induction false} ForTurnsFit(m: Machine, calls: seq<Expr>, hash: Hash, fuel: nat, s: Stmt, hi: int, st: State)
    requires s.For? && Complete(m, calls) && Known(DeepInStmt(s), calls) && FramesFit(m, calls, hash, st.frames)
    ensures FramesFit(m, calls, hash, ForTurns(m, fuel, s, hi, st).st.frames)
    decreases fuel, s, 2
  {
    if fuel > 0 {
      var i := ReadVar(s.name, st);
      if i.Value? && i.value.Int? && i.value.n < hi {
        ExecAllFits(m, calls, hash, fuel, s.body, st);
        var turn := AfterBody(ExecAll(m, fuel, s.body, st));
        if turn.Next? {
          var j := ReadVar(s.name, turn.st);
          if j.Value? && j.value.Int? {
            ForTurnsFit(m, calls, hash, fuel - 1, s, hi, Write(s.name, Int(Arithmetic.Wrap(j.value.n + 1)), turn.st));
          }
        }
      }
    }
  }

  lemma {:induction false} CForTurnsFit(m: Machine, calls: seq<Expr>, hash: Hash, fuel: nat, s: Stmt, st: State)
    requires s.CStyleFor? && Complete(m, calls) && Known(DeepInStmt(s), calls) && FramesFit(m, calls, hash, st.frames)
    ensures FramesFit(m, calls, hash, CForTurns(m, fuel, s, st).st.frames)
    decreases fuel, s, 2
  {
    if fuel > 0 {
      if s.forCond.Some? {
        EvalFits(m, calls, hash, fuel, s.forCond.value, st);
      }
      var test := CForTest(m, fuel, s, st);
      if test.Value? && test.value {
        ExecAllFits(m, calls, hash, fuel, s.body, test.st);
        var turn := AfterBody(ExecAll(m, fuel, s.body, test.st));
        if turn.Next? {
          if s.inc.None? {
            CForTurnsFit(m, calls, hash, fuel - 1, s, turn.st);
          } else {
            ExecFits(m, calls, hash, fuel, s.inc.value, turn.st);
            var out := Exec(m, fuel, s.inc.value, turn.st);
            if out.Value? {
              CForTurnsFit(m, calls, hash, fuel - 1, s, out.st);
            }
          }
        }
      }
    }
  }

  lemma {:induction false} ArmIsDeep(arms: seq<MatchArm>, k: nat)
    requires k < |arms|
    ensures forall c :: c in Deep(arms[k].body) ==> c in DeepInArms(arms)
  {
    if k > 0 {
      ArmIsDeep(arms[1..], k - 1);
    }
  }

  lemma {:induction false} MatchFits(m: Machine, calls: seq<Expr>, hash: Hash, fuel: nat, s: Stmt, st: State)
    requires s.Match? && Complete(m, calls) && Known(DeepInStmt(s), calls) && FramesFit(m, calls, hash, st.frames)
    ensures FramesFit(m, calls, hash, Exec(m, fuel, s, st).st.frames)
    decreases fuel, s, 2
  {
    EvalFits(m, calls, hash, fuel, s.scrutinee, st);
    var out := Eval(m, fuel, s.scrutinee, st);
    if out.Value? && out.value.EnumV? {
      var k := PickArm(s.arms, out.value.variant);
      if k.Some? {
        var arm := s.arms[k.value];
        ArmIsDeep(s.arms, k.value);
        if arm.variant == "_" {
          ExecAllFits(m, calls, hash, fuel, arm.body, out.st);
        } else if |arm.bindings| == |out.value.fields| {
          ExecAllFits(m, calls, hash, fuel, arm.body, ArmStore(arm, out.value, out.st));
        }
      }
    }
  }

  // ---------- Whole programs ----------

  /**
   * Starting any function of the program from outside, with any arguments, every frame
   * that a call enters during the run has its parameters within the derived ranges.
   */
  lemma {:induction false} EnteredFramesFit(m: Machine, program: seq<Function>, hash: Hash, fuel: nat, fn: Function, st: State)
    requires IsProgramOf(m, program) && fn in program && st.frames == []
    requires forall f :: f in program ==> AllCovered(f.body)
    ensures FramesFit(m, ProgramCalls(program), hash, ExecAll(m, fuel, fn.body, st).st.frames)
  {
    var calls := ProgramCalls(program);
    forall f | f in program ensures Known(Deep(f.body), calls) {
      WalkIsComplete(f.body);
      forall c | c in Deep(f.body) ensures c in calls {
        ProgramCallsAre(program, c);
      }
    }
    ExecAllFits(m, calls, hash, fuel, fn.body, st);
  }

  // ---------- A call that the walkers miss ----------

  function CallF(n: int): Expr {
    Nary(Call("f", []), [Leaf(IntLit(I32, n))])
  }

  function Callee(): Function {
    Function("", "f", [], [Param("p", I32)], I32, [Return], [], [])
  }

  function Caller(a: int, b: int): seq<Stmt> {
    [ExprStmt(CallF(a)), StoreField(Leaf(NullPtr), "S", [], "x", CallF(b))]
  }

  function MainCalling(a: int, b: int): Function {
    Function("", "main", [], [], I32, Caller(a, b), [], [])
  }

  lemma {:induction false} CallerCalls(a: int, b: int)
    ensures Calls(Caller(a, b)) == [CallF(a)]
  {
    var first, second := Caller(a, b)[0], Caller(a, b)[1];
    assert Caller(a, b)[1..] == [second] && [second][1..] == [];
    assert CallsInExprs([Leaf(IntLit(I32, a))]) == [] by {
      assert [Leaf(IntLit(I32, a))][1..] == [];
    }
    assert CallsInExpr(CallF(a)) == [CallF(a)];
    assert CallsInStmt(first) == [CallF(a)] && CallsInStmt(second) == [];
    assert Calls([]) == [] && Calls([second]) == [];
  }

  lemma {:induction false} CallsOfBoth(a: int, b: int)
    ensures ProgramCalls([Callee(), MainCalling(a, b)]) == [CallF(a)]
  {
    var program := [Callee(), MainCalling(a, b)];
    assert program[1..] == [MainCalling(a, b)] && [MainCalling(a, b)][1..] == [] && [Return][1..] == [];
    CallerCalls(a, b);
    assert Calls([]) == [] && Calls([Return]) == [];
    assert ProgramCalls([]) == [] && ProgramCalls([MainCalling(a, b)]) == [CallF(a)];
  }

  lemma {:induction false} OnlyTheFirstIsSeen(hash: Hash, a: int, b: int)
    ensures Derived(ProgramCalls([Callee(), MainCalling(a, b)]), Callee(), 0, hash) == Some(Range(a, a))
  {
    CallsOfBoth(a, b);
    DerivedExactly([CallF(a)], Callee(), 0, hash, Range(a, a));
    assert IsCallOf(CallF(a), "f") && LiteralAt(CallF(a), 0, I32) == Some(a);
    assert CallF(a) in [CallF(a)];
  }

  lemma {:induction false} CallFRuns(m: Machine, fuel: nat, n: int, st: State)
    requires fuel > 0 && "f" in m.functions && m.functions["f"] == Callee()
    ensures Eval(m, fuel, CallF(n), st) == Value(VOID, st.(frames := st.frames + [Frame("f", [Int(n)])]))
  {
    var e := Leaf(IntLit(I32, n));
    assert [e][1..] == [];
    assert EvalAll(m, fuel, [], st) == Value([], st);
    assert Eval(m, fuel, e, st) == Value(Int(n), st);
    assert [Int(n)] + [] == [Int(n)];
    assert EvalAll(m, fuel, [e], st) == Value([Int(n)], st);
    var entered := State(Bind(ParamNames(Callee().params), [Int(n)]), st.io, st.frames + [Frame("f", [Int(n)])]);
    assert Exec(m, fuel - 1, Return, entered) == Halt(Returned(None), entered);
    assert ExecAll(m, fuel - 1, [Return], entered) == Halt(Returned(None), entered);
    assert Body(m, fuel - 1, Callee(), [Int(n)], st) == Halt(Returned(None), entered);
  }

  /**
   * A call below a field store is missed: the range derived for `f` is that of the other
   * call, and a run enters a frame of `f` that is outside it exactly when the two differ.
   */
  lemma {:induction false} StoreFieldGap(m: Machine, fuel: nat, hash: Hash, a: int, b: int, st: State)
    requires fuel > 0 && IsProgramOf(m, [Callee(), MainCalling(a, b)]) && st.frames == []
    ensures Derived(ProgramCalls([Callee(), MainCalling(a, b)]), Callee(), 0, hash) == Some(Range(a, a))
    ensures var frames := ExecAll(m, fuel, Caller(a, b), st).st.frames;
            && frames == [Frame("f", [Int(a)]), Frame("f", [Int(b)])]
            && (FramesFit(m, ProgramCalls([Callee(), MainCalling(a, b)]), hash, frames) <==> a == b)
  {
    OnlyTheFirstIsSeen(hash, a, b);
    var program := [Callee(), MainCalling(a, b)];
    assert Callee() in program;
    StoreFieldRuns(m, fuel, a, b, st);
    var frames := [Frame("f", [Int(a)]), Frame("f", [Int(b)])];
    assert FrameFits(m, ProgramCalls(program), hash, frames[0]);
    assert FrameFits(m, ProgramCalls(program), hash, frames[1]) <==> a == b;
  }

  lemma {:induction false} StoreFieldRuns(m: Machine, fuel: nat, a: int, b: int, st: State)
    requires fuel > 0 && "f" in m.functions && m.functions["f"] == Callee() && st.frames == []
    ensures ExecAll(m, fuel, Caller(a, b), st).st.frames == [Frame("f", [Int(a)]), Frame("f", [Int(b)])]
  {
    var ss := Caller(a, b);
    assert ss[1..] == [ss[1]] && [ss[1]][1..] == [];
    CallFRuns(m, fuel, a, st);
    var t := st.(frames := st.frames + [Frame("f", [Int(a)])]);
    assert Exec(m, fuel, ss[0], st) == Value((), t);
    assert Eval(m, fuel, Leaf(NullPtr), t) == Value(Int(0), t);
    CallFRuns(m, fuel, b, t);
    var out := Exec(m, fuel, ss[1], t);
    assert out.Value? && out.st.frames == t.frames + [Frame("f", [Int(b)])];
    assert ExecAll(m, fuel, [ss[1]], t).st == out.st;
  }
}
