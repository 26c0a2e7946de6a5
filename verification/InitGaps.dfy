/** What the clauses of the soundness fragment shut out: functions outside it that report nothing and read an unset local. */
module InitGaps {
  import opened Wrappers
  import opened QuodTree
  import opened Runs
  import opened QuodRun
  import opened DefiniteInit
  import opened InitSound

  function Bare(body: seq<Stmt>): Function {
    Function("", "f", [], [], I32, body, [], [])
  }

  const START := State(map[], [], [])

  function Local(x: string): Expr {
    Leaf(LocalRef(x))
  }

  /** The walk has no case for `Not`, so it accepts any read below one. */
  lemma {:induction false} NotGap(m: Machine, fuel: nat, x: string)
    ensures var fn := Bare([Let(x, I1, None), ReturnExpr(Unary(Not, Local(x)))]);
            && x in Locals(fn)
            && Reports(fn.body, {}, Locals(fn)) == []
            && ExecAll(m, fuel, fn.body, START).Halt?
            && ExecAll(m, fuel, fn.body, START).sig == ReadUnset(x)
  {
    var declare, read := Let(x, I1, None), ReturnExpr(Unary(Not, Local(x)));
    var ss := [declare, read];
    assert ss[1..] == [read] && [read][1..] == [];
    assert Collected([read]) == {};
    assert Collected(ss) == {x};
    assert Locals(Bare(ss)) == {x};
    assert StmtReports(read, {}, {x}) == [];
    assert Reports([read], {}, {x}) == [];
    assert Exec(m, fuel, declare, START) == Value((), START);
    assert Eval(m, fuel, Unary(Not, Local(x)), START) == Halt(ReadUnset(x), START);
    assert Exec(m, fuel, read, START) == Halt(ReadUnset(x), START);
    assert ExecAll(m, fuel, [read], START) == Halt(ReadUnset(x), START);
  }

  /**
   * The declaration pass does not enter a do-while, so the walk reports no read of a local
   * declared there; it is the check for undeclared names that rejects every reference to it.
   */
  lemma {:induction false} DoWhileDeclarationGap(m: Machine, fuel: nat, x: string)
    requires fuel > 0
    ensures var fn := Bare([DoWhile([Let(x, I32, None)], Leaf(IntLit(I1, 0))), ReturnExpr(Local(x))]);
            && Locals(fn) == {} && x !in ScopeOf(fn).Names()
            && Reports(fn.body, {}, Locals(fn)) == []
            && ExecAll(m, fuel, fn.body, START).Halt?
            && ExecAll(m, fuel, fn.body, START).sig == ReadUnset(x)
  {
    var declare, no := Let(x, I32, None), Leaf(IntLit(I1, 0));
    var loop, read := DoWhile([declare], no), ReturnExpr(Local(x));
    var ss := [loop, read];
    assert ss[1..] == [read] && [read][1..] == [] && [declare][1..] == [];
    assert Collected([read]) == {};
    assert Collected(ss) == {};
    assert Locals(Bare(ss)) == {};
    assert AfterStmt(declare, {}) == Some({}) && After([], {}) == Some({}) && Reports([], {}, {}) == [];
    assert StmtReports(declare, {}, {}) == [];
    assert Reports([declare], {}, {}) == [] && After([declare], {}) == Some({});
    assert StmtReports(loop, {}, {}) == [];
    assert Reports([read], {}, {}) == [];
    assert Exec(m, fuel, declare, START) == Value((), START);
    assert ExecAll(m, fuel, [declare], START) == Value((), START);
    assert Eval(m, fuel, no, START) == Value(Int(0), START);
    assert DoWhileTurns(m, fuel, loop, START) == Value((), START);
    assert Exec(m, fuel, loop, START) == Value((), START);
    assert Exec(m, fuel, read, START) == Halt(ReadUnset(x), START);
    assert ExecAll(m, fuel, [read], START) == Halt(ReadUnset(x), START);
  }

  /**
   * `do { if c { break } x = n } while 0; return x`: the write counts although the
   * break skips it. A run reads `x` unset exactly when it takes the break.
   */
  lemma {:induction false} DoWhileBreakGap(m: Machine, fuel: nat, x: string, c: Expr, n: int, st: State)
    requires fuel > 0 && x !in st.store && ExprReports(c, {}, {x}) == []
    requires Eval(m, fuel, c, st).Value?
    ensures var ss := BreakingLoop(x, c, n);
            var out := ExecAll(m, fuel, ss, st);
            && Collected(ss) == {x}
            && Reports(ss, {}, {x}) == []
            && out.Halt?
            && (out.sig == ReadUnset(x) <==> Truthy(Eval(m, fuel, c, st).value))
  {
    BreakingLoopReports(x, c, n);
    BreakingLoopRuns(m, fuel, x, c, n, st);
  }

  function BreakingLoop(x: string, c: Expr, n: int): seq<Stmt> {
    [Let(x, I32, None), DoWhile([If(c, [Break], []), Assign(x, Leaf(IntLit(I32, n)))], Leaf(IntLit(I1, 0))), ReturnExpr(Local(x))]
  }

  lemma {:induction false} BreakingLoopReports(x: string, c: Expr, n: int)
    requires ExprReports(c, {}, {x}) == []
    ensures Collected(BreakingLoop(x, c, n)) == {x} && Reports(BreakingLoop(x, c, n), {}, {x}) == []
  {
    var declare, no, read := Let(x, I32, None), Leaf(IntLit(I1, 0)), ReturnExpr(Local(x));
    var test, write := If(c, [Break], []), Assign(x, Leaf(IntLit(I32, n)));
    var loop := DoWhile([test, write], no);
    var ss := [declare, loop, read];
    assert ss[1..] == [loop, read] && [loop, read][1..] == [read] && [read][1..] == [];
    assert [test, write][1..] == [write] && [write][1..] == [] && [Break][1..] == [];
    assert After([Break], {}) == None && After([], {}) == Some({});
    assert AfterStmt(test, {}) == Some({});
    assert AfterStmt(write, {}) == Some({} + {x}) && {} + {x} == {x};
    assert After([], {x}) == Some({x});
    assert After([write], {}) == Some({x});
    assert After([test, write], {}) == Some({x});
    assert AfterStmt(loop, {}) == Some({x});
    assert Collected([read]) == {} && Collected([loop, read]) == {};
    assert Reports([Break], {}, {x}) == [];
    assert StmtReports(test, {}, {x}) == [];
    assert Reports([write], {}, {x}) == [];
    assert Reports([test, write], {}, {x}) == [];
    assert Reports([loop, read], {}, {x}) == Reports([read], {x}, {x}) == [];
  }

  lemma {:induction false} BreakingLoopRuns(m: Machine, fuel: nat, x: string, c: Expr, n: int, st: State)
    requires fuel > 0 && x !in st.store
    requires Eval(m, fuel, c, st).Value?
    ensures var out := ExecAll(m, fuel, BreakingLoop(x, c, n), st);
            && out.Halt?
            && (out.sig == ReadUnset(x) <==> Truthy(Eval(m, fuel, c, st).value))
  {
    var declare, no, read := Let(x, I32, None), Leaf(IntLit(I1, 0)), ReturnExpr(Local(x));
    var test, write := If(c, [Break], []), Assign(x, Leaf(IntLit(I32, n)));
    var loop := DoWhile([test, write], no);
    var ss := [declare, loop, read];
    assert ss[1..] == [loop, read] && [loop, read][1..] == [read] && [read][1..] == [];
    assert [test, write][1..] == [write] && [write][1..] == [] && [Break][1..] == [];
    assert Exec(m, fuel, declare, st) == Value((), st);
    var out := Eval(m, fuel, c, st);
    var u := out.st;
    if Truthy(out.value) {
      assert ExecAll(m, fuel, [Break], u) == Halt(Broke, u);
      assert Exec(m, fuel, test, st) == Halt(Broke, u);
      assert ExecAll(m, fuel, [test, write], st) == Halt(Broke, u);
      assert Exec(m, fuel, loop, st) == Value((), u);
      assert Exec(m, fuel, read, u) == Halt(ReadUnset(x), u);
      assert ExecAll(m, fuel, [read], u) == Halt(ReadUnset(x), u);
      assert ExecAll(m, fuel, [loop, read], st) == Halt(ReadUnset(x), u);
    } else {
      var w := Write(x, Int(n), u);
      assert ExecAll(m, fuel, [], u) == Value((), u);
      assert Exec(m, fuel, test, st) == Value((), u);
      assert Exec(m, fuel, write, u) == Value((), w);
      assert ExecAll(m, fuel, [], w) == Value((), w);
      assert ExecAll(m, fuel, [write], u) == Value((), w);
      assert ExecAll(m, fuel, [test, write], st) == Value((), w);
      assert Eval(m, fuel, no, w) == Value(Int(0), w);
      assert DoWhileTurns(m, fuel, loop, st) == Value((), w);
      assert Exec(m, fuel, loop, st) == Value((), w);
      assert Eval(m, fuel, Local(x), w) == Value(Int(n), w);
      assert Exec(m, fuel, read, w) == Halt(Returned(Some(Int(n))), w);
      assert ExecAll(m, fuel, [read], w) == Halt(Returned(Some(Int(n))), w);
      assert ExecAll(m, fuel, [loop, read], st) == Halt(Returned(Some(Int(n))), w);
    }
  }

  /**
   * A binding has a slot of its own, but the walk counts it as a write of the local whose name it
   * carries. A run reads the local unset exactly when it takes that arm.
   */
  lemma {:induction false} ArmBindingGap(m: Machine, fuel: nat, x: string, scrutinee: Expr, inferred: Option<string>,
                                         variant: string, st: State)
    requires x !in st.store && ExprReports(scrutinee, {}, {x}) == [] && variant != "_"
    requires Eval(m, fuel, scrutinee, st).Value? && Eval(m, fuel, scrutinee, st).value.EnumV?
    ensures var ss := Leak(x, scrutinee, inferred, variant);
            var v := Eval(m, fuel, scrutinee, st).value;
            var out := ExecAll(m, fuel, ss, st);
            && Collected(ss) == {x}
            && Reports(ss, {}, {x}) == []
            && out.Halt?
            && (out.sig == ReadUnset(x) <==> v.variant == variant && |v.fields| == 1)
  {
    LeakReports(x, scrutinee, inferred, variant);
    LeakRuns(m, fuel, x, scrutinee, inferred, variant, st);
  }

  function Leak(x: string, scrutinee: Expr, inferred: Option<string>, variant: string): seq<Stmt> {
    [Let(x, I32, None), Match(scrutinee, inferred, [MatchArm(variant, [x], [])]), ReturnExpr(Local(x))]
  }

  lemma {:induction false} LeakReports(x: string, scrutinee: Expr, inferred: Option<string>, variant: string)
    requires ExprReports(scrutinee, {}, {x}) == []
    ensures var ss := Leak(x, scrutinee, inferred, variant); Collected(ss) == {x} && Reports(ss, {}, {x}) == []
  {
    var declare, read, arm := Let(x, I32, None), ReturnExpr(Local(x)), MatchArm(variant, [x], []);
    var pick := Match(scrutinee, inferred, [arm]);
    var ss := [declare, pick, read];
    assert ss[1..] == [pick, read] && [pick, read][1..] == [read] && [read][1..] == [];
    assert [arm][1..] == [];
    assert Elements([x]) == {x};
    assert After([], {x}) == Some({x});
    assert Collected([]) == {} && CollectedInArms([arm]) == {};
    assert Collected([read]) == {} && Collected([pick, read]) == {};
    assert {} + Elements([x]) == {x};
    assert AfterArms([], {}) == None;
    assert AfterArms([arm], {}) == Some({x});
    assert ArmReports([arm], {}, {x}) == [];
    assert Reports([pick, read], {}, {x}) == Reports([read], {x}, {x}) == [];
  }

  lemma {:induction false} LeakRuns(m: Machine, fuel: nat, x: string, scrutinee: Expr, inferred: Option<string>,
                                    variant: string, st: State)
    requires x !in st.store && variant != "_"
    requires Eval(m, fuel, scrutinee, st).Value? && Eval(m, fuel, scrutinee, st).value.EnumV?
    ensures var v := Eval(m, fuel, scrutinee, st).value;
            var out := ExecAll(m, fuel, Leak(x, scrutinee, inferred, variant), st);
            out.Halt? && (out.sig == ReadUnset(x) <==> v.variant == variant && |v.fields| == 1)
  {
    var declare, read, arm := Let(x, I32, None), ReturnExpr(Local(x)), MatchArm(variant, [x], []);
    var pick := Match(scrutinee, inferred, [arm]);
    var ss := [declare, pick, read];
    assert ss[1..] == [pick, read] && [pick, read][1..] == [read] && [read][1..] == [];
    var out := Eval(m, fuel, scrutinee, st);
    assert Exec(m, fuel, declare, st) == Value((), st);
    assert ExecAll(m, fuel, ss, st) == ExecAll(m, fuel, [pick, read], st);
    LeakingMatchRuns(m, fuel, x, scrutinee, inferred, variant, st);
    if out.value.variant == variant && |out.value.fields| == 1 {
      assert Exec(m, fuel, read, out.st) == Halt(ReadUnset(x), out.st);
      assert ExecAll(m, fuel, [read], out.st) == Halt(ReadUnset(x), out.st);
    }
  }

  lemma {:induction false} LeakingMatchRuns(m: Machine, fuel: nat, x: string, scrutinee: Expr, inferred: Option<string>,
                                            variant: string, st: State)
    requires x !in st.store && variant != "_"
    requires Eval(m, fuel, scrutinee, st).Value? && Eval(m, fuel, scrutinee, st).value.EnumV?
    ensures var out := Eval(m, fuel, scrutinee, st);
            var ran := Exec(m, fuel, Match(scrutinee, inferred, [MatchArm(variant, [x], [])]), st);
            if out.value.variant == variant && |out.value.fields| == 1 then ran == Value((), out.st)
            else ran.Halt? && !ran.sig.ReadUnset?
  {
    var pick := Match(scrutinee, inferred, [MatchArm(variant, [x], [])]);
    var out := Eval(m, fuel, scrutinee, st);
    LeakingArmRuns(m, fuel, x, pick, variant, out.value, out.st);
    assert Exec(m, fuel, pick, st) == RunArm(m, fuel, pick, out.value, out.st);
  }

  lemma {:induction false} LeakingArmRuns(m: Machine, fuel: nat, x: string, pick: Stmt, variant: string, v: Val, st: State)
    requires pick.Match? && pick.arms == [MatchArm(variant, [x], [])] && x !in st.store && variant != "_" && v.EnumV?
    ensures var ran := RunArm(m, fuel, pick, v, st);
            if v.variant == variant && |v.fields| == 1 then ran == Value((), st) else ran.Halt? && !ran.sig.ReadUnset?
  {
    var arm := pick.arms[0];
    assert pick.arms[1..] == [] && FindArm(pick.arms, "_") == None;
    if v.variant == variant {
      assert PickArm(pick.arms, variant) == Some(0);
      if |v.fields| == 1 {
        EmptyArmRestores(arm, x, v, st);
        assert ExecAll(m, fuel, [], ArmStore(arm, v, st)) == Value((), ArmStore(arm, v, st));
      }
    } else {
      assert FindArm(pick.arms, v.variant) == None;
    }
  }

  lemma {:induction false} EmptyArmRestores(arm: MatchArm, x: string, v: Val, st: State)
    requires arm.bindings == [x] && v.EnumV? && |v.fields| == 1 && x !in st.store
    ensures LeaveArm(arm, st, Value((), ArmStore(arm, v, st))) == Value((), st)
  {
    assert [x][1..] == [] && Bind([], v.fields[1..]) == map[];
    assert ArmStore(arm, v, st).store == st.store + map[x := v.fields[0]];
    assert Restore(st.store, ArmStore(arm, v, st).store, Elements([x])) == st.store;
  }
}
