/**
 * Why each condition of the fragment is there: statement pairs that the walk
 * accepts and that run differently from states where `x` is `n`.
 */
module LiftGaps {
  import opened Wrappers
  import opened QuodTree
  import opened Arithmetic
  import opened Runs
  import opened CTree
  import opened LiftCheck
  import C = CRun
  import Q = QuodRun

  datatype Verdict = Accepted | Rejected

  function Walk(a: CStmt, b: Stmt): Verdict {
    if AcceptsStmt(a, b, None) then Accepted else Rejected
  }

  const CX := CVarRef("x")
  const X := Leaf(LocalRef("x"))

  function CNum(n: int): CExpr {
    CIntLit(I32, n)
  }

  function Num(n: int): Expr {
    Leaf(IntLit(I32, n))
  }

  function Is(e: Expr, n: int): Expr {
    Binary(Arith(Eq), e, Num(n))
  }

  function CAt(n: int): C.CState {
    C.CState(map["x" := Int(n)], [])
  }

  function At(n: int): Q.State {
    Q.State(map["x" := Int(n)], [], [])
  }

  /** An implicit cast is looked through: the pair agrees only where the cast changes nothing. */
  lemma {:induction false} CastGap(cm: C.CMachine, m: Q.Machine, fuel: nat, n: int)
    ensures var a, b := CReturn(Some(CX)), ReturnExpr(Unary(Cast(I8), X));
            && Walk(a, b) == Accepted
            && C.ExecC(cm, fuel, a, CAt(n)) == Halt(Returned(Some(Int(n))), CAt(n))
            && (Q.Exec(m, fuel, b, At(n)) == Halt(Returned(Some(Int(n))), At(n)) <==> -0x80 <= n < 0x80)
  {
    var b := Unary(Cast(I8), X);
    assert Q.Eval(m, fuel, X, At(n)) == Value(Int(n), At(n));
    assert Q.Eval(m, fuel, b, At(n)) == Value(Int((n + 0x80) % 0x100 - 0x80), At(n));
    assert AcceptsExpr(CX, X, None);
  }

  /** The operator family is read off the quod side: an unsigned comparison is accepted for a signed one. */
  lemma {:induction false} UnsignedGap(cm: C.CMachine, m: Q.Machine, fuel: nat, n: int)
    requires InRange(n)
    ensures var a, b := CReturn(Some(CBinOp(CLt, CX, CNum(1)))), ReturnExpr(Binary(Arith(Ult), X, Num(1)));
            && Walk(a, b) == Accepted
            && C.ExecC(cm, fuel, a, CAt(n)) == Halt(Returned(Some(Int(Bool(n < 1)))), CAt(n))
            && (Q.Exec(m, fuel, b, At(n)) == Halt(Returned(Some(Int(Bool(n < 1)))), At(n)) <==> n >= 0)
  {
    UnsignedAccepted();
    SignedRuns(cm, fuel, n);
    UnsignedRuns(m, fuel, n);
  }

  lemma {:induction false} UnsignedAccepted()
    ensures AcceptsExpr(CBinOp(CLt, CX, CNum(1)), Binary(Arith(Ult), X, Num(1)), None)
  {
    assert AcceptsExpr(CX, X, None) && AcceptsExpr(CNum(1), Num(1), None);
  }

  lemma {:induction false} SignedRuns(cm: C.CMachine, fuel: nat, n: int)
    ensures C.EvalC(cm, fuel, CBinOp(CLt, CX, CNum(1)), CAt(n)) == Value(Int(Bool(n < 1)), CAt(n))
  {
    assert C.EvalC(cm, fuel, CX, CAt(n)) == Value(Int(n), CAt(n));
    assert C.EvalC(cm, fuel, CNum(1), CAt(n)) == Value(Int(1), CAt(n));
  }

  lemma {:induction false} UnsignedRuns(m: Q.Machine, fuel: nat, n: int)
    requires InRange(n)
    ensures Q.Eval(m, fuel, Binary(Arith(Ult), X, Num(1)), At(n)) == Value(Int(Bool(n == 0)), At(n))
  {
    assert Q.Eval(m, fuel, X, At(n)) == Value(Int(n), At(n));
    assert Q.Eval(m, fuel, Num(1), At(n)) == Value(Int(1), At(n));
  }

  lemma {:induction false} IsRuns(m: Q.Machine, fuel: nat, n: int, k: int)
    ensures Q.Eval(m, fuel, Is(X, k), At(n)) == Value(Int(Bool(n == k)), At(n))
  {
    assert Q.Eval(m, fuel, X, At(n)) == Value(Int(n), At(n));
    assert Q.Eval(m, fuel, Num(k), At(n)) == Value(Int(k), At(n));
  }

  lemma {:induction false} ReturnRuns(m: Q.Machine, fuel: nat, k: int, st: Q.State)
    ensures Q.ExecAll(m, fuel, [ReturnExpr(Num(k))], st) == Halt(Returned(Some(Int(k))), st)
  {
    assert Q.Eval(m, fuel, Num(k), st) == Value(Int(k), st);
  }

  /** The branches of an if paired with `return cond` are not inspected. */
  lemma {:induction false} ReturnIfGap(cm: C.CMachine, m: Q.Machine, fuel: nat, n: int, k: int)
    ensures var a, b := CReturn(Some(CUnary(CLogNot, CX))), If(Is(X, 0), [ReturnExpr(Num(k))], [ReturnExpr(Num(0))]);
            && Walk(a, b) == Accepted
            && C.ExecC(cm, fuel, a, CAt(n)) == Halt(Returned(Some(Int(Bool(n == 0)))), CAt(n))
            && (Q.Exec(m, fuel, b, At(n)) == Halt(Returned(Some(Int(Bool(n == 0)))), At(n)) <==> n != 0 || k == 1)
  {
    NotAccepted(k);
    NotRuns(cm, fuel, n);
    IfReturnRuns(m, fuel, n, k);
  }

  lemma {:induction false} NotAccepted(k: int)
    ensures Walk(CReturn(Some(CUnary(CLogNot, CX))), If(Is(X, 0), [ReturnExpr(Num(k))], [ReturnExpr(Num(0))])) == Accepted
  {
    LogNotAccepted();
  }

  lemma {:induction false} LogNotAccepted()
    ensures AcceptsExpr(CUnary(CLogNot, CX), Is(X, 0), None)
  {
    assert AcceptsExpr(CX, X, None);
  }

  lemma {:induction false} NotRuns(cm: C.CMachine, fuel: nat, n: int)
    ensures C.ExecC(cm, fuel, CReturn(Some(CUnary(CLogNot, CX))), CAt(n)) == Halt(Returned(Some(Int(Bool(n == 0)))), CAt(n))
  {
    assert C.EvalC(cm, fuel, CX, CAt(n)) == Value(Int(n), CAt(n));
  }

  lemma {:induction false} IfReturnRuns(m: Q.Machine, fuel: nat, n: int, k: int)
    ensures Q.Exec(m, fuel, If(Is(X, 0), [ReturnExpr(Num(k))], [ReturnExpr(Num(0))]), At(n)) ==
            Halt(Returned(Some(Int(if n == 0 then k else 0))), At(n))
  {
    IsRuns(m, fuel, n, 0);
    ReturnRuns(m, fuel, k, At(n));
    ReturnRuns(m, fuel, 0, At(n));
  }

  // ---------- Switches ----------

  lemma {:induction false} ForgettingNothing(before: C.CState, out: Out<C.CState, ()>)
    ensures C.LeaveScope(before, out, {}) == out
  {
    assert Restore(before.store, out.st.store, {}) == out.st.store;
  }

  lemma {:induction false} EmptyBlockRuns(cm: C.CMachine, fuel: nat, st: C.CState)
    ensures C.ExecBlock(cm, fuel, [], st) == Value((), st)
  {
    ForgettingNothing(st, Value((), st));
  }

  /** A block of one jump. */
  lemma {:induction false} JumpBlockRuns(cm: C.CMachine, fuel: nat, s: CStmt, st: C.CState)
    requires s.CBreak? || s.CContinue? || s.CReturn?
    ensures C.ExecBlock(cm, fuel, [s], st) == C.ExecC(cm, fuel, s, st)
  {
    var out := C.ExecList(cm, fuel, [s], st);
    assert C.DeclaredIn([s]) == {};
    ForgettingNothing(st, out);
  }

  lemma {:induction false} CaseMisses(cm: C.CMachine, fuel: nat, k: int, n: int)
    requires k != n
    ensures C.Hits(cm, fuel, [CNum(k)], n, CAt(n)) == Some(false)
  {
    assert C.EvalC(cm, fuel, CNum(k), CAt(n)) == Value(Int(k), CAt(n));
    assert [CNum(k)][1..] == [];
  }

  lemma {:induction false} CaseHits(cm: C.CMachine, fuel: nat, n: int)
    ensures C.Hits(cm, fuel, [CNum(n)], n, CAt(n)) == Some(true)
  {
    assert C.EvalC(cm, fuel, CNum(n), CAt(n)) == Value(Int(n), CAt(n));
  }

  lemma {:induction false} SwitchRuns(cm: C.CMachine, fuel: nat, cases: seq<CSwitchCase>, n: int, k: nat)
    requires C.PickCase(cm, fuel, cases, n, CAt(n)) == Some(k)
    ensures C.ExecC(cm, fuel, CSwitch(CX, cases, []), CAt(n)) ==
            C.LeaveSwitch(C.ExecBlock(cm, fuel, if k < |cases| then cases[k].body else [], CAt(n)))
  {
    assert C.EvalC(cm, fuel, CX, CAt(n)) == Value(Int(n), CAt(n));
  }

  /** `case 1: body` against `if (x == 1) { then }` with nothing behind it. */
  lemma {:induction false} LabelAccepted()
    ensures AcceptsCaseEq(CX, CNum(1), Is(X, 1), None)
  {
    assert AcceptsExpr(CX, X, None) && AcceptsExpr(CNum(1), Num(1), None);
  }

  lemma {:induction false} FirstCaseAccepted(cases: seq<CSwitchCase>, body: seq<CStmt>, then_: seq<Stmt>)
    requires cases != [] && cases[0] == CSwitchCase([CNum(1)], body) && AcceptsBody(body, then_, None)
    ensures Walk(CSwitch(CX, cases, []), If(Is(X, 1), then_, [])) == Accepted
  {
    LabelAccepted();
    assert AcceptsCaseCond(CX, cases[0].values, Is(X, 1), None);
    assert AcceptsBody([], [], None);
    assert AcceptsChain(CX, cases, [], If(Is(X, 1), then_, []), None);
  }

  /** `case 1: ;` and then `case k: continue;` for each label. */
  function ChainedCases(labels: seq<int>): seq<CSwitchCase> {
    [CSwitchCase([CNum(1)], [])] + ContinuingCases(labels)
  }

  function ContinuingCases(labels: seq<int>): (cases: seq<CSwitchCase>)
    ensures |cases| == |labels| && forall i :: 0 <= i < |labels| ==> cases[i].body == [CContinue]
  {
    if labels == [] then [] else [CSwitchCase([CNum(labels[0])], [CContinue])] + ContinuingCases(labels[1..])
  }

  lemma {:induction false} ContinuingCasePicked(cm: C.CMachine, fuel: nat, labels: seq<int>, n: int)
    ensures var k := C.PickCase(cm, fuel, ContinuingCases(labels), n, CAt(n));
            k.Some? && (k.value < |labels| <==> n in labels)
  {
    if labels != [] {
      var cases := ContinuingCases(labels);
      assert cases[1..] == ContinuingCases(labels[1..]) && cases[0].values == [CNum(labels[0])];
      if labels[0] == n {
        CaseHits(cm, fuel, n);
      } else {
        CaseMisses(cm, fuel, labels[0], n);
        ContinuingCasePicked(cm, fuel, labels[1..], n);
      }
    }
  }

  lemma {:induction false} ChainedCasesRun(cm: C.CMachine, fuel: nat, labels: seq<int>, n: int)
    ensures C.ExecC(cm, fuel, CSwitch(CX, ChainedCases(labels), []), CAt(n)) ==
            if n != 1 && n in labels then Halt(Continued, CAt(n)) else Value((), CAt(n))
  {
    var cases := ChainedCases(labels);
    assert cases[1..] == ContinuingCases(labels);
    EmptyBlockRuns(cm, fuel, CAt(n));
    JumpBlockRuns(cm, fuel, CContinue, CAt(n));
    if n == 1 {
      CaseHits(cm, fuel, 1);
      SwitchRuns(cm, fuel, cases, n, 0);
    } else {
      CaseMisses(cm, fuel, 1, n);
      ContinuingCasePicked(cm, fuel, labels, n);
      SwitchRuns(cm, fuel, cases, n, C.PickCase(cm, fuel, ContinuingCases(labels), n, CAt(n)).value + 1);
    }
  }

  /**
   * An empty else stops the switch walk, so the cases behind it are paired with nothing: the
   * pair agrees exactly when none of them is the first to hold the value.
   */
  lemma {:induction false} ShortChainGap(cm: C.CMachine, m: Q.Machine, fuel: nat, labels: seq<int>, n: int)
    ensures var a, b := CSwitch(CX, ChainedCases(labels), []), If(Is(X, 1), [], []);
            && Walk(a, b) == Accepted
            && Q.Exec(m, fuel, b, At(n)) == Value((), At(n))
            && (C.ExecC(cm, fuel, a, CAt(n)) == Value((), CAt(n)) <==> n == 1 || n !in labels)
  {
    FirstCaseAccepted(ChainedCases(labels), [], []);
    ChainedCasesRun(cm, fuel, labels, n);
    IsRuns(m, fuel, n, 1);
  }

  /** `break` leaves a C switch but the loop around the chain of ifs. */
  lemma {:induction false} OwnBreakGap(cm: C.CMachine, m: Q.Machine, fuel: nat, n: int)
    ensures var a, b := CSwitch(CX, [CSwitchCase([CNum(1)], [CBreak])], []), If(Is(X, 1), [Break], []);
            && Walk(a, b) == Accepted
            && C.ExecC(cm, fuel, a, CAt(n)) == Value((), CAt(n))
            && (Q.Exec(m, fuel, b, At(n)) == Value((), At(n)) <==> n != 1)
  {
    FirstCaseAccepted([CSwitchCase([CNum(1)], [CBreak])], [CBreak], [Break]);
    BreakingSwitchRuns(cm, fuel, n);
    BreakingIfRuns(m, fuel, n);
  }

  lemma {:induction false} BreakingSwitchRuns(cm: C.CMachine, fuel: nat, n: int)
    ensures C.ExecC(cm, fuel, CSwitch(CX, [CSwitchCase([CNum(1)], [CBreak])], []), CAt(n)) == Value((), CAt(n))
  {
    var cases := [CSwitchCase([CNum(1)], [CBreak])];
    assert cases[1..] == [];
    if n == 1 {
      CaseHits(cm, fuel, 1);
      JumpBlockRuns(cm, fuel, CBreak, CAt(1));
    } else {
      CaseMisses(cm, fuel, 1, n);
      EmptyBlockRuns(cm, fuel, CAt(n));
    }
    SwitchRuns(cm, fuel, cases, n, if n == 1 then 0 else 1);
  }

  lemma {:induction false} BreakingIfRuns(m: Q.Machine, fuel: nat, n: int)
    ensures Q.Exec(m, fuel, If(Is(X, 1), [Break], []), At(n)) == if n == 1 then Halt(Broke, At(n)) else Value((), At(n))
  {
    IsRuns(m, fuel, n, 1);
    assert Q.ExecAll(m, fuel, [Break], At(n)) == Halt(Broke, At(n));
  }

  /** Without a case the test of the if is not inspected. */
  lemma {:induction false} NoCaseGap(cm: C.CMachine, m: Q.Machine, fuel: nat, n: int)
    ensures var a, b := CSwitch(CX, [], []), If(X, [Break], []);
            && Walk(a, b) == Accepted
            && C.ExecC(cm, fuel, a, CAt(n)) == Value((), CAt(n))
            && (Q.Exec(m, fuel, b, At(n)) == Value((), At(n)) <==> n == 0)
  {
    EmptyBlockRuns(cm, fuel, CAt(n));
    SwitchRuns(cm, fuel, [], n, 0);
    assert Q.Eval(m, fuel, X, At(n)) == Value(Int(n), At(n));
    assert Q.ExecAll(m, fuel, [Break], At(n)) == Halt(Broke, At(n));
  }

  /**
   * Each label test evaluates the scrutinee: a call in it is made once in C and once per test
   * in quod, so the traces agree exactly when the first label is hit.
   */
  lemma {:induction false} ScrutineeCallGap(cm: C.CMachine, m: Q.Machine, fuel: nat, st: Q.State)
    requires cm.functions == map[] && m.functions == map[] && cm.world == m.world
    requires forall events :: m.world(events).Int?
    ensures var g := Nary(Call("g", []), []);
            var a := CSwitch(CCall("g", []), [CSwitchCase([CNum(1), CNum(2)], [])], []);
            var b := If(Binary(ScOr, Is(g, 1), Is(g, 2)), [], []);
            var ra, rb := C.ExecC(cm, fuel, a, C.CState(map[], st.io)), Q.Exec(m, fuel, b, st);
            && Walk(a, b) == Accepted
            && |ra.st.io| == |st.io| + 1
            && |rb.st.io| == |st.io| + (if Answer(m, st) == Int(1) then 1 else 2)
            && (ra.st.io == rb.st.io <==> Answer(m, st) == Int(1))
  {
    StackedAccepted();
    StackedRunsInC(cm, m, fuel, st);
    StackedRunsInQuod(m, fuel, st);
  }

  lemma {:induction false} StackedAccepted()
    ensures var g := Nary(Call("g", []), []);
            Walk(CSwitch(CCall("g", []), [CSwitchCase([CNum(1), CNum(2)], [])], []),
                 If(Binary(ScOr, Is(g, 1), Is(g, 2)), [], [])) == Accepted
  {
    StackedLabelsAccepted();
    assert AcceptsBody([], [], None);
  }

  lemma {:induction false} StackedLabelsAccepted()
    ensures var g := Nary(Call("g", []), []);
            AcceptsCaseCond(CCall("g", []), [CNum(1), CNum(2)], Binary(ScOr, Is(g, 1), Is(g, 2)), None)
  {
    var g := Nary(Call("g", []), []);
    CalledLabelAccepted(1);
    CalledLabelAccepted(2);
    assert Disjuncts(Is(g, 1)) == [Is(g, 1)] && Disjuncts(Is(g, 2)) == [Is(g, 2)];
  }

  lemma {:induction false} CalledLabelAccepted(k: int)
    ensures AcceptsCaseEq(CCall("g", []), CNum(k), Is(Nary(Call("g", []), []), k), None)
  {
    assert AcceptsExpr(CCall("g", []), Nary(Call("g", []), []), None);
    assert AcceptsExpr(CNum(k), Num(k), None);
  }

  lemma {:induction false} StackedRunsInC(cm: C.CMachine, m: Q.Machine, fuel: nat, st: Q.State)
    requires cm.functions == map[] && cm.world == m.world && forall events :: m.world(events).Int?
    ensures var a := CSwitch(CCall("g", []), [CSwitchCase([CNum(1), CNum(2)], [])], []);
            C.ExecC(cm, fuel, a, C.CState(map[], st.io)).st.io == Q.Ask(m, Q.Extern("g"), [], st).st.io
  {
    var start, asked := C.CState(map[], st.io), C.CState(map[], Q.Ask(m, Q.Extern("g"), [], st).st.io);
    assert C.EvalCAll(cm, fuel, [], start) == Value([], start);
    assert C.EvalC(cm, fuel, CCall("g", []), start) == Value(Answer(m, st), asked);
    EmptyBlockRuns(cm, fuel, asked);
  }

  lemma {:induction false} StackedRunsInQuod(m: Q.Machine, fuel: nat, st: Q.State)
    requires m.functions == map[] && forall events :: m.world(events).Int?
    ensures var g := Nary(Call("g", []), []);
            var asked := Q.Ask(m, Q.Extern("g"), [], st).st;
            Q.Exec(m, fuel, If(Binary(ScOr, Is(g, 1), Is(g, 2)), [], []), st).st.io ==
            if Answer(m, st) == Int(1) then asked.io else Q.Ask(m, Q.Extern("g"), [], asked).st.io
  {
    var g := Nary(Call("g", []), []);
    var either := Binary(ScOr, Is(g, 1), Is(g, 2));
    var asked := Q.Ask(m, Q.Extern("g"), [], st).st;
    CallTestRuns(m, fuel, 1, st);
    CallTestRuns(m, fuel, 2, asked);
    assert Q.Eval(m, fuel, either, st).Value?;
    assert Q.Eval(m, fuel, either, st).st.io == if Answer(m, st) == Int(1) then asked.io else Q.Ask(m, Q.Extern("g"), [], asked).st.io;
  }

  function Answer(m: Q.Machine, st: Q.State): Val {
    Q.Ask(m, Q.Extern("g"), [], st).value
  }

  lemma {:induction false} CallTestRuns(m: Q.Machine, fuel: nat, k: int, st: Q.State)
    requires m.functions == map[] && forall events :: m.world(events).Int?
    ensures Q.Eval(m, fuel, Is(Nary(Call("g", []), []), k), st) ==
            Value(Int(Bool(Answer(m, st) == Int(k))), Q.Ask(m, Q.Extern("g"), [], st).st)
  {
    var g := Nary(Call("g", []), []);
    assert Q.EvalAll(m, fuel, [], st) == Value([], st);
    assert Q.Eval(m, fuel, g, st) == Q.Ask(m, Q.Extern("g"), [], st);
    assert Q.Eval(m, fuel, Num(k), Q.Ask(m, Q.Extern("g"), [], st).st).value == Int(k);
  }

  /**
   * Layer B has one variable per name: an inner declaration overwrites the outer variable, so the
   * pair agrees exactly when it writes the value that was there.
   */
  lemma {:induction false} ShadowGap(cm: C.CMachine, m: Q.Machine, fuel: nat, n: int, k: int)
    ensures var a := CIf(CNum(1), [CVarDecl(CDecl(CNamedType("int"), "x", Some(CNum(k))))], []);
            var b := If(Num(1), [Let("x", I32, Some(Num(k)))], []);
            && Walk(a, b) == Accepted
            && C.ExecC(cm, fuel, a, CAt(n)) == Value((), CAt(n))
            && Q.Exec(m, fuel, b, At(n)) == Value((), At(k))
            && (Q.Exec(m, fuel, b, At(n)) == Value((), At(n)) <==> k == n)
  {
    assert At(k).store["x"] == Int(k) && At(n).store["x"] == Int(n);
    ShadowAccepted(k);
    ShadowRunsInC(cm, fuel, n, k);
    ShadowRunsInQuod(m, fuel, n, k);
  }

  lemma {:induction false} ShadowAccepted(k: int)
    ensures var d := CDecl(CNamedType("int"), "x", Some(CNum(k)));
            Walk(CIf(CNum(1), [CVarDecl(d)], []), If(Num(1), [Let("x", I32, Some(Num(k)))], [])) == Accepted
  {
    var d, l := CDecl(CNamedType("int"), "x", Some(CNum(k))), Let("x", I32, Some(Num(k)));
    ShadowingDeclAccepted(k);
    assert AcceptsBody([], [], None);
    assert [CVarDecl(d)][1..] == [] && [l][1..] == [];
    assert AcceptsBody([CVarDecl(d)], [l], None);
    assert AcceptsExpr(CNum(1), Num(1), None);
  }

  lemma {:induction false} ShadowingDeclAccepted(k: int)
    ensures AcceptsStmt(CVarDecl(CDecl(CNamedType("int"), "x", Some(CNum(k)))), Let("x", I32, Some(Num(k))), None)
  {
    assert AcceptsType(CNamedType("int"), I32);
    assert AcceptsExpr(CNum(k), Num(k), None);
  }

  lemma {:induction false} ShadowRunsInQuod(m: Q.Machine, fuel: nat, n: int, k: int)
    ensures Q.Exec(m, fuel, If(Num(1), [Let("x", I32, Some(Num(k)))], []), At(n)) == Value((), At(k))
  {
    assert Q.Eval(m, fuel, Num(1), At(n)) == Value(Int(1), At(n));
    assert Q.Eval(m, fuel, Num(k), At(n)) == Value(Int(k), At(n));
    assert At(n).store["x" := Int(k)] == At(k).store;
    assert Q.ExecAll(m, fuel, [Let("x", I32, Some(Num(k)))], At(n)) == Value((), At(k));
  }

  lemma {:induction false} ShadowRunsInC(cm: C.CMachine, fuel: nat, n: int, k: int)
    ensures var d := CDecl(CNamedType("int"), "x", Some(CNum(k)));
            C.ExecC(cm, fuel, CIf(CNum(1), [CVarDecl(d)], []), CAt(n)) == Value((), CAt(n))
  {
    var d := CDecl(CNamedType("int"), "x", Some(CNum(k)));
    var bare := C.CState(CAt(n).store - {"x"}, []);
    assert C.EvalC(cm, fuel, CNum(1), CAt(n)) == Value(Int(1), CAt(n));
    assert C.EvalC(cm, fuel, CNum(k), bare) == Value(Int(k), bare);
    assert bare.store["x" := Int(k)] == CAt(k).store;
    assert C.ExecDecl(cm, fuel, d, CAt(n)) == Value((), CAt(k));
    assert C.ExecC(cm, fuel, CVarDecl(d), CAt(n)) == Value((), CAt(k));
    assert [CVarDecl(d)][1..] == [];
    assert C.ExecList(cm, fuel, [CVarDecl(d)], CAt(n)) == Value((), CAt(k));
    assert C.DeclaredIn([CVarDecl(d)]) == {"x"};
    assert Restore(CAt(n).store, CAt(k).store, {"x"}) == CAt(n).store;
  }
}
