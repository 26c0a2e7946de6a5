/**
 * What acceptance by the lift walk means: the two functions run alike.
 *
 * For a C function without undefined behaviour in the run at hand, the paired
 * quod function has the same control outcome, return value and call trace for
 * every fuel, and its variables extend the C ones.
 */
module LiftSound {
  import opened Wrappers
  import opened QuodTree
  import opened Arithmetic
  import opened Runs
  import opened CTree
  import opened CRun
  import opened LiftCheck
  import Q = QuodRun

  // ---------- The fragment on which acceptance fixes the meaning ----------

  /** Quod expressions over the one signed integer type, strings and calls: no casts, floats or memory. */
  predicate PlainExpr(b: Expr) {
    match b
    case Leaf(leaf) => leaf.IntLit? || leaf.StringRef? || leaf.ParamRef? || leaf.LocalRef?
    case Unary(_, _) => false
    case Binary(op, l, r) =>
      && (op.ScAnd? || op.ScOr? || (op.Arith? && !IsFloatFamily(op.op) && !IsUnsignedFamily(op.op)))
      && PlainExpr(l) && PlainExpr(r)
    case Nary(op, args) => op.Call? && forall i :: 0 <= i < |args| ==> PlainExpr(args[i])
    case IfExpr(c, x, y) => PlainExpr(c) && PlainExpr(x) && PlainExpr(y)
  }

  predicate PlainStmt(b: Stmt) {
    match b
    case ReturnExpr(e) => PlainExpr(e)
    case If(c, x, y) => PlainExpr(c) && PlainBody(x) && PlainBody(y)
    case Let(_, _, init) => init.Some? ==> PlainExpr(init.value)
    case Assign(_, e) => PlainExpr(e)
    case While(c, body) => PlainExpr(c) && PlainBody(body)
    case DoWhile(body, c) => PlainExpr(c) && PlainBody(body)
    case ExprStmt(e) => PlainExpr(e)
    case CStyleFor(init, c, inc, body) =>
      && (init.Some? ==> PlainStmt(init.value))
      && (c.Some? ==> PlainExpr(c.value))
      && (inc.Some? ==> PlainStmt(inc.value))
      && PlainBody(body)
    case _ => true
  }

  predicate PlainBody(bs: seq<Stmt>) {
    forall i :: 0 <= i < |bs| ==> PlainStmt(bs[i])
  }

  predicate CallFree(a: CExpr) {
    match a
    case CBinOp(_, l, r) => CallFree(l) && CallFree(r)
    case CUnary(_, x) => CallFree(x)
    case CTernary(c, x, y) => CallFree(c) && CallFree(x) && CallFree(y)
    case CCall(_, _) => false
    case _ => true
  }

  predicate AllCallFree(es: seq<CExpr>) {
    forall i :: 0 <= i < |es| ==> CallFree(es[i])
  }

  /** No `break` that would leave the enclosing switch. */
  predicate NoOwnBreak(ss: seq<CStmt>) {
    forall i :: 0 <= i < |ss| ==> NotBreaking(ss[i])
  }

  predicate NotBreaking(s: CStmt) {
    match s
    case CBreak => false
    case CIf(_, x, y) => NoOwnBreak(x) && NoOwnBreak(y)
    case CFor(init, _, inc, _) => (init.Some? ==> NotBreaking(init.value)) && (inc.Some? ==> NotBreaking(inc.value))
    case _ => true
  }

  /**
   * C functions whose declarations hide no name in scope, whose assignments
   * target names in scope, whose for-steps are expressions, and whose switches
   * have a case, test call-free values and keep `break` out of their bodies.
   */
  predicate WellFormed(s: CStmt, scope: set<string>) {
    match s
    case CVarDecl(d) => d.name !in scope
    case CMultiVarDecl(ds) => forall i :: 0 <= i < |ds| ==> ds[i].name !in scope
    case CAssign(x, _) => x in scope
    case CCompoundAssign(x, _, _) => x in scope
    case CIncrement(x, _, _) => x in scope
    case CFor(init, _, inc, body) =>
      var inner := scope + (if init.Some? then Declared(init.value) else {});
      && (init.Some? ==> IsForInit(init.value) && WellFormed(init.value, scope))
      && (inc.Some? ==> IsStep(inc.value) && WellFormed(inc.value, inner))
      && WellFormedList(body, inner)
    case CIf(_, x, y) => WellFormedList(x, scope) && WellFormedList(y, scope)
    case CWhile(_, body) => WellFormedList(body, scope)
    case CDoWhile(body, _) => WellFormedList(body, scope)
    case CSwitch(scrutinee, cases, default) =>
      && cases != []
      && CallFree(scrutinee)
      && NoOwnBreak(default) && WellFormedList(default, scope)
      && forall i :: 0 <= i < |cases| ==>
           AllCallFree(cases[i].values) && NoOwnBreak(cases[i].body) && WellFormedList(cases[i].body, scope)
    case _ => true
  }

  predicate WellFormedList(ss: seq<CStmt>, scope: set<string>) {
    ss == [] || (WellFormed(ss[0], scope) && WellFormedList(ss[1..], scope + Declared(ss[0])))
  }

  predicate IsStep(s: CStmt) {
    s.CAssign? || s.CIncrement?
  }

  predicate IsForInit(s: CStmt) {
    s.CVarDecl? || IsStep(s)
  }

  /**
   * The places the walk does not look at are what the lifter puts there: a
   * `return` widened to an if returns 1 and 0, and a switch has one if per case.
   */
  predicate Covered(a: CStmt, b: Stmt)
    decreases b
  {
    match a
    case CReturn(Some(_)) => b.If? ==> Returns(b.thenBody, 1) && Returns(b.elseBody, 0)
    case CFor(_, _, _, body) => b.CStyleFor? && CoveredList(body, b.body)
    case CIf(_, x, y) => b.If? && CoveredList(x, b.thenBody) && CoveredList(y, b.elseBody)
    case CWhile(_, body) => b.While? && CoveredList(body, b.body)
    case CDoWhile(body, _) => b.DoWhile? && CoveredList(body, b.body)
    case CSwitch(_, cases, default) => b.If? && CoveredChain(cases, default, b)
    case _ => true
  }

  predicate Returns(bs: seq<Stmt>, n: int) {
    |bs| == 1 && bs[0].ReturnExpr? && IsIntLit(bs[0].value, n)
  }

  predicate CoveredList(xs: seq<CStmt>, bs: seq<Stmt>)
    decreases bs, |xs|
  {
    if xs == [] then true
    else Width(xs[0]) <= |bs|
         && (xs[0].CMultiVarDecl? || Covered(xs[0], bs[0]))
         && CoveredList(xs[1..], bs[Width(xs[0])..])
  }

  predicate CoveredChain(cases: seq<CSwitchCase>, default: seq<CStmt>, cur: Stmt)
    requires cur.If?
    decreases cur, 0
  {
    if cases == [] then CoveredList(default, cur.elseBody)
    else
      && CoveredList(cases[0].body, cur.thenBody)
      && (if |cases| == 1 then CoveredList(default, cur.elseBody)
          else |cur.elseBody| == 1 && cur.elseBody[0].If? && CoveredChain(cases[1..], default, cur.elseBody[0]))
  }

  // ---------- Agreement of states and runs ----------

  /** Every C variable with a value has the same value in quod, and the calls made are the same. */
  ghost predicate Extends(sa: CState, sb: Q.State) {
    && sa.io == sb.io
    && forall x :: x in sa.store ==> x in sb.store && sb.store[x] == sa.store[x]
  }

  ghost predicate Same<T>(ra: Out<CState, T>, rb: Out<Q.State, T>) {
    && (ra.Value? ==> rb.Value? && ra.value == rb.value)
    && (ra.Halt? ==> rb.Halt? && ra.sig == rb.sig)
    && Extends(ra.st, rb.st)
  }

  /** Undefined behaviour of the C run promises nothing. */
  ghost predicate Agree<T>(ra: Out<CState, T>, rb: Out<Q.State, T>) {
    (ra.Halt? && ra.sig.Undefined?) || Same(ra, rb)
  }

  /** An accepted pair in the fragment; a void function has no stub but a bare return. */
  predicate Paired(cfn: CFn, fn: Function, cs: Constants) {
    && AcceptsFn(cfn, fn, cs) && InFragment(cfn, fn)
    && (IsVoid(cfn) && Stubs(cfn, fn) != [] ==> Stubs(cfn, fn)[0].Return?)
  }

  /**
   * Both programs define the same functions, each an accepted pair; all other calls go to
   * the same world, and the walk was given the string table.
   */
  ghost predicate Linked(cm: CMachine, m: Q.Machine, cs: Constants) {
    && cm.world == m.world
    && cm.functions.Keys == m.functions.Keys
    && (forall f :: f in cm.functions ==> Paired(cm.functions[f], m.functions[f], cs))
    && (cs.None? || cs.value == m.strings)
  }

  /** A call of a function of the two programs agrees, whatever the frames around it. */
  ghost predicate CalleeAgrees(cm: CMachine, m: Q.Machine, fuel: nat, f: string)
    requires f in cm.functions && f in m.functions
  {
    forall vs, sa, sb | |vs| == |cm.functions[f].params| == |m.functions[f].params| && Extends(sa, sb) ::
      Agree(Leave(cm.functions[f], sa, RunC(cm, fuel, cm.functions[f], vs, sa.io)),
            Q.Leave(sb, Q.Body(m, fuel, m.functions[f], vs, sb)))
  }

  /** The same world and the same functions, whose calls with less fuel agree. */
  ghost predicate Within(cm: CMachine, m: Q.Machine, cs: Constants, fuel: nat) {
    && cm.world == m.world
    && cm.functions.Keys == m.functions.Keys
    && (forall f :: f in cm.functions ==> |cm.functions[f].params| == |m.functions[f].params|)
    && (forall k: nat, f | k < fuel && f in cm.functions :: CalleeAgrees(cm, m, k, f))
    && (cs.None? || cs.value == m.strings)
  }

  // ---------- Expressions ----------

  /** Each row of the operator table pairs operators with the same defined results. */
  lemma {:induction false} OperatorTable(op: COp, x: int, y: int)
    requires SignedOp(op).Some? && CApply(op, x, y).Some?
    ensures QApply(SignedOp(op).value, x, y) == CApply(op, x, y)
  {
    match op {
      case CAdd => WrapInRange(x + y);
      case CSub => WrapInRange(x - y);
      case CMul => WrapInRange(x * y);
      case CShl => WrapInRange(x * Pow2(y));
      case _ =>
    }
  }

  /** The identities by which the lifter removes unary operators. */
  lemma {:induction false} UnaryTable(op: CUnaryOp, x: int)
    requires CApplyUnary(op, x).Some?
    ensures op.CNeg? ==> QApply(Sub, 0, x) == CApplyUnary(op, x)
    ensures op.CLogNot? ==> QApply(Eq, x, 0) == CApplyUnary(op, x)
    ensures op.CBitNot? ==> QApply(Xor, x, -1) == CApplyUnary(op, x)
  {
    if op.CNeg? {
      WrapInRange(-x);
    }
    XorMinusOne(x);
  }

  lemma {:induction false} ExprAgrees(cm: CMachine, m: Q.Machine, fuel: nat, a: CExpr, b: Expr, cs: Constants, sa: CState, sb: Q.State)
    requires Within(cm, m, cs, fuel) && AcceptsExpr(a, b, cs) && PlainExpr(b)
    requires Extends(sa, sb)
    ensures Agree(EvalC(cm, fuel, a, sa), Q.Eval(m, fuel, b, sb))
    decreases fuel, 0, b, 1
  {
    match a {
      case CBinOp(op, l, r) =>
        if op.CLogAnd? || op.CLogOr? {
          ShortCircuitAgrees(cm, m, fuel, a, b, cs, sa, sb);
        } else {
          BinaryAgrees(cm, m, fuel, a, b, cs, sa, sb);
        }
      case CCall(_, _) =>
        CallExprAgrees(cm, m, fuel, a, b, cs, sa, sb);
      case CTernary(c, x, y) =>
        TestAgrees(cm, m, fuel, c, b.cond, cs, sa, sb);
        var ra := TestC(cm, fuel, c, sa);
        if ra.Value? {
          var rb := Q.Eval(m, fuel, b.cond, sb);
          if ra.value {
            ExprAgrees(cm, m, fuel, x, b.thenValue, cs, ra.st, rb.st);
          } else {
            ExprAgrees(cm, m, fuel, y, b.elseValue, cs, ra.st, rb.st);
          }
        }
      case CUnary(op, x) =>
        UnaryAgrees(cm, m, fuel, a, b, cs, sa, sb);
      case _ =>
    }
  }

  lemma {:induction false} CallExprAgrees(cm: CMachine, m: Q.Machine, fuel: nat, a: CExpr, b: Expr, cs: Constants, sa: CState, sb: Q.State)
    requires Within(cm, m, cs, fuel) && AcceptsExpr(a, b, cs) && PlainExpr(b) && a.CCall?
    requires Extends(sa, sb)
    ensures Agree(EvalC(cm, fuel, a, sa), Q.Eval(m, fuel, b, sb))
    decreases fuel, 0, b, 0
  {
    ExprsAgree(cm, m, fuel, a.args, b.args, cs, sa, sb);
    var ra := EvalCAll(cm, fuel, a.args, sa);
    if a.callee in cm.functions && ra.Value? && fuel > 0 && |ra.value| == |cm.functions[a.callee].params| {
      assert CalleeAgrees(cm, m, fuel - 1, a.callee);
    }
  }

  lemma {:induction false} ShortCircuitAgrees(cm: CMachine, m: Q.Machine, fuel: nat, a: CExpr, b: Expr, cs: Constants, sa: CState, sb: Q.State)
    requires Within(cm, m, cs, fuel) && AcceptsExpr(a, b, cs) && PlainExpr(b)
    requires a.CBinOp? && (a.op.CLogAnd? || a.op.CLogOr?)
    requires Extends(sa, sb)
    ensures Agree(EvalC(cm, fuel, a, sa), Q.Eval(m, fuel, b, sb))
    decreases fuel, 0, b, 0
  {
    if a.op.CLogAnd? {
      AndRuns(cm, fuel, a, sa);
    } else {
      OrRuns(cm, fuel, a, sa);
    }
    TestAgrees(cm, m, fuel, a.lhs, b.lhs, cs, sa, sb);
    var ra := TestC(cm, fuel, a.lhs, sa);
    if ra.Value? {
      TestAgrees(cm, m, fuel, a.rhs, b.rhs, cs, ra.st, Q.Eval(m, fuel, b.lhs, sb).st);
    }
  }

  /** One `&&` of C, by the runs of its sides. */
  lemma {:induction false} AndRuns(cm: CMachine, fuel: nat, a: CExpr, st: CState)
    requires a.CBinOp? && a.op.CLogAnd?
    ensures var l := TestC(cm, fuel, a.lhs, st);
            EvalC(cm, fuel, a, st) ==
            (if l.Halt? then Halt(l.sig, l.st) else if !l.value then Value(Int(0), l.st)
             else Tested(TestC(cm, fuel, a.rhs, l.st)))
  {}

  lemma {:induction false} OrRuns(cm: CMachine, fuel: nat, a: CExpr, st: CState)
    requires a.CBinOp? && a.op.CLogOr?
    ensures var l := TestC(cm, fuel, a.lhs, st);
            EvalC(cm, fuel, a, st) ==
            (if l.Halt? then Halt(l.sig, l.st) else if l.value then Value(Int(1), l.st)
             else Tested(TestC(cm, fuel, a.rhs, l.st)))
  {}

  /** A truth value as the result of an operator. */
  function Tested(out: Out<CState, bool>): Out<CState, Val> {
    match out
    case Halt(sig, st) => Halt(sig, st)
    case Value(v, st) => Value(Int(Bool(v)), st)
  }

  lemma {:induction false} BinaryAgrees(cm: CMachine, m: Q.Machine, fuel: nat, a: CExpr, b: Expr, cs: Constants, sa: CState, sb: Q.State)
    requires Within(cm, m, cs, fuel) && AcceptsExpr(a, b, cs) && PlainExpr(b)
    requires a.CBinOp? && !a.op.CLogAnd? && !a.op.CLogOr?
    requires Extends(sa, sb)
    ensures Agree(EvalC(cm, fuel, a, sa), Q.Eval(m, fuel, b, sb))
    decreases fuel, 0, b, 0
  {
    ExprAgrees(cm, m, fuel, a.lhs, b.lhs, cs, sa, sb);
    var ra := EvalC(cm, fuel, a.lhs, sa);
    if ra.Value? {
      ExprAgrees(cm, m, fuel, a.rhs, b.rhs, cs, ra.st, Q.Eval(m, fuel, b.lhs, sb).st);
      var ua := EvalC(cm, fuel, a.rhs, ra.st);
      if ua.Value? && ra.value.Int? && ua.value.Int? && CApply(a.op, ra.value.n, ua.value.n).Some? {
        OperatorTable(a.op, ra.value.n, ua.value.n);
      }
    }
  }

  lemma {:induction false} UnaryAgrees(cm: CMachine, m: Q.Machine, fuel: nat, a: CExpr, b: Expr, cs: Constants, sa: CState, sb: Q.State)
    requires Within(cm, m, cs, fuel) && AcceptsExpr(a, b, cs) && PlainExpr(b) && a.CUnary?
    requires Extends(sa, sb)
    ensures Agree(EvalC(cm, fuel, a, sa), Q.Eval(m, fuel, b, sb))
    decreases fuel, 0, b, 0
  {
    ExprAgrees(cm, m, fuel, a.inner, if a.uop.CNeg? then b.rhs else b.lhs, cs, sa, sb);
    var ra := EvalC(cm, fuel, a.inner, sa);
    if a.uop.CNeg? {
      assert Q.Eval(m, fuel, b.lhs, sb) == Value(Int(0), sb);
    } else if ra.Value? {
      LiteralRuns(m, fuel, b.rhs, Q.Eval(m, fuel, b.lhs, sb).st);
    }
    if ra.Value? && ra.value.Int? && CApplyUnary(a.uop, ra.value.n).Some? {
      UnaryTable(a.uop, ra.value.n);
    }
  }

  lemma {:induction false} LiteralRuns(m: Q.Machine, fuel: nat, e: Expr, st: Q.State)
    requires e.Leaf? && e.leaf.IntLit?
    ensures Q.Eval(m, fuel, e, st) == Value(Int(e.leaf.value), st)
  {}

  ghost predicate AgreeAsTest(ra: Out<CState, bool>, rb: Out<Q.State, Val>) {
    || (ra.Halt? && ra.sig.Undefined?)
    || (&& (ra.Value? ==> rb.Value? && ra.value == Truthy(rb.value))
        && (ra.Halt? ==> rb.Halt? && ra.sig == rb.sig)
        && Extends(ra.st, rb.st))
  }

  /** A controlling expression agrees as a truth value, widened to `ne(c, 0)` or not. */
  lemma {:induction false} TestAgrees(cm: CMachine, m: Q.Machine, fuel: nat, c: CExpr, b: Expr, cs: Constants, sa: CState, sb: Q.State)
    requires Within(cm, m, cs, fuel) && (AcceptsExpr(c, b, cs) || AcceptsWidened(c, b, cs)) && PlainExpr(b)
    requires Extends(sa, sb)
    ensures AgreeAsTest(TestC(cm, fuel, c, sa), Q.Eval(m, fuel, b, sb))
    decreases fuel, 0, b, 2
  {
    if AcceptsExpr(c, b, cs) {
      ExprAgrees(cm, m, fuel, c, b, cs, sa, sb);
    } else {
      ExprAgrees(cm, m, fuel, c, b.lhs, cs, sa, sb);
      NonZeroRuns(m, fuel, b, sb);
    }
  }

  /** `ne(e, 0)` is the truth value of `e`. */
  lemma {:induction false} NonZeroRuns(m: Q.Machine, fuel: nat, b: Expr, st: Q.State)
    requires b.Binary? && b.bop == Arith(Ne) && IsIntLit(b.rhs, 0)
    ensures var inner := Q.Eval(m, fuel, b.lhs, st);
            var out := Q.Eval(m, fuel, b, st);
            && (inner.Halt? ==> out == inner)
            && (inner.Value? && inner.value.Int? ==> out == Value(Int(Bool(inner.value.n != 0)), inner.st))
  {
    LiteralRuns(m, fuel, b.rhs, Q.Eval(m, fuel, b.lhs, st).st);
  }

  lemma {:induction false} ExprsAgree(cm: CMachine, m: Q.Machine, fuel: nat, xs: seq<CExpr>, ys: seq<Expr>, cs: Constants, sa: CState, sb: Q.State)
    requires Within(cm, m, cs, fuel) && AcceptsExprs(xs, ys, cs)
    requires forall i :: 0 <= i < |ys| ==> PlainExpr(ys[i])
    requires Extends(sa, sb)
    ensures Agree(EvalCAll(cm, fuel, xs, sa), Q.EvalAll(m, fuel, ys, sb))
    decreases fuel, 0, ys, 0
  {
    if xs != [] {
      ExprAgrees(cm, m, fuel, xs[0], ys[0], cs, sa, sb);
      var ra := EvalC(cm, fuel, xs[0], sa);
      if ra.Value? {
        ExprsAgree(cm, m, fuel, xs[1..], ys[1..], cs, ra.st, Q.Eval(m, fuel, ys[0], sb).st);
      }
    }
  }

  // ---------- Switches ----------

  /** A call-free expression asks the world nothing. */
  lemma {:induction false} CallFreeIsQuiet(cm: CMachine, fuel: nat, e: CExpr, st: CState)
    requires CallFree(e)
    ensures var out := EvalC(cm, fuel, e, st); out.st == st && (out.Halt? ==> out.sig.Undefined?)
    decreases e
  {
    match e {
      case CBinOp(op, l, r) =>
        CallFreeIsQuiet(cm, fuel, l, st);
        CallFreeIsQuiet(cm, fuel, r, st);
        if op.CLogAnd? {
          AndRuns(cm, fuel, e, st);
        } else if op.CLogOr? {
          OrRuns(cm, fuel, e, st);
        }
      case CUnary(_, x) =>
        CallFreeIsQuiet(cm, fuel, x, st);
      case CTernary(c, x, y) =>
        CallFreeIsQuiet(cm, fuel, c, st);
        CallFreeIsQuiet(cm, fuel, x, st);
        CallFreeIsQuiet(cm, fuel, y, st);
      case _ =>
    }
  }

  lemma {:induction false} HitsAppend(cm: CMachine, fuel: nat, left: seq<CExpr>, right: seq<CExpr>, n: int, st: CState)
    ensures Hits(cm, fuel, left + right, n, st) ==
            (if Hits(cm, fuel, left, n, st) == Some(false) then Hits(cm, fuel, right, n, st) else Hits(cm, fuel, left, n, st))
  {
    if left == [] {
      assert left + right == right;
    } else {
      assert (left + right)[1..] == left[1..] + right;
      HitsAppend(cm, fuel, left[1..], right, n, st);
    }
  }

  /** One label test. */
  lemma {:induction false} CaseEqAgrees(cm: CMachine, m: Q.Machine, fuel: nat, scrutinee: CExpr, value: CExpr, eq: Expr,
                     cs: Constants, n: int, sa: CState, sb: Q.State)
    requires Within(cm, m, cs, fuel) && PlainExpr(eq) && Extends(sa, sb)
    requires AcceptsCaseEq(scrutinee, value, eq, cs) && CallFree(value)
    requires EvalC(cm, fuel, scrutinee, sa) == Value(Int(n), sa)
    requires Hits(cm, fuel, [value], n, sa).Some?
    ensures var rb := Q.Eval(m, fuel, eq, sb);
            rb.Value? && rb.value == Int(Bool(Hits(cm, fuel, [value], n, sa).value)) && Extends(sa, rb.st)
    decreases fuel, 0, eq, 3
  {
    ExprAgrees(cm, m, fuel, scrutinee, eq.lhs, cs, sa, sb);
    ExprAgrees(cm, m, fuel, value, eq.rhs, cs, sa, Q.Eval(m, fuel, eq.lhs, sb).st);
    CallFreeIsQuiet(cm, fuel, value, sa);
    HitsOne(cm, fuel, value, n, sa);
    EqualRuns(m, fuel, eq, sb);
  }

  lemma {:induction false} HitsOne(cm: CMachine, fuel: nat, value: CExpr, n: int, st: CState)
    requires Hits(cm, fuel, [value], n, st).Some?
    ensures var out := EvalC(cm, fuel, value, st);
            out.Value? && out.value.Int? && Hits(cm, fuel, [value], n, st).value == (out.value.n == n)
  {
    assert Hits(cm, fuel, [value][1..], n, st) == Some(false);
  }

  lemma {:induction false} EqualRuns(m: Q.Machine, fuel: nat, eq: Expr, st: Q.State)
    requires eq.Binary? && eq.bop == Arith(Eq)
    ensures var l := Q.Eval(m, fuel, eq.lhs, st);
            var r := Q.Eval(m, fuel, eq.rhs, l.st);
            l.Value? && r.Value? && l.value.Int? && r.value.Int? ==>
              Q.Eval(m, fuel, eq, st) == Value(Int(Bool(l.value.n == r.value.n)), r.st)
  {}

  /** One `||` runs as its two sides do. */
  lemma {:induction false} OrDecides(m: Q.Machine, fuel: nat, cond: Expr, sb: Q.State)
    requires cond.Binary? && cond.bop.ScOr?
    requires var l := Q.Eval(m, fuel, cond.lhs, sb); l.Value? && l.value in {Int(0), Int(1)}
    requires var l := Q.Eval(m, fuel, cond.lhs, sb);
             l.value == Int(1) || (var r := Q.Eval(m, fuel, cond.rhs, l.st); r.Value? && r.value in {Int(0), Int(1)})
    ensures var l := Q.Eval(m, fuel, cond.lhs, sb);
            Q.Eval(m, fuel, cond, sb) == if l.value == Int(1) then l else Q.Eval(m, fuel, cond.rhs, l.st)
  {}

  /** The labels of a `||` are those of its left side, then those of its right side. */
  lemma {:induction false} SplitsAtOr(scrutinee: CExpr, values: seq<CExpr>, cond: Expr, cs: Constants)
    requires cond.Binary? && cond.bop.ScOr? && AcceptsCaseEqs(scrutinee, values, Disjuncts(cond), cs) && AllCallFree(values)
    ensures var k := |Disjuncts(cond.lhs)|;
            && k <= |values| && values == values[..k] + values[k..]
            && AcceptsCaseEqs(scrutinee, values[..k], Disjuncts(cond.lhs), cs)
            && AcceptsCaseEqs(scrutinee, values[k..], Disjuncts(cond.rhs), cs)
            && AllCallFree(values[..k]) && AllCallFree(values[k..])
  {
    var k := |Disjuncts(cond.lhs)|;
    assert Disjuncts(cond)[..k] == Disjuncts(cond.lhs) && Disjuncts(cond)[k..] == Disjuncts(cond.rhs);
  }

  /** Any tree of `||` over the label tests computes whether a label is hit. */
  lemma {:induction false} CaseTreeAgrees(cm: CMachine, m: Q.Machine, fuel: nat, scrutinee: CExpr, values: seq<CExpr>, cond: Expr,
                                          cs: Constants, n: int, sa: CState, sb: Q.State)
    requires Within(cm, m, cs, fuel) && PlainExpr(cond) && Extends(sa, sb)
    requires AcceptsCaseEqs(scrutinee, values, Disjuncts(cond), cs)
    requires AllCallFree(values)
    requires EvalC(cm, fuel, scrutinee, sa) == Value(Int(n), sa)
    requires Hits(cm, fuel, values, n, sa).Some?
    ensures var rb := Q.Eval(m, fuel, cond, sb);
            rb.Value? && rb.value == Int(Bool(Hits(cm, fuel, values, n, sa).value)) && Extends(sa, rb.st)
    decreases fuel, 0, cond, 4
  {
    if cond.Binary? && cond.bop.ScOr? {
      var k := |Disjuncts(cond.lhs)|;
      var left, right := values[..k], values[k..];
      SplitsAtOr(scrutinee, values, cond, cs);
      HitsAppend(cm, fuel, left, right, n, sa);
      CaseTreeAgrees(cm, m, fuel, scrutinee, left, cond.lhs, cs, n, sa, sb);
      if !Hits(cm, fuel, left, n, sa).value {
        CaseTreeAgrees(cm, m, fuel, scrutinee, right, cond.rhs, cs, n, sa, Q.Eval(m, fuel, cond.lhs, sb).st);
      }
      OrDecides(m, fuel, cond, sb);
    } else {
      assert Disjuncts(cond)[0] == cond;
      assert values == [values[0]];
      CaseEqAgrees(cm, m, fuel, scrutinee, values[0], cond, cs, n, sa, sb);
    }
  }

  /** The test of one if of the chain decides its case. */
  lemma {:induction false} CaseCondAgrees(cm: CMachine, m: Q.Machine, fuel: nat, scrutinee: CExpr, values: seq<CExpr>, cond: Expr,
                       cs: Constants, n: int, sa: CState, sb: Q.State)
    requires Within(cm, m, cs, fuel) && PlainExpr(cond) && Extends(sa, sb)
    requires AcceptsCaseCond(scrutinee, values, cond, cs)
    requires AllCallFree(values)
    requires EvalC(cm, fuel, scrutinee, sa) == Value(Int(n), sa)
    requires Hits(cm, fuel, values, n, sa).Some?
    ensures var rb := Q.Eval(m, fuel, cond, sb);
            rb.Value? && rb.value == Int(Bool(Hits(cm, fuel, values, n, sa).value)) && Extends(sa, rb.st)
    decreases fuel, 0, cond, 5
  {
    CaseTreeAgrees(cm, m, fuel, scrutinee, values, cond, cs, n, sa, sb);
  }

  /** Without an own `break`, control never leaves a body by breaking. */
  lemma {:induction false} NeverBreaks(cm: CMachine, fuel: nat, ss: seq<CStmt>, st: CState)
    requires NoOwnBreak(ss)
    ensures var out := ExecList(cm, fuel, ss, st); out.Halt? ==> !out.sig.Broke?
    decreases fuel, ss, 0
  {
    if ss != [] {
      StmtNeverBreaks(cm, fuel, ss[0], st);
      var out := ExecC(cm, fuel, ss[0], st);
      if out.Value? {
        NeverBreaks(cm, fuel, ss[1..], out.st);
      }
    }
  }

  lemma {:induction false} StmtNeverBreaks(cm: CMachine, fuel: nat, s: CStmt, st: CState)
    requires NotBreaking(s)
    ensures var out := ExecC(cm, fuel, s, st); out.Halt? ==> !out.sig.Broke?
    decreases fuel, s, 1
  {
    match s {
      case CIf(c, x, y) =>
        var out := TestC(cm, fuel, c, st);
        if out.Value? {
          NeverBreaks(cm, fuel, if out.value then x else y, out.st);
        }
      case CMultiVarDecl(ds) =>
        DeclsNeverJump(cm, fuel, ds, st);
      case CFor(None, _, _, _) =>
        ForNeverBreaks(cm, fuel, s, st);
      case CFor(Some(init), _, _, _) =>
        StmtNeverBreaks(cm, fuel, init, st);
        var out := ExecC(cm, fuel, init, st);
        if out.Value? {
          ForNeverBreaks(cm, fuel, s, out.st);
        }
      case CWhile(c, body) =>
        if fuel > 0 {
          var out := TestC(cm, fuel, c, st);
          if out.Value? && out.value {
            var turn := AfterBody(ExecBlock(cm, fuel, body, out.st));
            if turn.Next? {
              StmtNeverBreaks(cm, fuel - 1, s, turn.st);
            }
          }
        }
      case CDoWhile(body, c) =>
        if fuel > 0 {
          var turn := AfterBody(ExecBlock(cm, fuel, body, st));
          if turn.Next? {
            var out := TestC(cm, fuel, c, turn.st);
            if out.Value? && out.value {
              StmtNeverBreaks(cm, fuel - 1, s, out.st);
            }
          }
        }
      case _ =>
    }
  }

  lemma {:induction false} ForNeverBreaks(cm: CMachine, fuel: nat, s: CStmt, st: CState)
    requires s.CFor? && NotBreaking(s)
    ensures var out := ForTurns(cm, fuel, s, st); out.Halt? ==> !out.sig.Broke?
    decreases fuel, s, 0
  {
    if fuel > 0 {
      var test := ForTest(cm, fuel, s, st);
      if test.Value? && test.value {
        var turn := AfterBody(ExecBlock(cm, fuel, s.body, test.st));
        if turn.Next? {
          match s.inc {
            case None =>
              ForNeverBreaks(cm, fuel - 1, s, turn.st);
            case Some(inc) =>
              StmtNeverBreaks(cm, fuel, inc, turn.st);
              var out := ExecC(cm, fuel, inc, turn.st);
              if out.Value? {
                ForNeverBreaks(cm, fuel - 1, s, out.st);
              }
          }
        }
      }
    }
  }

  lemma {:induction false} DeclsNeverJump(cm: CMachine, fuel: nat, ds: seq<CDecl>, st: CState)
    ensures var out := ExecDecls(cm, fuel, ds, st); out.Halt? ==> out.sig.Undefined? || out.sig.OutOfFuel?
  {
    if ds != [] {
      var out := ExecDecl(cm, fuel, ds[0], st);
      if out.Value? {
        DeclsNeverJump(cm, fuel, ds[1..], out.st);
      }
    }
  }

  // ---------- Statements ----------

  /** Names a block declares are new to it. */
  lemma {:induction false} DeclaredAreFresh(ss: seq<CStmt>, scope: set<string>)
    requires WellFormedList(ss, scope)
    ensures DeclaredIn(ss) !! scope
  {
    if ss != [] {
      DeclaredAreFresh(ss[1..], scope + Declared(ss[0]));
    }
  }

  /** A run inside the scope stays inside it and agrees with the quod run. */
  ghost predicate InStep(ra: Out<CState, ()>, rb: Out<Q.State, ()>, scope: set<string>) {
    (ra.Halt? && ra.sig.Undefined?) || (Same(ra, rb) && ra.st.store.Keys <= scope)
  }

  /** An accepted pair of statements in the fragment, about to run from states that agree. */
  ghost predicate Ready(cm: CMachine, m: Q.Machine, fuel: nat, a: CStmt, b: Stmt, cs: Constants, scope: set<string>, sa: CState, sb: Q.State) {
    && Within(cm, m, cs, fuel)
    && AcceptsStmt(a, b, cs) && PlainStmt(b) && Covered(a, b) && WellFormed(a, scope)
    && Extends(sa, sb) && sa.store.Keys <= scope
  }

  ghost predicate ReadyBody(cm: CMachine, m: Q.Machine, fuel: nat, xs: seq<CStmt>, bs: seq<Stmt>, cs: Constants,
                            scope: set<string>, sa: CState, sb: Q.State) {
    && Within(cm, m, cs, fuel)
    && AcceptsBody(xs, bs, cs) && PlainBody(bs) && CoveredList(xs, bs) && WellFormedList(xs, scope)
    && Extends(sa, sb) && sa.store.Keys <= scope
  }

  /** A for after its first clause: `inner` includes the variable declared there. */
  ghost predicate PairedFor(cm: CMachine, m: Q.Machine, fuel: nat, a: CStmt, b: Stmt, cs: Constants, inner: set<string>) {
    && a.CFor? && b.CStyleFor?
    && Within(cm, m, cs, fuel)
    && AcceptsInit(a.forCond, b.forCond, cs) && (b.forCond.Some? ==> PlainExpr(b.forCond.value))
    && AcceptsBody(a.body, b.body, cs) && PlainBody(b.body) && CoveredList(a.body, b.body) && WellFormedList(a.body, inner)
    && a.inc.Some? == b.inc.Some?
    && (a.inc.Some? ==>
          && AcceptsStmt(a.inc.value, b.inc.value, cs) && PlainStmt(b.inc.value) && Covered(a.inc.value, b.inc.value)
          && IsStep(a.inc.value) && WellFormed(a.inc.value, inner))
  }

  ghost predicate ReadyFor(cm: CMachine, m: Q.Machine, fuel: nat, a: CStmt, b: Stmt, cs: Constants, inner: set<string>, sa: CState, sb: Q.State) {
    PairedFor(cm, m, fuel, a, b, cs, inner) && Extends(sa, sb) && sa.store.Keys <= inner
  }

  /** Leaving a block that hid nothing only forgets its own variables. */
  lemma {:induction false} LeavingForgets(before: CState, ra: Out<CState, ()>, rb: Out<Q.State, ()>, names: set<string>, scope: set<string>)
    requires InStep(ra, rb, scope + names)
    requires before.store.Keys <= scope && names !! scope
    ensures InStep(LeaveScope(before, ra, names), rb, scope)
  {
    var left := LeaveScope(before, ra, names).st.store;
    assert forall x :: x in left ==> x in ra.st.store && x !in names && left[x] == ra.st.store[x];
  }

  lemma {:induction false} BodyAgrees(cm: CMachine, m: Q.Machine, fuel: nat, xs: seq<CStmt>, bs: seq<Stmt>, cs: Constants,
                                      scope: set<string>, sa: CState, sb: Q.State)
    requires ReadyBody(cm, m, fuel, xs, bs, cs, scope, sa, sb)
    ensures InStep(ExecList(cm, fuel, xs, sa), Q.ExecAll(m, fuel, bs, sb), scope + DeclaredIn(xs))
    decreases fuel, 1, xs, 0
  {
    if xs != [] {
      var w := Width(xs[0]);
      var inner := scope + Declared(xs[0]);
      HeadAgrees(cm, m, fuel, xs, bs, cs, scope, sa, sb);
      assert bs == bs[..w] + bs[w..];
      Q.ExecAllSplit(m, fuel, bs[..w], bs[w..], sb);
      var ra, rb := ExecC(cm, fuel, xs[0], sa), Q.ExecAll(m, fuel, bs[..w], sb);
      if ra.Value? {
        BodyAgrees(cm, m, fuel, xs[1..], bs[w..], cs, inner, ra.st, rb.st);
        assert inner + DeclaredIn(xs[1..]) == scope + DeclaredIn(xs);
      }
    }
  }

  /** The first C statement against the quod statements it stands for. */
  lemma {:induction false} HeadAgrees(cm: CMachine, m: Q.Machine, fuel: nat, xs: seq<CStmt>, bs: seq<Stmt>, cs: Constants,
                                      scope: set<string>, sa: CState, sb: Q.State)
    requires ReadyBody(cm, m, fuel, xs, bs, cs, scope, sa, sb) && xs != []
    ensures InStep(ExecC(cm, fuel, xs[0], sa), Q.ExecAll(m, fuel, bs[..Width(xs[0])], sb), scope + Declared(xs[0]))
    decreases fuel, 1, xs[0], 4
  {
    if xs[0].CMultiVarDecl? {
      DeclsAgree(cm, m, fuel, xs[0].decls, bs[..Width(xs[0])], cs, scope, sa, sb);
    } else {
      StmtAgrees(cm, m, fuel, xs[0], bs[0], cs, scope, sa, sb);
      SingleStatement(m, fuel, bs, sb);
    }
  }

  lemma {:induction false} SingleStatement(m: Q.Machine, fuel: nat, bs: seq<Stmt>, sb: Q.State)
    requires bs != []
    ensures Q.ExecAll(m, fuel, bs[..1], sb) == Q.Exec(m, fuel, bs[0], sb)
  {
    assert bs[..1][1..] == [];
    var out := Q.Exec(m, fuel, bs[0], sb);
    if out.Value? {
      assert out.value == ();
    }
  }

  /** `int a, b, c;` against one `Let` per variable. */
  lemma {:induction false} DeclsAgree(cm: CMachine, m: Q.Machine, fuel: nat, ds: seq<CDecl>, bs: seq<Stmt>, cs: Constants,
                                      scope: set<string>, sa: CState, sb: Q.State)
    requires Within(cm, m, cs, fuel) && |ds| == |bs| && AcceptsDecls(ds, bs, cs) && PlainBody(bs)
    requires Extends(sa, sb) && sa.store.Keys <= scope
    ensures InStep(ExecDecls(cm, fuel, ds, sa), Q.ExecAll(m, fuel, bs, sb), scope + (set d | d in ds :: d.name))
    decreases fuel, 1, ds, 0
  {
    if ds != [] {
      DeclAgrees(cm, m, fuel, ds[0], bs[0], cs, scope, sa, sb);
      var ra := ExecDecl(cm, fuel, ds[0], sa);
      if ra.Value? {
        DeclsAgree(cm, m, fuel, ds[1..], bs[1..], cs, scope + {ds[0].name}, ra.st, Q.Exec(m, fuel, bs[0], sb).st);
        assert scope + {ds[0].name} + (set d | d in ds[1..] :: d.name) == scope + (set d | d in ds :: d.name);
      }
    }
  }

  lemma {:induction false} BlockAgrees(cm: CMachine, m: Q.Machine, fuel: nat, xs: seq<CStmt>, bs: seq<Stmt>, cs: Constants,
                                       scope: set<string>, sa: CState, sb: Q.State)
    requires ReadyBody(cm, m, fuel, xs, bs, cs, scope, sa, sb)
    ensures InStep(ExecBlock(cm, fuel, xs, sa), Q.ExecAll(m, fuel, bs, sb), scope)
    decreases fuel, 1, xs, 1
  {
    BodyAgrees(cm, m, fuel, xs, bs, cs, scope, sa, sb);
    DeclaredAreFresh(xs, scope);
    LeavingForgets(sa, ExecList(cm, fuel, xs, sa), Q.ExecAll(m, fuel, bs, sb), DeclaredIn(xs), scope);
  }

  lemma {:induction false} StmtAgrees(cm: CMachine, m: Q.Machine, fuel: nat, a: CStmt, b: Stmt, cs: Constants,
                                      scope: set<string>, sa: CState, sb: Q.State)
    requires Ready(cm, m, fuel, a, b, cs, scope, sa, sb)
    ensures InStep(ExecC(cm, fuel, a, sa), Q.Exec(m, fuel, b, sb), scope + Declared(a))
    decreases fuel, 1, a, 3
  {
    if a.CVarDecl? {
      DeclAgrees(cm, m, fuel, a.decl, b, cs, scope, sa, sb);
    } else {
      assert scope + Declared(a) == scope;
      if a.CFor? || a.CIf? || a.CWhile? || a.CDoWhile? || a.CSwitch? {
        CompoundAgrees(cm, m, fuel, a, b, cs, scope, sa, sb);
      } else {
        PlainAgrees(cm, m, fuel, a, b, cs, scope, sa, sb);
      }
    }
  }

  /** Statements with bodies. */
  lemma {:induction false} CompoundAgrees(cm: CMachine, m: Q.Machine, fuel: nat, a: CStmt, b: Stmt, cs: Constants,
                                          scope: set<string>, sa: CState, sb: Q.State)
    requires Ready(cm, m, fuel, a, b, cs, scope, sa, sb) && (a.CFor? || a.CIf? || a.CWhile? || a.CDoWhile? || a.CSwitch?)
    ensures InStep(ExecC(cm, fuel, a, sa), Q.Exec(m, fuel, b, sb), scope)
    decreases fuel, 1, a, 2, 1
  {
    if
    case a.CFor? => ForAgrees(cm, m, fuel, a, b, cs, scope, sa, sb);
    case a.CIf? => IfAgrees(cm, m, fuel, a, b, cs, scope, sa, sb);
    case a.CWhile? =>
      LoopIsReady(cm, m, fuel, a, b, cs, scope, sa, sb);
      WhileAgrees(cm, m, fuel, a, b, cs, scope, sa, sb);
    case a.CDoWhile? =>
      LoopIsReady(cm, m, fuel, a, b, cs, scope, sa, sb);
      DoWhileAgrees(cm, m, fuel, a, b, cs, scope, sa, sb);
    case a.CSwitch? => SwitchAgrees(cm, m, fuel, a, b, cs, scope, sa, sb);
  }

  /** Statements without bodies that declare nothing, and those outside the fragment. */
  lemma {:induction false} PlainAgrees(cm: CMachine, m: Q.Machine, fuel: nat, a: CStmt, b: Stmt, cs: Constants,
                                       scope: set<string>, sa: CState, sb: Q.State)
    requires Ready(cm, m, fuel, a, b, cs, scope, sa, sb)
    requires !a.CVarDecl? && !a.CFor? && !a.CIf? && !a.CWhile? && !a.CDoWhile? && !a.CSwitch?
    ensures InStep(ExecC(cm, fuel, a, sa), Q.Exec(m, fuel, b, sb), scope)
    decreases fuel, 1, a, 1
  {
    if
    case a.CCompoundAssign? || a.CIncrement? => UpdateAgrees(cm, m, fuel, a, b, cs, scope, sa, sb);
    case a.CReturn? && a.result.Some? => ReturnAgrees(cm, m, fuel, a, b, cs, scope, sa, sb);
    case a.CAssign? || a.CExprStmt? => ValueStmtAgrees(cm, m, fuel, a, b, cs, scope, sa, sb);
    case IsJumpOrForeign(a) => JumpAgrees(cm, m, fuel, a, b, cs, scope, sa, sb);
  }

  lemma {:induction false} JumpAgrees(cm: CMachine, m: Q.Machine, fuel: nat, a: CStmt, b: Stmt, cs: Constants,
                                      scope: set<string>, sa: CState, sb: Q.State)
    requires Ready(cm, m, fuel, a, b, cs, scope, sa, sb) && IsJumpOrForeign(a)
    ensures InStep(ExecC(cm, fuel, a, sa), Q.Exec(m, fuel, b, sb), scope)
  {}

  /** Jumps without a value, and the memory stores outside the fragment. */
  predicate IsJumpOrForeign(a: CStmt) {
    a.CBreak? || a.CContinue? || a == CReturn(None) || a.CDerefStore? || a.CSubscriptStore? || a.CFieldArrowStore?
    || a.CMultiVarDecl?
  }

  lemma {:induction false} ValueStmtAgrees(cm: CMachine, m: Q.Machine, fuel: nat, a: CStmt, b: Stmt, cs: Constants,
                        scope: set<string>, sa: CState, sb: Q.State)
    requires Ready(cm, m, fuel, a, b, cs, scope, sa, sb) && (a.CAssign? || a.CExprStmt?)
    ensures InStep(ExecC(cm, fuel, a, sa), Q.Exec(m, fuel, b, sb), scope)
    decreases fuel, 1, a, 0
  {
    ExprAgrees(cm, m, fuel, a.value, b.value, cs, sa, sb);
  }

  lemma {:induction false} IfAgrees(cm: CMachine, m: Q.Machine, fuel: nat, a: CStmt, b: Stmt, cs: Constants,
                                    scope: set<string>, sa: CState, sb: Q.State)
    requires Ready(cm, m, fuel, a, b, cs, scope, sa, sb) && a.CIf?
    ensures InStep(ExecC(cm, fuel, a, sa), Q.Exec(m, fuel, b, sb), scope)
    decreases fuel, 1, a, 2, 0
  {
    TestAgrees(cm, m, fuel, a.cond, b.cond, cs, sa, sb);
    var ra := TestC(cm, fuel, a.cond, sa);
    if ra.Value? {
      var rb := Q.Eval(m, fuel, b.cond, sb);
      if ra.value {
        BlockAgrees(cm, m, fuel, a.thenBody, b.thenBody, cs, scope, ra.st, rb.st);
      } else {
        BlockAgrees(cm, m, fuel, a.elseBody, b.elseBody, cs, scope, ra.st, rb.st);
      }
    }
  }

  /** Both turns go on from states that agree, or both leave the loop in step. */
  ghost predicate TurnsMatch(ta: Turn, tb: Q.Turn, scope: set<string>) {
    if ta.Next? then tb.Next? && Extends(ta.st, tb.st) && ta.st.store.Keys <= scope
    else (ta.out.Halt? && ta.out.sig.Undefined?) || (tb.Exit? && InStep(ta.out, tb.out, scope))
  }

  lemma {:induction false} TurnEnds(ra: Out<CState, ()>, rb: Out<Q.State, ()>, scope: set<string>)
    requires InStep(ra, rb, scope)
    ensures TurnsMatch(AfterBody(ra), Q.AfterBody(rb), scope)
  {}

  /** Bodies that run in step end their turn in step. */
  lemma {:induction false} TurnAgrees(cm: CMachine, m: Q.Machine, fuel: nat, xs: seq<CStmt>, bs: seq<Stmt>, cs: Constants,
                                      scope: set<string>, sa: CState, sb: Q.State)
    requires ReadyBody(cm, m, fuel, xs, bs, cs, scope, sa, sb)
    ensures TurnsMatch(AfterBody(ExecBlock(cm, fuel, xs, sa)), Q.AfterBody(Q.ExecAll(m, fuel, bs, sb)), scope)
    decreases fuel, 1, xs, 2
  {
    BlockAgrees(cm, m, fuel, xs, bs, cs, scope, sa, sb);
    TurnEnds(ExecBlock(cm, fuel, xs, sa), Q.ExecAll(m, fuel, bs, sb), scope);
  }

  lemma {:induction false} LessFuel(cm: CMachine, m: Q.Machine, cs: Constants, fuel: nat)
    requires Within(cm, m, cs, fuel) && fuel > 0
    ensures Within(cm, m, cs, fuel - 1)
  {}

  /** A while or do-while whose parts are accepted pairs. */
  ghost predicate ReadyLoop(cm: CMachine, m: Q.Machine, fuel: nat, a: CStmt, b: Stmt, cs: Constants,
                            scope: set<string>, sa: CState, sb: Q.State) {
    && ((a.CWhile? && b.While?) || (a.CDoWhile? && b.DoWhile?))
    && (AcceptsExpr(a.cond, b.cond, cs) || AcceptsWidened(a.cond, b.cond, cs)) && PlainExpr(b.cond)
    && ReadyBody(cm, m, fuel, a.body, b.body, cs, scope, sa, sb)
  }

  lemma {:induction false} LoopIsReady(cm: CMachine, m: Q.Machine, fuel: nat, a: CStmt, b: Stmt, cs: Constants,
                                       scope: set<string>, sa: CState, sb: Q.State)
    requires Ready(cm, m, fuel, a, b, cs, scope, sa, sb) && (a.CWhile? || a.CDoWhile?)
    ensures ReadyLoop(cm, m, fuel, a, b, cs, scope, sa, sb)
  {}

  lemma {:induction false} WhileAgrees(cm: CMachine, m: Q.Machine, fuel: nat, a: CStmt, b: Stmt, cs: Constants,
                                       scope: set<string>, sa: CState, sb: Q.State)
    requires ReadyLoop(cm, m, fuel, a, b, cs, scope, sa, sb) && a.CWhile?
    ensures InStep(WhileTurns(cm, fuel, a, sa), Q.WhileTurns(m, fuel, b, sb), scope)
    decreases fuel, 1, a, 2, 0
  {
    if fuel > 0 {
      LessFuel(cm, m, cs, fuel);
      TestAgrees(cm, m, fuel, a.cond, b.cond, cs, sa, sb);
      var ra := TestC(cm, fuel, a.cond, sa);
      if ra.Value? && ra.value {
        var rb := Q.Eval(m, fuel, b.cond, sb);
        TurnAgrees(cm, m, fuel, a.body, b.body, cs, scope, ra.st, rb.st);
        var ta := AfterBody(ExecBlock(cm, fuel, a.body, ra.st));
        if ta.Next? {
          var tb := Q.AfterBody(Q.ExecAll(m, fuel, b.body, rb.st));
          WhileAgrees(cm, m, fuel - 1, a, b, cs, scope, ta.st, tb.st);
        }
      }
    }
  }

  lemma {:induction false} DoWhileAgrees(cm: CMachine, m: Q.Machine, fuel: nat, a: CStmt, b: Stmt, cs: Constants,
                                         scope: set<string>, sa: CState, sb: Q.State)
    requires ReadyLoop(cm, m, fuel, a, b, cs, scope, sa, sb) && a.CDoWhile?
    ensures InStep(DoWhileTurns(cm, fuel, a, sa), Q.DoWhileTurns(m, fuel, b, sb), scope)
    decreases fuel, 1, a, 2, 0
  {
    if fuel > 0 {
      LessFuel(cm, m, cs, fuel);
      TurnAgrees(cm, m, fuel, a.body, b.body, cs, scope, sa, sb);
      var ta := AfterBody(ExecBlock(cm, fuel, a.body, sa));
      if ta.Next? {
        var tb := Q.AfterBody(Q.ExecAll(m, fuel, b.body, sb));
        TestAgrees(cm, m, fuel, a.cond, b.cond, cs, ta.st, tb.st);
        var ra := TestC(cm, fuel, a.cond, ta.st);
        if ra.Value? && ra.value {
          DoWhileAgrees(cm, m, fuel - 1, a, b, cs, scope, ra.st, Q.Eval(m, fuel, b.cond, tb.st).st);
        }
      }
    }
  }

  lemma {:induction false} DeclAgrees(cm: CMachine, m: Q.Machine, fuel: nat, d: CDecl, b: Stmt, cs: Constants,
                   scope: set<string>, sa: CState, sb: Q.State)
    requires Within(cm, m, cs, fuel) && AcceptsDecl(d, b, cs) && PlainStmt(b)
    requires Extends(sa, sb) && sa.store.Keys <= scope
    ensures InStep(ExecDecl(cm, fuel, d, sa), Q.Exec(m, fuel, b, sb), scope + {d.name})
    decreases fuel, 1, d, 0
  {
    if d.init.Some? {
      ExprAgrees(cm, m, fuel, d.init.value, b.init.value, cs, sa.(store := sa.store - {d.name}), sb);
    }
  }

  lemma {:induction false} UpdateAgrees(cm: CMachine, m: Q.Machine, fuel: nat, a: CStmt, b: Stmt, cs: Constants,
                     scope: set<string>, sa: CState, sb: Q.State)
    requires Ready(cm, m, fuel, a, b, cs, scope, sa, sb) && (a.CCompoundAssign? || a.CIncrement?)
    ensures InStep(ExecC(cm, fuel, a, sa), Q.Exec(m, fuel, b, sb), scope)
    decreases fuel, 1, a, 0
  {
    if a.target in sa.store {
      var ra := if a.CIncrement? then Value(Int(1), sa) else EvalC(cm, fuel, a.value, sa);
      if a.CCompoundAssign? {
        ExprAgrees(cm, m, fuel, a.value, b.value.rhs, cs, sa, sb);
      }
      UpdateRuns(m, fuel, b, sa.store[a.target], sb);
      if ra.Value? {
        ComputeAgrees(m, UpdateOp(a), b.value.bop.op, sa.store[a.target], ra.value, ra.st, Q.Eval(m, fuel, b.value.rhs, sb).st);
      }
    }
  }

  function UpdateOp(a: CStmt): COp
    requires a.CCompoundAssign? || a.CIncrement?
  {
    if a.CIncrement? then (if a.up then CAdd else CSub) else a.op
  }

  /** `x = x op e` reads `x` and then evaluates `e`. */
  lemma {:induction false} UpdateRuns(m: Q.Machine, fuel: nat, b: Stmt, v: Val, sb: Q.State)
    requires b.Assign? && b.value.Binary? && b.value.bop.Arith? && b.value.lhs == Leaf(LocalRef(b.name))
    requires b.name in sb.store && sb.store[b.name] == v
    ensures var rb := Q.Eval(m, fuel, b.value.rhs, sb);
            Q.Eval(m, fuel, b.value, sb) ==
            if rb.Halt? then Halt(rb.sig, rb.st) else Q.ApplyArith(m, b.value.bop.op, v, rb.value, rb.st)
  {
    assert Q.Eval(m, fuel, b.value.lhs, sb) == Value(v, sb);
  }

  /** A C operator and the signed one it is paired with. */
  lemma {:induction false} ComputeAgrees(m: Q.Machine, op: COp, bop: ArithOp, v: Val, u: Val, sa: CState, sb: Q.State)
    requires SignedOp(op) == Some(bop)
    ensures var ra := Compute(op, v, u, sa);
            ra.Value? ==> Q.ApplyArith(m, bop, v, u, sb) == Value(ra.value, sb)
  {
    if v.Int? && u.Int? && CApply(op, v.n, u.n).Some? {
      OperatorTable(op, v.n, u.n);
    }
  }

  lemma {:induction false} ReturnAgrees(cm: CMachine, m: Q.Machine, fuel: nat, a: CStmt, b: Stmt, cs: Constants,
                     scope: set<string>, sa: CState, sb: Q.State)
    requires Ready(cm, m, fuel, a, b, cs, scope, sa, sb) && a.CReturn? && a.result.Some?
    ensures InStep(ExecC(cm, fuel, a, sa), Q.Exec(m, fuel, b, sb), scope)
    decreases fuel, 1, a, 0
  {
    var e := a.result.value;
    if b.ReturnExpr? {
      ExprAgrees(cm, m, fuel, e, b.value, cs, sa, sb);
    } else {
      ExprAgrees(cm, m, fuel, e, b.cond, cs, sa, sb);
      TruthValuesAreBits(cm, fuel, e, sa);
      var t := Q.Eval(m, fuel, b.cond, sb).st;
      LiteralReturn(m, fuel, b.thenBody, 1, t);
      LiteralReturn(m, fuel, b.elseBody, 0, t);
    }
  }

  lemma {:induction false} LiteralReturn(m: Q.Machine, fuel: nat, bs: seq<Stmt>, n: int, sb: Q.State)
    requires Returns(bs, n)
    ensures Q.ExecAll(m, fuel, bs, sb) == Halt(Returned(Some(Int(n))), sb)
  {
    assert bs[..1] == bs;
    SingleStatement(m, fuel, bs, sb);
  }

  /** An i1-typed C expression has the value 0 or 1. */
  lemma {:induction false} TruthValuesAreBits(cm: CMachine, fuel: nat, e: CExpr, st: CState)
    requires IsI1Typed(e)
    ensures var ra := EvalC(cm, fuel, e, st); ra.Value? ==> ra.value == Int(0) || ra.value == Int(1)
  {}

  lemma {:induction false} ForAgrees(cm: CMachine, m: Q.Machine, fuel: nat, a: CStmt, b: Stmt, cs: Constants,
                                     scope: set<string>, sa: CState, sb: Q.State)
    requires Ready(cm, m, fuel, a, b, cs, scope, sa, sb) && a.CFor?
    ensures InStep(ExecC(cm, fuel, a, sa), Q.Exec(m, fuel, b, sb), scope)
    decreases fuel, 1, a, 2, 0
  {
    match a.forInit {
      case None =>
        assert scope + {} == scope;
        ForTurnsAgree(cm, m, fuel, a, b, cs, scope, sa, sb);
      case Some(init) =>
        StartAgrees(cm, m, fuel, a, init, b, cs, scope, sa, sb);
        LeavingForgets(sa, StartFor(cm, fuel, a, init, sa), Q.Exec(m, fuel, b, sb), Declared(init), scope);
    }
  }

  /** The first clause of a for and its turns, inside the scope of the variable declared there. */
  lemma {:induction false} StartAgrees(cm: CMachine, m: Q.Machine, fuel: nat, a: CStmt, init: CStmt, b: Stmt, cs: Constants,
                                       scope: set<string>, sa: CState, sb: Q.State)
    requires a.CFor? && a.forInit == Some(init) && b.CStyleFor? && b.forInit.Some?
    requires Ready(cm, m, fuel, init, b.forInit.value, cs, scope, sa, sb)
    requires PairedFor(cm, m, fuel, a, b, cs, scope + Declared(init))
    ensures InStep(StartFor(cm, fuel, a, init, sa), Q.Exec(m, fuel, b, sb), scope + Declared(init))
    decreases fuel, 1, a, 1, 1
  {
    StmtAgrees(cm, m, fuel, init, b.forInit.value, cs, scope, sa, sb);
    var ra := ExecC(cm, fuel, init, sa);
    if ra.Value? {
      ForTurnsAgree(cm, m, fuel, a, b, cs, scope + Declared(init), ra.st, Q.Exec(m, fuel, b.forInit.value, sb).st);
    }
  }

  /** The test of a for has the same outcome on both sides. */
  lemma {:induction false} ForTestAgrees(cm: CMachine, m: Q.Machine, fuel: nat, a: CStmt, b: Stmt, cs: Constants,
                                         inner: set<string>, sa: CState, sb: Q.State)
    requires ReadyFor(cm, m, fuel, a, b, cs, inner, sa, sb)
    ensures Agree(ForTest(cm, fuel, a, sa), Q.CForTest(m, fuel, b, sb))
    decreases fuel, 1, a, 0
  {
    if a.forCond.Some? {
      TestAgrees(cm, m, fuel, a.forCond.value, b.forCond.value, cs, sa, sb);
    }
  }

  lemma {:induction false} ForTestKeeps(cm: CMachine, fuel: nat, a: CStmt, st: CState)
    requires a.CFor?
    ensures ForTest(cm, fuel, a, st).st.store == st.store
  {}

  lemma {:induction false} ForTurnsAgree(cm: CMachine, m: Q.Machine, fuel: nat, a: CStmt, b: Stmt, cs: Constants,
                                         inner: set<string>, sa: CState, sb: Q.State)
    requires ReadyFor(cm, m, fuel, a, b, cs, inner, sa, sb)
    ensures InStep(ForTurns(cm, fuel, a, sa), Q.CForTurns(m, fuel, b, sb), inner)
    decreases fuel, 1, a, 1, 0
  {
    if fuel > 0 {
      ForTestAgrees(cm, m, fuel, a, b, cs, inner, sa, sb);
      ForTestKeeps(cm, fuel, a, sa);
      var ta := ForTest(cm, fuel, a, sa);
      if ta.Value? && ta.value {
        var tb := Q.CForTest(m, fuel, b, sb);
        TurnAgrees(cm, m, fuel, a.body, b.body, cs, inner, ta.st, tb.st);
        var na := AfterBody(ExecBlock(cm, fuel, a.body, ta.st));
        if na.Next? {
          var nb := Q.AfterBody(Q.ExecAll(m, fuel, b.body, tb.st));
          StepAgrees(cm, m, fuel, a, b, cs, inner, na.st, nb.st);
        }
      }
    }
  }

  /** The step of a for, then the remaining turns. */
  lemma {:induction false} StepAgrees(cm: CMachine, m: Q.Machine, fuel: nat, a: CStmt, b: Stmt, cs: Constants,
                                      inner: set<string>, sa: CState, sb: Q.State)
    requires fuel > 0
    requires ReadyFor(cm, m, fuel, a, b, cs, inner, sa, sb)
    ensures a.inc.None? ==>
              InStep(ForTurns(cm, fuel - 1, a, sa), Q.CForTurns(m, fuel - 1, b, sb), inner)
    ensures a.inc.Some? ==>
              var ra := ExecC(cm, fuel, a.inc.value, sa);
              var rb := Q.Exec(m, fuel, b.inc.value, sb);
              && InStep(ra, rb, inner)
              && (ra.Value? ==>
                    InStep(ForTurns(cm, fuel - 1, a, ra.st), Q.CForTurns(m, fuel - 1, b, rb.st), inner))
    decreases fuel, 1, a, 0
  {
    LessFuel(cm, m, cs, fuel);
    match a.inc {
      case None =>
        ForTurnsAgree(cm, m, fuel - 1, a, b, cs, inner, sa, sb);
      case Some(inc) =>
        StmtAgrees(cm, m, fuel, inc, b.inc.value, cs, inner, sa, sb);
        assert inner + Declared(inc) == inner;
        var ra := ExecC(cm, fuel, inc, sa);
        if ra.Value? {
          ForTurnsAgree(cm, m, fuel - 1, a, b, cs, inner, ra.st, Q.Exec(m, fuel, b.inc.value, sb).st);
        }
    }
  }

  lemma {:induction false} SwitchAgrees(cm: CMachine, m: Q.Machine, fuel: nat, a: CStmt, b: Stmt, cs: Constants,
                                        scope: set<string>, sa: CState, sb: Q.State)
    requires Ready(cm, m, fuel, a, b, cs, scope, sa, sb) && a.CSwitch?
    ensures InStep(ExecC(cm, fuel, a, sa), Q.Exec(m, fuel, b, sb), scope)
    decreases fuel, 1, a, 2, 0
  {
    var ra := EvalC(cm, fuel, a.scrutinee, sa);
    CallFreeIsQuiet(cm, fuel, a.scrutinee, sa);
    if ra.Value? && ra.value.Int? && PickCase(cm, fuel, a.cases, ra.value.n, sa).Some? {
      var k := PickCase(cm, fuel, a.cases, ra.value.n, sa).value;
      var bs, t := ChainAgrees(cm, m, fuel, a.scrutinee, a.cases, a.default, b, cs, ra.value.n, sa, sb);
      SelectedAgrees(cm, m, fuel, a, Selected(a.cases, a.default, k), bs, cs, scope, sa, t);
      assert RunCase(cm, fuel, a, ra.value.n, sa) == LeaveSwitch(ExecBlock(cm, fuel, Selected(a.cases, a.default, k), sa));
    }
  }

  /** The body a switch selects among cases and the default. */
  function Selected(cases: seq<CSwitchCase>, default: seq<CStmt>, k: nat): seq<CStmt> {
    if k < |cases| then cases[k].body else default
  }

  ghost predicate PairedBodies(xs: seq<CStmt>, bs: seq<Stmt>, cs: Constants) {
    AcceptsBody(xs, bs, cs) && PlainBody(bs) && CoveredList(xs, bs)
  }

  /**
   * A chain of ifs reaches, with the store as it was, the branch paired with the first case that
   * holds the value, or with the default when none does.
   */
  lemma {:induction false} ChainAgrees(cm: CMachine, m: Q.Machine, fuel: nat, scrutinee: CExpr, cases: seq<CSwitchCase>,
                                       default: seq<CStmt>, cur: Stmt, cs: Constants, n: int, sa: CState, sb: Q.State)
    returns (bs: seq<Stmt>, t: Q.State)
    requires cases != [] && cur.If?
    requires Within(cm, m, cs, fuel) && PlainStmt(cur) && Extends(sa, sb)
    requires AcceptsChain(scrutinee, cases, default, cur, cs) && CoveredChain(cases, default, cur)
    requires forall i :: 0 <= i < |cases| ==> AllCallFree(cases[i].values)
    requires EvalC(cm, fuel, scrutinee, sa) == Value(Int(n), sa)
    requires PickCase(cm, fuel, cases, n, sa).Some?
    ensures PairedBodies(Selected(cases, default, PickCase(cm, fuel, cases, n, sa).value), bs, cs)
    ensures Q.Exec(m, fuel, cur, sb) == Q.ExecAll(m, fuel, bs, t) && Extends(sa, t)
    decreases |cases|
  {
    CaseCondAgrees(cm, m, fuel, scrutinee, cases[0].values, cur.cond, cs, n, sa, sb);
    t := Q.Eval(m, fuel, cur.cond, sb).st;
    var hit := Hits(cm, fuel, cases[0].values, n, sa).value;
    PickSplits(cm, fuel, cases, n, sa);
    DecidedIf(m, fuel, cur, hit, sb);
    if hit {
      bs := cur.thenBody;
    } else if |cases| == 1 {
      bs := cur.elseBody;
    } else {
      SingleStatement(m, fuel, cur.elseBody, t);
      bs, t := ChainAgrees(cm, m, fuel, scrutinee, cases[1..], default, cur.elseBody[0], cs, n, sa, t);
    }
  }

  lemma {:induction false} PickSplits(cm: CMachine, fuel: nat, cases: seq<CSwitchCase>, n: int, st: CState)
    requires cases != [] && PickCase(cm, fuel, cases, n, st).Some?
    ensures var hit := Hits(cm, fuel, cases[0].values, n, st);
            && hit.Some?
            && (hit.value ==> PickCase(cm, fuel, cases, n, st) == Some(0))
            && (!hit.value ==>
                  var later := PickCase(cm, fuel, cases[1..], n, st);
                  later.Some? && PickCase(cm, fuel, cases, n, st) == Some(later.value + 1))
  {}

  /** An if whose test is a bit. */
  lemma {:induction false} DecidedIf(m: Q.Machine, fuel: nat, s: Stmt, hit: bool, st: Q.State)
    requires s.If?
    requires var test := Q.Eval(m, fuel, s.cond, st); test.Value? && test.value == Int(Bool(hit))
    ensures var t := Q.Eval(m, fuel, s.cond, st).st;
            Q.Exec(m, fuel, s, st) == Q.ExecAll(m, fuel, if hit then s.thenBody else s.elseBody, t)
  {}

  /** The selected body, which never breaks, runs as the branch of its if. */
  lemma {:induction false} SelectedAgrees(cm: CMachine, m: Q.Machine, fuel: nat, a: CStmt, xs: seq<CStmt>, bs: seq<Stmt>, cs: Constants,
                                          scope: set<string>, sa: CState, sb: Q.State)
    requires a.CSwitch? && (xs == a.default || exists i :: 0 <= i < |a.cases| && xs == a.cases[i].body)
    requires ReadyBody(cm, m, fuel, xs, bs, cs, scope, sa, sb) && NoOwnBreak(xs)
    ensures InStep(LeaveSwitch(ExecBlock(cm, fuel, xs, sa)), Q.ExecAll(m, fuel, bs, sb), scope)
    decreases fuel, 1, a, 0
  {
    BlockAgrees(cm, m, fuel, xs, bs, cs, scope, sa, sb);
    NeverBreaks(cm, fuel, xs, sa);
  }

  // ---------- Functions ----------

  function ScopeOf(params: seq<CParam>): set<string> {
    set p | p in params :: p.name
  }

  /** The quod statements that pair with C statements, and the stubs behind them. */
  function Kept(cfn: CFn, fn: Function): seq<Stmt> {
    fn.body[..KeptLength(fn.body, TotalWidth(cfn.body))]
  }

  function Stubs(cfn: CFn, fn: Function): seq<Stmt> {
    fn.body[KeptLength(fn.body, TotalWidth(cfn.body))..]
  }

  predicate InFragment(cfn: CFn, fn: Function) {
    && WellFormedList(cfn.body, ScopeOf(cfn.params))
    && PlainBody(fn.body)
    && CoveredList(cfn.body, Kept(cfn, fn))
  }

  function RunQuod(m: Q.Machine, fuel: nat, fn: Function, vs: seq<Val>, io: seq<Q.Event>): Out<Q.State, ()>
    requires |vs| == |fn.params|
  {
    Q.Body(m, fuel, fn, vs, Q.State(map[], io, []))
  }

  /** What control meets behind the paired statements. */
  function FallOff(stubs: seq<Stmt>, st: Q.State): Out<Q.State, ()> {
    if stubs == [] then Value((), st)
    else match stubs[0] {
      case ReturnExpr(_) => Halt(Returned(Some(Int(0))), st)
      case Return => Halt(Returned(None), st)
      case _ => Halt(Undefined, st)
    }
  }

  lemma {:induction false} StubsAreStubs(bs: seq<Stmt>, width: nat)
    ensures forall i :: KeptLength(bs, width) <= i < |bs| ==> IsStub(bs[i])
    ensures KeptLength(bs, width) >= width || KeptLength(bs, width) == |bs|
    decreases |bs|
  {
    if |bs| > width && IsStub(bs[|bs| - 1]) {
      StubsAreStubs(bs[..|bs| - 1], width);
    }
  }

  lemma {:induction false} BoundNames(names: seq<string>, vs: seq<Val>)
    requires |names| == |vs|
    ensures forall x :: x in Q.Bind(names, vs) <==> x in names
  {
    if names != [] {
      BoundNames(names[1..], vs[1..]);
    }
  }

  lemma {:induction false} BindAgrees(ps: seq<CParam>, qs: seq<Param>, vs: seq<Val>)
    requires |ps| == |qs| == |vs| && forall i :: 0 <= i < |ps| ==> ps[i].name == qs[i].name
    ensures forall x :: x in Bind(ps, vs) <==> x in ScopeOf(ps)
    ensures forall x :: x in ScopeOf(ps) <==> x in Q.ParamNames(qs)
    ensures forall x :: x in Bind(ps, vs) ==>
              x in Q.Bind(Q.ParamNames(qs), vs) && Q.Bind(Q.ParamNames(qs), vs)[x] == Bind(ps, vs)[x]
  {
    if ps != [] {
      BindAgrees(ps[1..], qs[1..], vs[1..]);
      assert forall p :: p in ps <==> p == ps[0] || p in ps[1..];
      var names := Q.ParamNames(qs);
      assert names[0] == ps[0].name && names[1..] == Q.ParamNames(qs[1..]);
      var a, b := Bind(ps[1..], vs[1..]), Q.Bind(names[1..], vs[1..]);
      assert Bind(ps, vs) == map[ps[0].name := vs[0]] + a;
      assert Q.Bind(names, vs) == map[names[0] := vs[0]] + b;
      BoundNames(names[1..], vs[1..]);
      forall x | x in Bind(ps, vs)
        ensures x in Q.Bind(names, vs) && Q.Bind(names, vs)[x] == Bind(ps, vs)[x]
      {
        assert x in a <==> x in b;
      }
    }
  }

  /** What the C run of a function promises of the quod run. */
  ghost predicate Alike(ra: Out<CState, ()>, rb: Out<Q.State, ()>, cfn: CFn, fn: Function) {
    && (ra.Halt? && !ra.sig.Undefined? ==> rb.Halt? && rb.sig == ra.sig && Extends(ra.st, rb.st))
    && (ra.Value? ==> rb == FallOff(Stubs(cfn, fn), rb.st) && Extends(ra.st, rb.st))
  }

  /** Callees that ran alike hand the same result to their callers. */
  lemma {:induction false} LeavingAgrees(cfn: CFn, fn: Function, cs: Constants, sa: CState, sb: Q.State,
                                         ra: Out<CState, ()>, rb: Out<Q.State, ()>)
    requires Paired(cfn, fn, cs) && Extends(sa, sb) && Alike(ra, rb, cfn, fn)
    ensures Agree(Leave(cfn, sa, ra), Q.Leave(sb, rb))
  {}

  /** A call of a function of the program: the callees agree, whatever the frames around them. */
  lemma {:induction false} CallAgrees(cm: CMachine, m: Q.Machine, fuel: nat, f: string, cs: Constants, vs: seq<Val>,
                                      sa: CState, sb: Q.State)
    requires Linked(cm, m, cs) && Extends(sa, sb)
    requires f in cm.functions && |vs| == |cm.functions[f].params| == |m.functions[f].params|
    ensures Agree(Leave(cm.functions[f], sa, RunC(cm, fuel, cm.functions[f], vs, sa.io)),
                  Q.Leave(sb, Q.Body(m, fuel, m.functions[f], vs, sb)))
    decreases fuel, 3
  {
    var (cfn, fn) := (cm.functions[f], m.functions[f]);
    FunctionAgrees(cm, m, fuel, cfn, fn, cs, vs, sb);
    LeavingAgrees(cfn, fn, cs, sa, sb, RunC(cm, fuel, cfn, vs, sa.io), Q.Body(m, fuel, fn, vs, sb));
  }

  /** By induction on the fuel, all calls agree. */
  lemma {:induction false} CalleesAgree(cm: CMachine, m: Q.Machine, fuel: nat, cs: Constants)
    requires Linked(cm, m, cs)
    ensures Within(cm, m, cs, fuel)
    decreases fuel, 1
  {
    forall k: nat, f | k < fuel && f in cm.functions ensures CalleeAgrees(cm, m, k, f) {
      forall vs, sa, sb | |vs| == |cm.functions[f].params| == |m.functions[f].params| && Extends(sa, sb)
        ensures Agree(Leave(cm.functions[f], sa, RunC(cm, k, cm.functions[f], vs, sa.io)),
                      Q.Leave(sb, Q.Body(m, k, m.functions[f], vs, sb)))
      {
        CallAgrees(cm, m, k, f, cs, vs, sa, sb);
      }
    }
  }

  /** Entered from any state of a run, which lends its log. */
  lemma {:induction false} FunctionAgrees(cm: CMachine, m: Q.Machine, fuel: nat, cfn: CFn, fn: Function, cs: Constants,
                                          vs: seq<Val>, st: Q.State)
    requires AcceptsFn(cfn, fn, cs) && InFragment(cfn, fn) && Linked(cm, m, cs)
    requires |vs| == |cfn.params|
    ensures Alike(RunC(cm, fuel, cfn, vs, st.io), Q.Body(m, fuel, fn, vs, st), cfn, fn)
    decreases fuel, 2
  {
    var sa := CState(Bind(cfn.params, vs), st.io);
    var sb := Q.State(Q.Bind(Q.ParamNames(fn.params), vs), st.io, st.frames + [Q.Frame(fn.name, vs)]);
    var kept, stubs := Kept(cfn, fn), Stubs(cfn, fn);
    BindAgrees(cfn.params, fn.params, vs);
    StubsAreStubs(fn.body, TotalWidth(cfn.body));
    CalleesAgree(cm, m, fuel, cs);
    BodyAgrees(cm, m, fuel, cfn.body, kept, cs, ScopeOf(cfn.params), sa, sb);
    assert fn.body == kept + stubs;
    Q.ExecAllSplit(m, fuel, kept, stubs, sb);
    var out := Q.ExecAll(m, fuel, kept, sb);
    if out.Value? {
      StubsRun(m, fuel, stubs, out.st);
    }
  }

  /**
   * An accepted pair runs alike from the same arguments, for every fuel: same calls, same
   * variables, same outcome, also through the calls of other pairs of the two programs; and
   * where the C function falls off its end the quod function meets the first of the stripped
   * stubs, if any.
   */
  lemma {:induction false} AcceptedFunctionsAgree(cm: CMachine, m: Q.Machine, fuel: nat, cfn: CFn, fn: Function, cs: Constants,
                                                  vs: seq<Val>, io: seq<Q.Event>)
    requires AcceptsFn(cfn, fn, cs) && InFragment(cfn, fn) && Linked(cm, m, cs)
    requires |vs| == |cfn.params|
    ensures forall i :: 0 <= i < |Stubs(cfn, fn)| ==> IsStub(Stubs(cfn, fn)[i])
    ensures Alike(RunC(cm, fuel, cfn, vs, io), RunQuod(m, fuel, fn, vs, io), cfn, fn)
  {
    StubsAreStubs(fn.body, TotalWidth(cfn.body));
    FunctionAgrees(cm, m, fuel, cfn, fn, cs, vs, Q.State(map[], io, []));
  }

  lemma {:induction false} StubsRun(m: Q.Machine, fuel: nat, stubs: seq<Stmt>, st: Q.State)
    requires forall i :: 0 <= i < |stubs| ==> IsStub(stubs[i])
    ensures Q.ExecAll(m, fuel, stubs, st) == FallOff(stubs, st)
  {
    if stubs != [] && stubs[0].ReturnExpr? {
      assert IsStub(stubs[0]);
      assert Q.Eval(m, fuel, stubs[0].value, st) == Value(Int(0), st);
    }
  }

  /**
   * C11 section 5.1.2.2.3: falling off `main` returns 0. The walk accepts any
   * stub there, so the quod `main` returns 0 exactly when the first stripped
   * stub is a `return 0`.
   */
  lemma {:induction false} MainFallingOff(cm: CMachine, m: Q.Machine, fuel: nat, cfn: CFn, fn: Function, cs: Constants,
                                          vs: seq<Val>, io: seq<Q.Event>)
    requires AcceptsFn(cfn, fn, cs) && InFragment(cfn, fn) && Linked(cm, m, cs)
    requires |vs| == |cfn.params| && cfn.name == "main"
    requires RunC(cm, fuel, cfn, vs, io).Value?
    ensures var rb := RunQuod(m, fuel, fn, vs, io);
            (rb.Halt? && rb.sig == Returned(Some(Int(0)))) <==>
            (Stubs(cfn, fn) != [] && Stubs(cfn, fn)[0].ReturnExpr?)
  {
    AcceptedFunctionsAgree(cm, m, fuel, cfn, fn, cs, vs, io);
  }
}
