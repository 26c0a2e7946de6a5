/**
 * Runs of C functions (C11), with block scopes, undefined behaviour and the same
 * fuel discipline as `QuodRun`.
 *
 * A variable in scope without a determinate value is absent from the store.
 * Constructs outside the integer and string fragment are `Undefined`.
 */
module CRun {
  import opened Wrappers
  import opened QuodTree
  import opened Arithmetic
  import opened Runs
  import opened CTree
  import Q = QuodRun

  /** The C functions that calls enter, and the world that answers every other call. */
  datatype CMachine = CMachine(functions: map<string, CFn>, world: seq<Q.Event> -> Val)

  datatype CState = CState(store: map<string, Val>, io: seq<Q.Event>)

  /** Expressions of the fragment never change a variable, and fail only by undefined behaviour or for want of fuel. */
  function EvalC(cm: CMachine, fuel: nat, e: CExpr, st: CState): (out: Out<CState, Val>)
    ensures out.st.store == st.store
    ensures out.Halt? ==> out.sig.Undefined? || out.sig.OutOfFuel?
    decreases fuel, e, 0
  {
    match e
    case CIntLit(_, n) => Value(Int(n), st)
    case CEnumConstRef(_, n) => Value(Int(n), st)
    case CStringLit(text) => Value(Str(text), st)
    case CVarRef(name) => if name in st.store then Value(st.store[name], st) else Halt(Undefined, st)
    case CBinOp(CLogAnd, l, r) =>
      var (v, t) :- TestC(cm, fuel, l, st);
      if !v then Value(Int(0), t) else
        var (u, t') :- TestC(cm, fuel, r, t);
        Value(Int(Bool(u)), t')
    case CBinOp(CLogOr, l, r) =>
      var (v, t) :- TestC(cm, fuel, l, st);
      if v then Value(Int(1), t) else
        var (u, t') :- TestC(cm, fuel, r, t);
        Value(Int(Bool(u)), t')
    case CBinOp(op, l, r) =>
      var (v, t) :- EvalC(cm, fuel, l, st);
      var (u, t') :- EvalC(cm, fuel, r, t);
      Compute(op, v, u, t')
    case CUnary(op, x) =>
      var (v, t) :- EvalC(cm, fuel, x, st);
      ComputeUnary(op, v, t)
    case CTernary(c, x, y) =>
      // C11 section 6.5.15: exactly one branch is evaluated.
      var (v, t) :- TestC(cm, fuel, c, st);
      if v then EvalC(cm, fuel, x, t) else EvalC(cm, fuel, y, t)
    case CCall(callee, args) =>
      var (vs, t) :- EvalCAll(cm, fuel, args, st);
      if callee in cm.functions then
        var cfn := cm.functions[callee];
        if |vs| != |cfn.params| then Halt(Undefined, t)
        else if fuel == 0 then Halt(OutOfFuel, t)
        else Leave(cfn, t, RunC(cm, fuel - 1, cfn, vs, t.io))
      else
        var asked := t.io + [Q.Event(Q.Extern(callee), vs)];
        Value(cm.world(asked), t.(io := asked))
    case _ => Halt(Undefined, st)
  }

  /** A controlling expression; pointer conditions are outside the fragment. */
  function TestC(cm: CMachine, fuel: nat, e: CExpr, st: CState): (out: Out<CState, bool>)
    ensures out.st.store == st.store
    ensures out.Halt? ==> out.sig.Undefined? || out.sig.OutOfFuel?
    decreases fuel, e, 1
  {
    var (v, t) :- EvalC(cm, fuel, e, st);
    if v.Int? then Value(Truthy(v), t) else Halt(Undefined, t)
  }

  function EvalCAll(cm: CMachine, fuel: nat, es: seq<CExpr>, st: CState): (out: Out<CState, seq<Val>>)
    ensures out.st.store == st.store
    ensures out.Halt? ==> out.sig.Undefined? || out.sig.OutOfFuel?
    decreases fuel, es
  {
    if es == [] then Value([], st) else
      var (v, t) :- EvalC(cm, fuel, es[0], st);
      var (vs, t') :- EvalCAll(cm, fuel, es[1..], t);
      Value([v] + vs, t')
  }

  predicate IsVoid(cfn: CFn) {
    cfn.returnType == CNamedType("void")
  }

  /**
   * Back in the caller. Without a value only a void function may end (C11 section 6.9.1;
   * a caller that ignores the missing value is outside the fragment).
   */
  function Leave(cfn: CFn, caller: CState, body: Out<CState, ()>): (out: Out<CState, Val>)
    ensures out.st.store == caller.store
    ensures out.Halt? ==> out.sig.Undefined? || out.sig.OutOfFuel?
  {
    var back := caller.(io := body.st.io);
    match body
    case Halt(Returned(Some(v)), _) => Value(v, back)
    case Halt(Returned(None), _) => if IsVoid(cfn) then Value(Q.VOID, back) else Halt(Undefined, back)
    case Value(_, _) => if IsVoid(cfn) then Value(Q.VOID, back) else Halt(Undefined, back)
    case Halt(OutOfFuel, _) => Halt(OutOfFuel, back)
    case Halt(_, _) => Halt(Undefined, back)
  }

  /** The C function entered with the given arguments, up to the end of its body. */
  function RunC(cm: CMachine, fuel: nat, cfn: CFn, vs: seq<Val>, io: seq<Q.Event>): Out<CState, ()>
    requires |vs| == |cfn.params|
    decreases fuel, cfn.body, 1
  {
    ExecList(cm, fuel, cfn.body, CState(Bind(cfn.params, vs), io))
  }

  function Compute(op: COp, v: Val, u: Val, st: CState): (out: Out<CState, Val>)
    ensures out.st == st
    ensures out.Halt? ==> out.sig.Undefined?
  {
    if !v.Int? || !u.Int? || CApply(op, v.n, u.n).None? then Halt(Undefined, st)
    else Value(Int(CApply(op, v.n, u.n).value), st)
  }

  function ComputeUnary(op: CUnaryOp, v: Val, st: CState): (out: Out<CState, Val>)
    ensures out.st == st
    ensures out.Halt? ==> out.sig.Undefined?
  {
    if !v.Int? || CApplyUnary(op, v.n).None? then Halt(Undefined, st)
    else Value(Int(CApplyUnary(op, v.n).value), st)
  }

  /** The names that the declarations directly in a block bring into its scope. */
  function Declared(s: CStmt): set<string> {
    match s
    case CVarDecl(d) => {d.name}
    case CMultiVarDecl(ds) => set d | d in ds :: d.name
    case _ => {}
  }

  function DeclaredIn(ss: seq<CStmt>): set<string> {
    if ss == [] then {} else Declared(ss[0]) + DeclaredIn(ss[1..])
  }

  function LeaveScope(before: CState, out: Out<CState, ()>, names: set<string>): Out<CState, ()> {
    out.(st := out.st.(store := Restore(before.store, out.st.store, names)))
  }

  function ExecDecl(cm: CMachine, fuel: nat, d: CDecl, st: CState): Out<CState, ()>
    decreases fuel, d
  {
    // The scope starts before the initialiser: its own value is still indeterminate.
    var bare := st.(store := st.store - {d.name});
    match d.init
    case None => Value((), bare)
    case Some(e) =>
      var (v, t) :- EvalC(cm, fuel, e, bare);
      Value((), Write(d.name, v, t))
  }

  function ExecDecls(cm: CMachine, fuel: nat, ds: seq<CDecl>, st: CState): Out<CState, ()>
    decreases fuel, ds
  {
    if ds == [] then Value((), st) else
      var (_, t) :- ExecDecl(cm, fuel, ds[0], st);
      ExecDecls(cm, fuel, ds[1..], t)
  }

  function Write(name: string, v: Val, st: CState): CState {
    st.(store := st.store[name := v])
  }

  /** `target op= e` reads the target once (C11 section 6.5.16.2). */
  function Update(op: COp, target: string, v: Val, st: CState): Out<CState, ()> {
    if target !in st.store then Halt(Undefined, st) else
      var (r, t) :- Compute(op, st.store[target], v, st);
      Value((), Write(target, r, t))
  }

  datatype Turn = Next(st: CState) | Exit(out: Out<CState, ()>)

  function AfterBody(body: Out<CState, ()>): Turn {
    match body
    case Value(_, t) => Next(t)
    case Halt(Continued, t) => Next(t)
    case Halt(Broke, t) => Exit(Value((), t))
    case Halt(_, _) => Exit(body)
  }

  /** Whether one of the constant labels equals the scrutinee. */
  function Hits(cm: CMachine, fuel: nat, values: seq<CExpr>, n: int, st: CState): Option<bool>
    decreases fuel, values
  {
    if values == [] then Some(false) else
      match EvalC(cm, fuel, values[0], st) {
        case Value(Int(k), _) => if k == n then Some(true) else Hits(cm, fuel, values[1..], n, st)
        case _ => None
      }
  }

  /** Index of the first case holding the value; one past the last for the default. */
  function PickCase(cm: CMachine, fuel: nat, cases: seq<CSwitchCase>, n: int, st: CState): (k: Option<nat>)
    ensures k.Some? ==> k.value <= |cases|
    decreases fuel, cases
  {
    if cases == [] then Some(0) else
      var hit :- Hits(cm, fuel, cases[0].values, n, st);
      if hit then Some(0) else
        var k :- PickCase(cm, fuel, cases[1..], n, st);
        Some(k + 1)
  }

  /** `break` in a switch leaves the switch (C11 section 6.8.6.3). */
  function LeaveSwitch(body: Out<CState, ()>): Out<CState, ()> {
    if body.Halt? && body.sig.Broke? then Value((), body.st) else body
  }

  function ExecC(cm: CMachine, fuel: nat, s: CStmt, st: CState): Out<CState, ()>
    decreases fuel, s, 3
  {
    match s
    case CVarDecl(d) => ExecDecl(cm, fuel, d, st)
    case CMultiVarDecl(ds) => ExecDecls(cm, fuel, ds, st)
    case CAssign(x, e) =>
      var (v, t) :- EvalC(cm, fuel, e, st);
      Value((), Write(x, v, t))
    case CCompoundAssign(x, op, e) =>
      if x !in st.store then Halt(Undefined, st) else
        var (v, t) :- EvalC(cm, fuel, e, st);
        Update(op, x, v, t)
    case CIncrement(x, up, _) => Update(if up then CAdd else CSub, x, Int(1), st)
    case CReturn(None) => Halt(Returned(None), st)
    case CReturn(Some(e)) =>
      var (v, t) :- EvalC(cm, fuel, e, st);
      Halt(Returned(Some(v)), t)
    case CFor(None, _, _, _) => ForTurns(cm, fuel, s, st)
    case CFor(Some(init), _, _, _) => LeaveScope(st, StartFor(cm, fuel, s, init, st), Declared(init))
    case CIf(c, x, y) =>
      var (v, t) :- TestC(cm, fuel, c, st);
      if v then ExecBlock(cm, fuel, x, t) else ExecBlock(cm, fuel, y, t)
    case CWhile(_, _) => WhileTurns(cm, fuel, s, st)
    case CDoWhile(_, _) => DoWhileTurns(cm, fuel, s, st)
    case CExprStmt(e) =>
      var (_, t) :- EvalC(cm, fuel, e, st);
      Value((), t)
    case CBreak => Halt(Broke, st)
    case CContinue => Halt(Continued, st)
    case CSwitch(scrutinee, _, _) =>
      var (v, t) :- EvalC(cm, fuel, scrutinee, st);
      if v.Int? then RunCase(cm, fuel, s, v.n, t) else Halt(Undefined, t)
    case _ => Halt(Undefined, st)
  }

  function WhileTurns(cm: CMachine, fuel: nat, s: CStmt, st: CState): Out<CState, ()>
    requires s.CWhile?
    decreases fuel, s, 1
  {
    if fuel == 0 then Halt(OutOfFuel, st) else
      var (v, t) :- TestC(cm, fuel, s.cond, st);
      if !v then Value((), t) else (
        match AfterBody(ExecBlock(cm, fuel, s.body, t))
        case Exit(out) => out
        case Next(u) => WhileTurns(cm, fuel - 1, s, u)
      )
  }

  function DoWhileTurns(cm: CMachine, fuel: nat, s: CStmt, st: CState): Out<CState, ()>
    requires s.CDoWhile?
    decreases fuel, s, 1
  {
    if fuel == 0 then Halt(OutOfFuel, st) else (
      match AfterBody(ExecBlock(cm, fuel, s.body, st))
      case Exit(out) => out
      case Next(t) =>
        var (v, u) :- TestC(cm, fuel, s.cond, t);
        if v then DoWhileTurns(cm, fuel - 1, s, u) else Value((), u)
    )
  }

  /** The case for the value of the scrutinee, without fallthrough. */
  function RunCase(cm: CMachine, fuel: nat, s: CStmt, n: int, st: CState): Out<CState, ()>
    requires s.CSwitch?
    decreases fuel, s, 2
  {
    match PickCase(cm, fuel, s.cases, n, st)
    case None => Halt(Undefined, st)
    case Some(k) =>
      LeaveSwitch(ExecBlock(cm, fuel, if k < |s.cases| then s.cases[k].body else s.default, st))
  }

  function StartFor(cm: CMachine, fuel: nat, s: CStmt, init: CStmt, st: CState): Out<CState, ()>
    requires s.CFor? && s.forInit == Some(init)
    decreases fuel, s, 2
  {
    var (_, t) :- ExecC(cm, fuel, init, st);
    ForTurns(cm, fuel, s, t)
  }

  /** The statements of a block without leaving its scope. */
  function ExecList(cm: CMachine, fuel: nat, ss: seq<CStmt>, st: CState): Out<CState, ()>
    decreases fuel, ss, 0
  {
    if ss == [] then Value((), st) else
      var (_, t) :- ExecC(cm, fuel, ss[0], st);
      ExecList(cm, fuel, ss[1..], t)
  }

  function ExecBlock(cm: CMachine, fuel: nat, ss: seq<CStmt>, st: CState): Out<CState, ()>
    decreases fuel, ss, 1
  {
    LeaveScope(st, ExecList(cm, fuel, ss, st), DeclaredIn(ss))
  }

  /** C11 section 6.8.5.3: an absent condition is true, `continue` goes to the step. */
  function ForTurns(cm: CMachine, fuel: nat, s: CStmt, st: CState): Out<CState, ()>
    requires s.CFor?
    decreases fuel, s, 1
  {
    if fuel == 0 then Halt(OutOfFuel, st) else
      var (go, t) :- ForTest(cm, fuel, s, st);
      if !go then Value((), t) else (
        match AfterBody(ExecBlock(cm, fuel, s.body, t))
        case Exit(out) => out
        case Next(u) =>
          match s.inc {
            case None => ForTurns(cm, fuel - 1, s, u)
            case Some(inc) =>
              var (_, v) :- ExecC(cm, fuel, inc, u);
              ForTurns(cm, fuel - 1, s, v)
          }
      )
  }

  function ForTest(cm: CMachine, fuel: nat, s: CStmt, st: CState): Out<CState, bool>
    requires s.CFor?
    decreases fuel, s, 0
  {
    match s.forCond
    case None => Value(true, st)
    case Some(c) => TestC(cm, fuel, c, st)
  }

  function Bind(params: seq<CParam>, vs: seq<Val>): map<string, Val>
    requires |params| == |vs|
  {
    if params == [] then map[]
    else map[params[0].name := vs[0]] + Bind(params[1..], vs[1..])
  }
}
