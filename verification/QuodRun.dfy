/**
 * Runs of quod programs: a fuel-bounded big-step interpreter.
 *
 * Calls of functions of the program enter a new frame. Everything else that a
 * run cannot compute from its own values (externs, memory, floats, sizes) is
 * answered by `world`, an arbitrary function of the whole history of questions;
 * a memory is one such function. Fuel is spent by loop turns and by entering a
 * function, so a run is cut off, never stuck.
 */
module QuodRun {
  import opened Wrappers
  import opened QuodTree
  import opened Arithmetic
  import opened Runs

  /** What a run may ask the world. */
  datatype Query =
    | Extern(name: string)
    | OfUnary(uop: UnaryOp)
    | OfArith(op: ArithOp)
    | OfOffset
    | OfNary(nop: NaryOp)
    | OfSize(ty: Type)
    | OfFloat(ty: Type, bits: int)
    | OfFieldSet(field: string)
    | OfStore
    | OfStoreField(structType: string, typeArgs: seq<Type>, field: string)
    | OfArena

  datatype Event = Event(query: Query, args: seq<Val>)

  /** One entered function with the values of its parameters. */
  datatype Frame = Frame(callee: string, args: seq<Val>)

  /** `enums` is the payload arity of every declared variant. */
  datatype Machine = Machine(
    functions: map<string, Function>,
    strings: map<string, string>,
    enums: map<string, map<string, nat>>,
    world: seq<Event> -> Val)

  /** The machine runs exactly the functions of the program. */
  ghost predicate IsProgramOf(m: Machine, program: seq<Function>) {
    && (forall f :: f in m.functions ==> m.functions[f] in program && m.functions[f].name == f)
    && (forall fn :: fn in program ==> fn.name in m.functions && m.functions[fn.name] == fn)
  }

  /**
   * Every name of a function has one slot from its entry on; `store` holds the slots that
   * have been written, so a declaration without initialiser does nothing.
   */
  datatype State = State(store: map<string, Val>, io: seq<Event>, frames: seq<Frame>)

  const VOID := Opaque(0)

  function Ask(m: Machine, query: Query, args: seq<Val>, st: State): Out<State, Val> {
    var asked := st.io + [Event(query, args)];
    Value(m.world(asked), st.(io := asked))
  }

  function ReadVar(name: string, st: State): Out<State, Val> {
    if name in st.store then Value(st.store[name], st) else Halt(ReadUnset(name), st)
  }

  function EvalLeaf(m: Machine, leaf: Leaf, st: State): Out<State, Val> {
    match leaf
    case IntLit(_, n) => Value(Int(n), st)
    case FloatLit(ty, bits) => Ask(m, OfFloat(ty, bits), [], st)
    case CharLit(code) => Value(Int(code), st)
    case StringRef(name) => if name in m.strings then Value(Str(m.strings[name]), st) else Halt(Undefined, st)
    case NullPtr => Value(Int(0), st)
    case SizeOf(ty) => Ask(m, OfSize(ty), [], st)
    case ParamRef(name) => ReadVar(name, st)
    case LocalRef(name) => ReadVar(name, st)
    case ReturnRef => Halt(Undefined, st)
  }

  /** Conversion of an integer to an integer type of the given width. */
  function Truncate(n: int, target: Type): Option<int> {
    match target
    case I1 => Some(n % 2)
    case I8 => Some((n + 0x80) % 0x100 - 0x80)
    case U8 => Some(n % 0x100)
    case I16 => Some((n + 0x8000) % 0x1_0000 - 0x8000)
    case U16 => Some(n % 0x1_0000)
    case I32 => Some(Wrap(n))
    case U32 => Some(Unsigned(n))
    case _ => None
  }

  function ApplyUnary(m: Machine, op: UnaryOp, v: Val, st: State): Out<State, Val> {
    match op
    case Not => Value(Int(Bool(!Truthy(v))), st)
    case Try =>
      // The variant with one payload field yields it; the one without returns early.
      if !v.EnumV? then Halt(Undefined, st)
      else if |v.fields| == 1 then Value(v.fields[0], st)
      else if |v.fields| == 0 then Halt(Returned(Some(v)), st)
      else Halt(Undefined, st)
    case Cast(target) =>
      if v.Int? && Truncate(v.n, target).Some? then Value(Int(Truncate(v.n, target).value), st)
      else Ask(m, OfUnary(op), [v], st)
    case _ => Ask(m, OfUnary(op), [v], st)
  }

  predicate IsFloatOp(op: ArithOp) {
    op in {Fadd, Fsub, Fmul, Fdiv, Frem, Feq, Fne, Flt, Fle, Fgt, Fge}
  }

  function ApplyArith(m: Machine, op: ArithOp, l: Val, r: Val, st: State): Out<State, Val> {
    if IsFloatOp(op) then Ask(m, OfArith(op), [l, r], st)
    else if !l.Int? || !r.Int? then Halt(Undefined, st)
    else match QApply(op, l.n, r.n) {
      case None => Halt(Undefined, st)
      case Some(n) => Value(Int(n), st)
    }
  }

  /** Operators with evaluated operands; the program's own functions are entered by `Eval`. */
  function ApplyNary(m: Machine, op: NaryOp, vs: seq<Val>, st: State): Out<State, Val> {
    match op
    case Call(f, _) => Ask(m, Extern(f), vs, st)
    case EnumInit(enum, _, variant, _) => Value(EnumV(enum, variant, vs), st)
    case _ => Ask(m, OfNary(op), vs, st)
  }

  function Bind(names: seq<string>, vs: seq<Val>): map<string, Val>
    requires |names| == |vs|
  {
    if names == [] then map[]
    else map[names[0] := vs[0]] + Bind(names[1..], vs[1..])
  }

  function ParamNames(params: seq<Param>): (names: seq<string>)
    ensures |names| == |params|
  {
    if params == [] then [] else [params[0].name] + ParamNames(params[1..])
  }

  /** Back from a callee's body into the caller's frame. */
  function Leave(caller: State, body: Out<State, ()>): Out<State, Val> {
    var back := caller.(io := body.st.io, frames := body.st.frames);
    match body
    case Value(_, _) => Value(VOID, back)
    case Halt(Returned(v), _) => Value(v.GetOr(VOID), back)
    case Halt(Broke, _) => Halt(Undefined, back)
    case Halt(Continued, _) => Halt(Undefined, back)
    case Halt(sig, _) => Halt(sig, back)
  }

  /** Expressions never change a variable of their own frame and never break or continue a loop. */
  function Eval(m: Machine, fuel: nat, e: Expr, st: State): (out: Out<State, Val>)
    ensures out.st.store == st.store
    ensures out.Halt? ==> !out.sig.Broke? && !out.sig.Continued?
    decreases fuel, e, 2
  {
    match e
    case Leaf(leaf) => EvalLeaf(m, leaf, st)
    case Unary(op, x) =>
      var (v, t) :- Eval(m, fuel, x, st);
      ApplyUnary(m, op, v, t)
    case Binary(_, l, _) =>
      var (v, t) :- Eval(m, fuel, l, st);
      EvalRight(m, fuel, e, v, t)
    case Nary(op, args) =>
      var (vs, t) :- EvalAll(m, fuel, args, st);
      if op.Call? && op.function_ in m.functions then Enter(m, fuel, e, vs, t)
      else ApplyNary(m, op, vs, t)
    case IfExpr(c, x, y) =>
      var (v, t) :- Eval(m, fuel, c, st);
      if Truthy(v) then Eval(m, fuel, x, t) else Eval(m, fuel, y, t)
  }

  /** A binary operator whose left operand has the value `v`. */
  function EvalRight(m: Machine, fuel: nat, e: Expr, v: Val, st: State): (out: Out<State, Val>)
    requires e.Binary?
    ensures out.st.store == st.store
    ensures out.Halt? ==> !out.sig.Broke? && !out.sig.Continued?
    decreases fuel, e, 1
  {
    if e.bop.ScAnd? && !Truthy(v) then Value(Int(0), st)
    else if e.bop.ScOr? && Truthy(v) then Value(Int(1), st)
    else
      var (u, t) :- Eval(m, fuel, e.rhs, st);
      match e.bop
      case PtrOffset => Ask(m, OfOffset, [v, u], t)
      case Arith(op) => ApplyArith(m, op, v, u, t)
      case _ => Value(Int(Bool(Truthy(u))), t)
  }

  /** A call of a function of the program with evaluated arguments. */
  function Enter(m: Machine, fuel: nat, e: Expr, vs: seq<Val>, st: State): (out: Out<State, Val>)
    requires e.Nary? && e.nop.Call? && e.nop.function_ in m.functions
    ensures out.st.store == st.store
    ensures out.Halt? ==> !out.sig.Broke? && !out.sig.Continued?
    decreases fuel, e, 1
  {
    var fn := m.functions[e.nop.function_];
    if |vs| != |fn.params| then Halt(Undefined, st)
    else if fuel == 0 then Halt(OutOfFuel, st)
    else Leave(st, Body(m, fuel - 1, fn, vs, st))
  }

  function EvalAll(m: Machine, fuel: nat, es: seq<Expr>, st: State): (out: Out<State, seq<Val>>)
    ensures out.st.store == st.store
    ensures out.Halt? ==> !out.sig.Broke? && !out.sig.Continued?
    ensures out.Value? ==> |out.value| == |es|
    decreases fuel, es, 0
  {
    if es == [] then Value([], st) else
      var (v, t) :- Eval(m, fuel, es[0], st);
      var (vs, t') :- EvalAll(m, fuel, es[1..], t);
      Value([v] + vs, t')
  }

  /** The body of a function entered with the given arguments. */
  function Body(m: Machine, fuel: nat, fn: Function, vs: seq<Val>, st: State): Out<State, ()>
    requires |vs| == |fn.params|
    decreases fuel, fn.body, 1
  {
    ExecAll(m, fuel, fn.body,
            State(Bind(ParamNames(fn.params), vs), st.io, st.frames + [Frame(fn.name, vs)]))
  }

  function Write(name: string, v: Val, st: State): State {
    st.(store := st.store[name := v])
  }

  /** `break` leaves the loop, `continue` starts the next turn, anything else leaves the run of the loop. */
  datatype Turn = Next(st: State) | Exit(out: Out<State, ()>)

  function AfterBody(body: Out<State, ()>): Turn {
    match body
    case Value(_, t) => Next(t)
    case Halt(Continued, t) => Next(t)
    case Halt(Broke, t) => Exit(Value((), t))
    case Halt(_, _) => Exit(body)
  }

  /** The arm that handles a variant: the first named one, else the first wildcard. */
  function PickArm(arms: seq<MatchArm>, variant: string): (k: Option<nat>)
    ensures k.Some? ==> k.value < |arms|
  {
    var named := FindArm(arms, variant);
    if variant != "_" && named.Some? then named else FindArm(arms, "_")
  }

  function FindArm(arms: seq<MatchArm>, variant: string): (k: Option<nat>)
    ensures k.Some? ==> k.value < |arms| && arms[k.value].variant == variant
    ensures k.None? ==> forall i :: 0 <= i < |arms| ==> arms[i].variant != variant
  {
    if arms == [] then None
    else if arms[0].variant == variant then Some(0)
    else match FindArm(arms[1..], variant) {
      case None => None
      case Some(k) => Some(k + 1)
    }
  }

  /** The value is one of the enum that the scrutinee was inferred to have. */
  predicate InInferredEnum(m: Machine, inferred: Option<string>, v: Val) {
    && v.EnumV?
    && inferred == Some(v.enum)
    && v.enum in m.enums
    && v.variant in m.enums[v.enum]
    && |v.fields| == m.enums[v.enum][v.variant]
  }

  function ArmStore(arm: MatchArm, v: Val, st: State): State
    requires v.EnumV? && |arm.bindings| == |v.fields|
  {
    st.(store := st.store + Bind(arm.bindings, v.fields))
  }

  /** Bindings have slots of their own: the ones they hid reappear behind the arm. */
  function LeaveArm(arm: MatchArm, before: State, out: Out<State, ()>): Out<State, ()> {
    out.(st := out.st.(store := Restore(before.store, out.st.store, Elements(arm.bindings))))
  }

  function Exec(m: Machine, fuel: nat, s: Stmt, st: State): Out<State, ()>
    decreases fuel, s, 3
  {
    match s
    case ReturnExpr(e) =>
      var (v, t) :- Eval(m, fuel, e, st);
      Halt(Returned(Some(v)), t)
    case Return => Halt(Returned(None), st)
    case Unreachable => Halt(Undefined, st)
    case Break => Halt(Broke, st)
    case Continue => Halt(Continued, st)
    case If(c, x, y) =>
      var (v, t) :- Eval(m, fuel, c, st);
      if Truthy(v) then ExecAll(m, fuel, x, t) else ExecAll(m, fuel, y, t)
    case Let(_, _, None) => Value((), st)
    case Let(name, _, Some(e)) =>
      var (v, t) :- Eval(m, fuel, e, st);
      Value((), Write(name, v, t))
    case Assign(name, e) =>
      var (v, t) :- Eval(m, fuel, e, st);
      Value((), Write(name, v, t))
    case While(_, _) => WhileTurns(m, fuel, s, st)
    case DoWhile(_, _) => DoWhileTurns(m, fuel, s, st)
    case For(name, _, lo, hi, body) =>
      var (l, t) :- Eval(m, fuel, lo, st);
      var (h, u) :- Eval(m, fuel, hi, t);
      if !h.Int? then Halt(Undefined, u) else ForTurns(m, fuel, s, h.n, Write(name, l, u))
    case ExprStmt(e) =>
      var (_, t) :- Eval(m, fuel, e, st);
      Value((), t)
    case FieldSet(name, field, e) =>
      var (v, t) :- Eval(m, fuel, e, st);
      // One field alone does not make an unwritten value whole.
      if name !in t.store then Value((), t)
      else
        var (whole, u) :- Ask(m, OfFieldSet(field), [t.store[name], v], t);
        Value((), Write(name, whole, u))
    case Store(p, e) =>
      var (a, t) :- Eval(m, fuel, p, st);
      var (v, u) :- Eval(m, fuel, e, t);
      var (_, w) :- Ask(m, OfStore, [a, v], u);
      Value((), w)
    case StoreField(p, structType, typeArgs, field, e) =>
      var (a, t) :- Eval(m, fuel, p, st);
      var (v, u) :- Eval(m, fuel, e, t);
      var (_, w) :- Ask(m, OfStoreField(structType, typeArgs, field), [a, v], u);
      Value((), w)
    case WithArena(name, capacity, body) =>
      var (c, t) :- Eval(m, fuel, capacity, st);
      var (handle, u) :- Ask(m, OfArena, [c], t);
      ExecAll(m, fuel, body, Write(name, handle, u))
    case Match(scrutinee, _, _) =>
      var (v, t) :- Eval(m, fuel, scrutinee, st);
      if v.EnumV? then RunArm(m, fuel, s, v, t) else Halt(Undefined, t)
    case CStyleFor(None, _, _, _) => CForTurns(m, fuel, s, st)
    case CStyleFor(Some(init), _, _, _) =>
      var (_, t) :- Exec(m, fuel, init, st);
      CForTurns(m, fuel, s, t)
  }

  function WhileTurns(m: Machine, fuel: nat, s: Stmt, st: State): Out<State, ()>
    requires s.While?
    decreases fuel, s, 1
  {
    if fuel == 0 then Halt(OutOfFuel, st) else
      var (v, t) :- Eval(m, fuel, s.cond, st);
      if !Truthy(v) then Value((), t) else (
        match AfterBody(ExecAll(m, fuel, s.body, t))
        case Exit(out) => out
        case Next(u) => WhileTurns(m, fuel - 1, s, u)
      )
  }

  function DoWhileTurns(m: Machine, fuel: nat, s: Stmt, st: State): Out<State, ()>
    requires s.DoWhile?
    decreases fuel, s, 1
  {
    if fuel == 0 then Halt(OutOfFuel, st) else (
      match AfterBody(ExecAll(m, fuel, s.body, st))
      case Exit(out) => out
      case Next(t) =>
        var (v, u) :- Eval(m, fuel, s.cond, t);
        if Truthy(v) then DoWhileTurns(m, fuel - 1, s, u) else Value((), u)
    )
  }

  /** The arm for the value of the scrutinee. */
  function RunArm(m: Machine, fuel: nat, s: Stmt, v: Val, st: State): Out<State, ()>
    requires s.Match? && v.EnumV?
    decreases fuel, s, 1
  {
    match PickArm(s.arms, v.variant)
    case None => Halt(if InInferredEnum(m, s.inferred, v) then NoArm else Undefined, st)
    case Some(k) =>
      var arm := s.arms[k];
      if arm.variant == "_" then ExecAll(m, fuel, arm.body, st)
      else if |arm.bindings| != |v.fields| then
        Halt(if InInferredEnum(m, s.inferred, v) then BadArm else Undefined, st)
      else LeaveArm(arm, st, ExecAll(m, fuel, arm.body, ArmStore(arm, v, st)))
  }

  function ExecAll(m: Machine, fuel: nat, ss: seq<Stmt>, st: State): Out<State, ()>
    decreases fuel, ss, 0
  {
    if ss == [] then Value((), st) else
      var (_, t) :- Exec(m, fuel, ss[0], st);
      ExecAll(m, fuel, ss[1..], t)
  }

  /** Turns of `for name in lo..hi`: the bound is fixed, the loop variable lives in its slot. */
  function ForTurns(m: Machine, fuel: nat, s: Stmt, hi: int, st: State): Out<State, ()>
    requires s.For?
    decreases fuel, s, 1
  {
    if fuel == 0 then Halt(OutOfFuel, st) else
      var (i, _) :- ReadVar(s.name, st);
      if !i.Int? then Halt(Undefined, st)
      else if i.n >= hi then Value((), st)
      else (
        match AfterBody(ExecAll(m, fuel, s.body, st))
        case Exit(out) => out
        case Next(t) =>
          var (j, _) :- ReadVar(s.name, t);
          if !j.Int? then Halt(Undefined, t)
          else ForTurns(m, fuel - 1, s, hi, Write(s.name, Int(Wrap(j.n + 1)), t))
      )
  }

  /** Turns of a C-style for: `continue` still runs the step (C11 section 6.8.6.2). */
  function CForTurns(m: Machine, fuel: nat, s: Stmt, st: State): Out<State, ()>
    requires s.CStyleFor?
    decreases fuel, s, 1
  {
    if fuel == 0 then Halt(OutOfFuel, st) else
      var (go, t) :- CForTest(m, fuel, s, st);
      if !go then Value((), t) else (
        match AfterBody(ExecAll(m, fuel, s.body, t))
        case Exit(out) => out
        case Next(u) =>
          match s.inc {
            case None => CForTurns(m, fuel - 1, s, u)
            case Some(inc) =>
              var (_, w) :- Exec(m, fuel, inc, u);
              CForTurns(m, fuel - 1, s, w)
          }
      )
  }

  function CForTest(m: Machine, fuel: nat, s: Stmt, st: State): Out<State, bool>
    requires s.CStyleFor?
    decreases fuel, s, 0
  {
    match s.forCond
    case None => Value(true, st)
    case Some(c) =>
      var (v, t) :- Eval(m, fuel, c, st);
      Value(Truthy(v), t)
  }

  /** Running a list is running its first part, then the rest. */
  lemma {:induction false} ExecAllSplit(m: Machine, fuel: nat, left: seq<Stmt>, right: seq<Stmt>, st: State)
    ensures ExecAll(m, fuel, left + right, st) ==
            (match ExecAll(m, fuel, left, st)
             case Value(_, t) => ExecAll(m, fuel, right, t)
             case Halt(sig, t) => Halt(sig, t))
  {
    if left == [] {
      assert left + right == right;
    } else {
      assert (left + right)[1..] == left[1..] + right;
      var out := Exec(m, fuel, left[0], st);
      if out.Value? {
        ExecAllSplit(m, fuel, left[1..], right, out.st);
      }
    }
  }
}
