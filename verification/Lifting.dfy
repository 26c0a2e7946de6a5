/**
 * The quod functions that a C function can be lifted to.
 *
 * C leaves open how some of it is written in quod: which casts are inserted, whether a
 * variable is a parameter or a local, the family of an operator, the scale of an offset,
 * the shape of a tree of `||`. A choice settles these for one node and the nodes below it,
 * and the lifting of a C tree with a choice is one quod tree, or none if they do not fit.
 */
module Lifting {
  import opened Wrappers
  import opened QuodTree
  import opened Arithmetic
  import opened CTree
  import opened LiftCheck

  // ---------- Operators and types ----------

  /** How C writes an operator of any family. */
  function Spelling(op: ArithOp): COp {
    match op
    case Add | Fadd => CAdd
    case Sub | Fsub => CSub
    case Mul | Fmul => CMul
    case Sdiv | Udiv | Fdiv => CDiv
    case Srem | Urem | Frem => CRem
    case Slt | Ult | Flt => CLt
    case Sle | Ule | Fle => CLe
    case Sgt | Ugt | Fgt => CGt
    case Sge | Uge | Fge => CGe
    case Eq | Feq => CEq
    case Ne | Fne => CNe
    case Or => CBitOr
    case And => CBitAnd
    case Xor => CBitXor
    case Shl => CShl
    case Ashr | Lshr => CShr
  }

  /** The operators that update a variable in place. */
  predicate Updates(op: ArithOp) {
    op in {Add, Sub, Mul, Sdiv, Srem, And, Or, Xor, Shl, Ashr}
  }

  /** A struct may get type arguments that C does not show. */
  function LiftType(t: CType, typeArgs: seq<Type>): Option<Type> {
    match t
    case CPointerType(_) => Some(I8Ptr)
    case CStructType(name) => Some(StructType(name, typeArgs))
    case CNamedType(name) => CTypeKind(name)
  }

  // ---------- Expressions ----------

  datatype Choice =
    | Inserted(target: Type, under: Choice)          // a cast that C does not show
    | Exact                                          // a literal
    | Read(local: bool)                              // a variable
    | Constant(name: string)                         // the string constant that holds a text
    | Both(op: BinaryOp, left: Choice, right: Choice)
    | Moved(base: Choice, offset: Offset)            // pointer arithmetic
    | Loaded(typeArgs: seq<Type>, place: Choice)
    | Under(inner: Choice)
    | Implied(width: Type, operand: Choice)          // the literal operand of `-`, `!` and `~`
    | Headed(typeArgs: seq<Type>, fields: seq<string>, args: seq<Choice>)
    | Chosen(widened: Option<Type>, cond: Choice, yes: Choice, no: Choice)

  /** Offsets count bytes: a scaled literal, an index made 64 bits wide, or that times a size. */
  datatype Offset =
    | Scaled(scale: nat)
    | Wide(index: Choice)
    | Times(inner: Offset, size: int)

  function LiftExpr(a: CExpr, k: Choice, cs: Constants): Option<Expr>
    decreases k, 1
  {
    match k
    case Inserted(t, under) =>
      var x :- LiftExpr(a, under, cs);
      Some(Unary(Cast(t), x))
    case Exact => LiftLiteral(a)
    case Read(local) =>
      if a.CVarRef? then Some(Leaf(if local then LocalRef(a.name) else ParamRef(a.name))) else None
    case Constant(name) =>
      if a.CStringLit? && cs.Some? && name in cs.value && cs.value[name] == a.text then Some(Leaf(StringRef(name))) else None
    case Both(op, l, r) =>
      if a.CBinOp? && Writes(op, a.op) then
        var x :- LiftExpr(a.lhs, l, cs);
        var y :- LiftExpr(a.rhs, r, cs);
        Some(Binary(op, x, y))
      else None
    case Moved(_, _) =>
      if IsMove(a) then LiftMove(a, k, cs) else None
    case Loaded(_, _) => LiftLoad(a, k, cs)
    case Under(_) => LiftUnder(a, k, cs)
    case Implied(width, operand) =>
      if !a.CUnary? then None else
        var x :- LiftExpr(a.inner, operand, cs);
        match a.uop {
          case CNeg => Some(Binary(Arith(Sub), Leaf(IntLit(width, 0)), x))
          case CLogNot => Some(Binary(Arith(Eq), x, Leaf(IntLit(width, 0))))
          case CBitNot => Some(Binary(Arith(Xor), x, Leaf(IntLit(width, -1))))
        }
    case Headed(_, _, _) => LiftHeaded(a, k, cs)
    case Chosen(_, _, x, y) =>
      if !a.CTernary? then None else
        var test :- LiftTest(a.cond, k, cs);
        var yes :- LiftExpr(a.thenValue, x, cs);
        var no :- LiftExpr(a.elseValue, y, cs);
        Some(IfExpr(test, yes, no))
  }

  function LiftLiteral(a: CExpr): Option<Expr> {
    match a
    case CIntLit(ty, n) => Some(Leaf(IntLit(ty, n)))
    case CFloatLit(ty, bits) => Some(Leaf(FloatLit(ty, bits)))
    case CEnumConstRef(_, n) => Some(Leaf(IntLit(I32, n)))
    case _ => None
  }

  predicate Writes(op: BinaryOp, cop: COp) {
    match op
    case ScAnd => cop == CLogAnd
    case ScOr => cop == CLogOr
    case Arith(q) => cop == Spelling(q)
    case PtrOffset => false
  }

  /** `p + i`, and `&p[i]` as C11 section 6.5.3.2 reads it. */
  predicate IsMove(a: CExpr) {
    || (a.CBinOp? && a.op == CAdd)
    || (a.CAddressOf? && a.place.CArraySubscript?)
  }

  function MoveBase(a: CExpr): CExpr
    requires IsMove(a)
  {
    if a.CBinOp? then a.lhs else a.place.base
  }

  function MoveIndex(a: CExpr): CExpr
    requires IsMove(a)
  {
    if a.CBinOp? then a.rhs else a.place.index
  }

  function LiftMove(a: CExpr, k: Choice, cs: Constants): Option<Expr>
    requires IsMove(a) && k.Moved?
    decreases k, 0
  {
    var x :- LiftExpr(MoveBase(a), k.base, cs);
    var y :- LiftOffset(MoveIndex(a), k.offset, cs);
    Some(Binary(PtrOffset, x, y))
  }

  /** A scale of 0 passes for a negative literal: the signs of 0 and of a negative number count as equal. */
  function LiftOffset(a: CExpr, k: Offset, cs: Constants): Option<Expr>
    decreases k
  {
    match k
    case Scaled(scale) =>
      if a.CIntLit? && (scale > 0 || a.value < 0) then Some(Leaf(IntLit(I64, a.value * scale))) else None
    case Wide(index) =>
      var x :- LiftExpr(a, index, cs);
      Some(Unary(Cast(I64), x))
    case Times(inner, size) =>
      var x :- LiftOffset(a, inner, cs);
      Some(Binary(Arith(Mul), x, Leaf(IntLit(I64, size))))
  }

  /** `*p`, `p->f`, and `p[i]` as the load from `&p[i]`. */
  function LiftLoad(a: CExpr, k: Choice, cs: Constants): Option<Expr>
    requires k.Loaded?
    decreases k, 0
  {
    match a
    case CDeref(p, t) =>
      var ty :- LiftType(t, k.typeArgs);
      var x :- LiftExpr(p, k.place, cs);
      Some(Unary(Load(ty), x))
    case CFieldArrow(p, structType, field) =>
      var x :- LiftExpr(p, k.place, cs);
      Some(Unary(LoadField(structType, k.typeArgs, field), x))
    case CArraySubscript(_, _, Some(t)) =>
      if !k.place.Moved? then None else
        var ty :- LiftType(t, k.typeArgs);
        var x :- LiftExpr(CAddressOf(a), k.place, cs);
        Some(Unary(Load(ty), x))
    case _ => None
  }

  /** A cast to a named type, and `x.f`. */
  function LiftUnder(a: CExpr, k: Choice, cs: Constants): Option<Expr>
    requires k.Under?
    decreases k, 0
  {
    match a
    case CCast(CNamedType(name), inner) =>
      var ty :- CTypeKind(name);
      var x :- LiftExpr(inner, k.inner, cs);
      Some(Unary(Cast(ty), x))
    case CFieldRead(inner, field) =>
      var x :- LiftExpr(inner, k.inner, cs);
      Some(Unary(FieldRead(field), x))
    case _ => None
  }

  /** Calls and struct initialisers; a positional initialiser may be of any field. */
  function LiftHeaded(a: CExpr, k: Choice, cs: Constants): Option<Expr>
    requires k.Headed?
    decreases k, 0
  {
    match a
    case CCall(callee, args) =>
      var xs :- LiftExprs(args, k.args, cs);
      Some(Nary(Call(callee, k.typeArgs), xs))
    case CStructInit(typeName, inits) =>
      if !NamesFields(inits, k.fields) then None else
        var xs :- LiftExprs(Values(inits), k.args, cs);
        Some(Nary(StructInit(typeName, k.typeArgs, k.fields), xs))
    case _ => None
  }

  predicate NamesFields(inits: seq<CFieldInit>, fields: seq<string>) {
    && |inits| == |fields|
    && forall i :: 0 <= i < |inits| ==> inits[i].name in {None, Some(fields[i])}
  }

  function Values(inits: seq<CFieldInit>): (vs: seq<CExpr>)
    ensures |vs| == |inits| && forall i :: 0 <= i < |inits| ==> vs[i] == inits[i].value
  {
    if inits == [] then [] else [inits[0].value] + Values(inits[1..])
  }

  function LiftExprs(xs: seq<CExpr>, ks: seq<Choice>, cs: Constants): (lifted: Option<seq<Expr>>)
    ensures lifted.Some? ==> |lifted.value| == |xs| == |ks|
    decreases ks
  {
    if |xs| != |ks| then None
    else if xs == [] then Some([])
    else
      var y :- LiftExpr(xs[0], ks[0], cs);
      var ys :- LiftExprs(xs[1..], ks[1..], cs);
      Some([y] + ys)
  }

  /** The condition of `?:`; one that is not a truth value may be compared with zero. */
  function LiftTest(c: CExpr, k: Choice, cs: Constants): Option<Expr>
    requires k.Chosen?
    decreases k, 0
  {
    var x :- LiftExpr(c, k.cond, cs);
    match k.widened
    case None => Some(x)
    case Some(width) => if IsI1Typed(c) then None else Some(Binary(Arith(Ne), x, Leaf(IntLit(width, 0))))
  }

  function LiftInit(a: Option<CExpr>, k: Option<Choice>, cs: Constants): Option<Option<Expr>> {
    match (a, k)
    case (None, None) => Some(None)
    case (Some(x), Some(kx)) =>
      var y :- LiftExpr(x, kx, cs);
      Some(Some(y))
    case _ => None
  }

  // ---------- Statements ----------

  datatype DeclChoice = DeclChoice(typeArgs: seq<Type>, init: Option<Choice>)

  datatype StmtChoice =
    | Declares(decls: seq<DeclChoice>)
    | Plain                                                       // nothing to choose
    | Valued(value: Choice)
    | Updated(op: ArithOp, value: Choice)
    | Stepped(width: Type)
    | Widened(value: Choice, yes: seq<Stmt>, no: seq<Stmt>)       // a `return` of a truth value as an if
    | Looped(cond: Choice, body: seq<StmtChoice>)
    | Counted(init: Option<StmtChoice>, test: Option<Choice>, step: Option<StmtChoice>, body: seq<StmtChoice>)
    | Branched(cond: Choice, thenBody: seq<StmtChoice>, elseBody: seq<StmtChoice>)
    | Stored(typeArgs: seq<Type>, place: Choice, value: Choice)
    | Chained(chain: ChainChoice)

  /** A test of a case: one label, or `||` of tests. */
  datatype Tests =
    | Label(scrutinee: Choice, value: Choice)
    | Either(left: Tests, right: Tests)

  /** One if per case. The chain may end early when nothing is left to run. */
  datatype ChainChoice =
    | NoCase(cond: Expr, yes: seq<Stmt>, default: seq<StmtChoice>)
    | Last(tests: Tests, body: seq<StmtChoice>, default: seq<StmtChoice>)
    | Next(tests: Tests, body: seq<StmtChoice>, rest: ChainChoice)

  function LiftDecl(d: CDecl, k: DeclChoice, cs: Constants): Option<Stmt> {
    var ty :- LiftType(d.ty, k.typeArgs);
    var init :- LiftInit(d.init, k.init, cs);
    Some(Let(d.name, ty, init))
  }

  function LiftDecls(ds: seq<CDecl>, ks: seq<DeclChoice>, cs: Constants): (lifted: Option<seq<Stmt>>)
    ensures lifted.Some? ==> |lifted.value| == |ds| == |ks|
  {
    if |ds| != |ks| then None
    else if ds == [] then Some([])
    else
      var b :- LiftDecl(ds[0], ks[0], cs);
      var bs :- LiftDecls(ds[1..], ks[1..], cs);
      Some([b] + bs)
  }

  function LiftStmt(a: CStmt, k: StmtChoice, cs: Constants): Option<Stmt>
    decreases k, 1
  {
    match k
    case Declares(decls) => if a.CVarDecl? && |decls| == 1 then LiftDecl(a.decl, decls[0], cs) else None
    case Plain => LiftPlain(a)
    case Valued(kv) => LiftValued(a, kv, cs)
    case Updated(op, kv) => LiftUpdate(a, op, kv, cs)
    case Stepped(width) => LiftStep(a, width)
    case Widened(kv, yes, no) => LiftWidened(a, kv, yes, no, cs)
    case Looped(_, _) => LiftLoop(a, k, cs)
    case Counted(_, _, _, _) => LiftFor(a, k, cs)
    case Branched(_, _, _) => LiftIf(a, k, cs)
    case Stored(typeArgs, place, value) => LiftStore(a, typeArgs, place, value, cs)
    case Chained(chain) => if a.CSwitch? then LiftChain(a.scrutinee, a.cases, a.default, chain, cs) else None
  }

  function LiftPlain(a: CStmt): Option<Stmt> {
    match a
    case CReturn(None) => Some(Return)
    case CBreak => Some(Break)
    case CContinue => Some(Continue)
    case _ => None
  }

  function LiftValued(a: CStmt, k: Choice, cs: Constants): Option<Stmt> {
    match a
    case CAssign(x, e) =>
      var y :- LiftExpr(e, k, cs);
      Some(Assign(x, y))
    case CReturn(Some(e)) =>
      var y :- LiftExpr(e, k, cs);
      Some(ReturnExpr(y))
    case CExprStmt(e) =>
      var y :- LiftExpr(e, k, cs);
      Some(ExprStmt(y))
    case _ => None
  }

  /** `x op= e` and `x++` read and write the local of that name. */
  function LiftUpdate(a: CStmt, op: ArithOp, k: Choice, cs: Constants): Option<Stmt> {
    if a.CCompoundAssign? && Updates(op) && a.op == Spelling(op) then
      var x :- LiftExpr(a.value, k, cs);
      Some(Assign(a.target, Binary(Arith(op), Leaf(LocalRef(a.target)), x)))
    else None
  }

  function LiftStep(a: CStmt, width: Type): Option<Stmt> {
    if a.CIncrement? then
      Some(Assign(a.target, Binary(Arith(if a.up then Add else Sub), Leaf(LocalRef(a.target)), Leaf(IntLit(width, 1)))))
    else None
  }

  /** The walk does not look at the branches. */
  function LiftWidened(a: CStmt, k: Choice, yes: seq<Stmt>, no: seq<Stmt>, cs: Constants): Option<Stmt> {
    if a.CReturn? && a.result.Some? && IsI1Typed(a.result.value) then
      var x :- LiftExpr(a.result.value, k, cs);
      Some(If(x, yes, no))
    else None
  }

  /** `*p = e`, `p->f = e`, and `p[i] = e` as the store to `&p[i]`. */
  function LiftStore(a: CStmt, typeArgs: seq<Type>, place: Choice, value: Choice, cs: Constants): Option<Stmt> {
    match a
    case CDerefStore(p, e) =>
      var x :- LiftExpr(p, place, cs);
      var y :- LiftExpr(e, value, cs);
      Some(Store(x, y))
    case CSubscriptStore(base, index, e) =>
      if !place.Moved? then None else
        var x :- LiftExpr(CAddressOf(CArraySubscript(base, index, None)), place, cs);
        var y :- LiftExpr(e, value, cs);
        Some(Store(x, y))
    case CFieldArrowStore(p, structType, field, e) =>
      var x :- LiftExpr(p, place, cs);
      var y :- LiftExpr(e, value, cs);
      Some(StoreField(x, structType, typeArgs, field, y))
    case _ => None
  }

  function LiftLoop(a: CStmt, k: StmtChoice, cs: Constants): Option<Stmt>
    requires k.Looped?
    decreases k, 0
  {
    if !a.CWhile? && !a.CDoWhile? then None else
      var c :- LiftExpr(a.cond, k.cond, cs);
      var bs :- LiftBody(a.body, k.body, cs);
      Some(if a.CWhile? then While(c, bs) else DoWhile(bs, c))
  }

  function LiftIf(a: CStmt, k: StmtChoice, cs: Constants): Option<Stmt>
    requires k.Branched?
    decreases k, 0
  {
    if !a.CIf? then None else
      var c :- LiftExpr(a.cond, k.cond, cs);
      var xs :- LiftBody(a.thenBody, k.thenBody, cs);
      var ys :- LiftBody(a.elseBody, k.elseBody, cs);
      Some(If(c, xs, ys))
  }

  function LiftFor(a: CStmt, k: StmtChoice, cs: Constants): Option<Stmt>
    requires k.Counted?
    decreases k, 0
  {
    if !a.CFor? then None else
      var init :- LiftClause(a.forInit, k.init, cs);
      var test :- LiftInit(a.forCond, k.test, cs);
      var step :- LiftClause(a.inc, k.step, cs);
      var bs :- LiftBody(a.body, k.body, cs);
      Some(CStyleFor(init, test, step, bs))
  }

  function LiftClause(a: Option<CStmt>, k: Option<StmtChoice>, cs: Constants): Option<Option<Stmt>>
    decreases k, 0
  {
    match (a, k)
    case (None, None) => Some(None)
    case (Some(x), Some(kx)) =>
      var b :- LiftStmt(x, kx, cs);
      Some(Some(b))
    case _ => None
  }

  /** A declaration of several variables becomes one statement for each. */
  function LiftBody(xs: seq<CStmt>, ks: seq<StmtChoice>, cs: Constants): Option<seq<Stmt>>
    decreases ks, 0
  {
    if |xs| != |ks| then None
    else if xs == [] then Some([])
    else
      var first :- LiftHead(xs[0], ks[0], cs);
      var rest :- LiftBody(xs[1..], ks[1..], cs);
      Some(first + rest)
  }

  function LiftHead(a: CStmt, k: StmtChoice, cs: Constants): Option<seq<Stmt>>
    decreases k, 2
  {
    if a.CMultiVarDecl? then (if k.Declares? then LiftDecls(a.decls, k.decls, cs) else None)
    else
      var b :- LiftStmt(a, k, cs);
      Some([b])
  }

  function Labels(k: Tests): nat {
    match k
    case Label(_, _) => 1
    case Either(l, r) => Labels(l) + Labels(r)
  }

  /** Any tree of `||` over one test per label, in order. */
  function LiftTests(scrutinee: CExpr, values: seq<CExpr>, k: Tests, cs: Constants): Option<Expr>
    decreases k
  {
    if |values| != Labels(k) then None else
      match k
      case Label(ks, kv) =>
        var x :- LiftExpr(scrutinee, ks, cs);
        var y :- LiftExpr(values[0], kv, cs);
        Some(Binary(Arith(Eq), x, y))
      case Either(l, r) =>
        var x :- LiftTests(scrutinee, values[..Labels(l)], l, cs);
        var y :- LiftTests(scrutinee, values[Labels(l)..], r, cs);
        Some(Binary(ScOr, x, y))
  }

  function LiftChain(scrutinee: CExpr, cases: seq<CSwitchCase>, default: seq<CStmt>, k: ChainChoice, cs: Constants): Option<Stmt>
    decreases k, 0
  {
    match k
    case NoCase(c, yes, kd) =>
      if cases != [] then None else
        var no :- LiftBody(default, kd, cs);
        Some(If(c, yes, no))
    case Last(tests, kb, kd) =>
      if cases == [] then None else
        var c :- LiftTests(scrutinee, cases[0].values, tests, cs);
        var yes :- LiftBody(cases[0].body, kb, cs);
        var no :- LiftBody(default, kd, cs);
        if |cases| == 1 || no == [] then Some(If(c, yes, no)) else None
    case Next(tests, kb, rest) =>
      if |cases| < 2 then None else
        var c :- LiftTests(scrutinee, cases[0].values, tests, cs);
        var yes :- LiftBody(cases[0].body, kb, cs);
        var no :- LiftChain(scrutinee, cases[1..], default, rest, cs);
        Some(If(c, yes, [no]))
  }

  // ---------- Functions ----------

  /** What may stand behind a lifted body. */
  datatype Stub = Nowhere | Bare | Zero(width: Type)

  function StubStmt(stub: Stub): Stmt {
    match stub
    case Nowhere => Unreachable
    case Bare => Return
    case Zero(width) => ReturnExpr(Leaf(IntLit(width, 0)))
  }

  function StubStmts(stubs: seq<Stub>): (bs: seq<Stmt>)
    ensures |bs| == |stubs|
  {
    if stubs == [] then [] else [StubStmt(stubs[0])] + StubStmts(stubs[1..])
  }

  datatype FnChoice = FnChoice(returnArgs: seq<Type>, paramArgs: seq<seq<Type>>, body: seq<StmtChoice>, stubs: seq<Stub>)

  function LiftParams(ps: seq<CParam>, typeArgs: seq<seq<Type>>): Option<seq<Param>> {
    if |ps| != |typeArgs| then None
    else if ps == [] then Some([])
    else
      var ty :- LiftType(ps[0].ty, typeArgs[0]);
      var qs :- LiftParams(ps[1..], typeArgs[1..]);
      Some([Param(ps[0].name, ty)] + qs)
  }

  /** The function is the lifting of the C function with this choice; identity and claims are its own. */
  predicate IsLifting(cfn: CFn, fn: Function, k: FnChoice, cs: Constants) {
    && fn.name == cfn.name
    && LiftType(cfn.returnType, k.returnArgs) == Some(fn.returnType)
    && LiftParams(cfn.params, k.paramArgs) == Some(fn.params)
    && var bs := LiftBody(cfn.body, k.body, cs);
       bs.Some? && fn.body == bs.value + StubStmts(k.stubs)
  }
}
