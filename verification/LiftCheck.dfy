/**
 * The A-to-B lift checker: walks a C function and a quod function in lockstep
 * and accepts the pair or rejects it. `Accepts...` functions say which pairs
 * are accepted; the two walks that the checker writes as loops are the methods
 * `CheckBody` and `CheckSwitchChain`, proved to decide the same pairs.
 */
module LiftCheck {
  import opened Wrappers
  import opened QuodTree
  import opened Arithmetic
  import opened CTree

  /** String constants of the program by name; `None` when no program was supplied. */
  type Constants = Option<map<string, string>>

  /** The supported C type names on a 64-bit Linux target. */
  function CTypeKinds(): map<string, Type> { map[
    "char" := I8, "signed char" := I8, "unsigned char" := U8,
    "short" := I16, "short int" := I16, "signed short" := I16, "signed short int" := I16,
    "unsigned short" := U16, "unsigned short int" := U16,
    "int" := I32, "signed" := I32, "signed int" := I32,
    "unsigned" := U32, "unsigned int" := U32,
    "long" := I64, "long int" := I64, "signed long" := I64, "signed long int" := I64,
    "unsigned long" := U64, "unsigned long int" := U64,
    "long long" := I64, "long long int" := I64, "signed long long" := I64, "signed long long int" := I64,
    "unsigned long long" := U64, "unsigned long long int" := U64,
    "int8_t" := I8, "int16_t" := I16, "int32_t" := I32, "int64_t" := I64,
    "uint8_t" := U8, "uint16_t" := U16, "uint32_t" := U32, "uint64_t" := U64,
    "size_t" := U64, "ssize_t" := I64, "ptrdiff_t" := I64, "intptr_t" := I64, "uintptr_t" := U64,
    "float" := F32, "double" := F64, "void" := Void] }

  function CTypeKind(name: string): Option<Type> {
    if name in CTypeKinds() then Some(CTypeKinds()[name]) else None
  }

  predicate AcceptsType(a: CType, b: Type) {
    match a
    case CPointerType(_) => b == I8Ptr
    case CStructType(name) => b.StructType? && b.name == name
    case CNamedType(name) => CTypeKind(name) == Some(b)
  }

  function SignedOp(op: COp): Option<ArithOp> {
    match op
    case CAdd => Some(Add)
    case CSub => Some(Sub)
    case CMul => Some(Mul)
    case CDiv => Some(Sdiv)
    case CRem => Some(Srem)
    case CLt => Some(Slt)
    case CLe => Some(Sle)
    case CGt => Some(Sgt)
    case CGe => Some(Sge)
    case CEq => Some(Eq)
    case CNe => Some(Ne)
    case CBitOr => Some(Or)
    case CBitAnd => Some(And)
    case CBitXor => Some(Xor)
    case CShl => Some(Shl)
    case CShr => Some(Ashr)
    case CLogAnd | CLogOr | COther(_) => None
  }

  function UnsignedOp(op: COp): Option<ArithOp> {
    match op
    case CDiv => Some(Udiv)
    case CRem => Some(Urem)
    case CLt => Some(Ult)
    case CLe => Some(Ule)
    case CGt => Some(Ugt)
    case CGe => Some(Uge)
    case CShr => Some(Lshr)
    case _ => SignedOp(op)
  }

  function FloatOp(op: COp): Option<ArithOp> {
    match op
    case CAdd => Some(Fadd)
    case CSub => Some(Fsub)
    case CMul => Some(Fmul)
    case CDiv => Some(Fdiv)
    case CRem => Some(Frem)
    case CLt => Some(Flt)
    case CLe => Some(Fle)
    case CGt => Some(Fgt)
    case CGe => Some(Fge)
    case CEq => Some(Feq)
    case CNe => Some(Fne)
    case _ => None
  }

  predicate IsFloatFamily(op: ArithOp) {
    op in {Fadd, Fsub, Fmul, Fdiv, Frem, Flt, Fle, Fgt, Fge, Feq, Fne}
  }

  predicate IsUnsignedFamily(op: ArithOp) {
    op in {Udiv, Urem, Ult, Ule, Ugt, Uge, Lshr}
  }

  /** The quod operator a C operator must be paired with, given the family seen on the quod side. */
  function ExpectedOp(op: COp, seen: ArithOp): Option<ArithOp> {
    if IsFloatFamily(seen) then FloatOp(op)
    else if IsUnsignedFamily(seen) then UnsignedOp(op)
    else SignedOp(op)
  }

  function CompoundOp(op: COp): Option<ArithOp> {
    if op in {CAdd, CSub, CMul, CDiv, CRem, CBitAnd, CBitOr, CBitXor, CShl, CShr} then SignedOp(op) else None
  }

  /** Comparisons, `&&`, `||` and `!` are i1-typed in layer B. */
  predicate IsI1Typed(a: CExpr) {
    || (a.CBinOp? && a.op in {CLt, CLe, CGt, CGe, CEq, CNe, CLogAnd, CLogOr})
    || (a.CUnary? && a.uop == CLogNot)
  }

  predicate IsIntLit(b: Expr, value: int) {
    b.Leaf? && b.leaf.IntLit? && b.leaf.value == value
  }

  predicate AcceptsExpr(a: CExpr, b: Expr, cs: Constants)
    decreases b
  {
    if b.Unary? && b.uop.Cast? then
      if a.CCast? && a.target.CNamedType? && CTypeKind(a.target.name) == Some(b.uop.target)
      then AcceptsExpr(a.inner, b.operand, cs)
      else AcceptsExpr(a, b.operand, cs)
    else match a {
      case CIntLit(ty, n) => b.Leaf? && b.leaf == IntLit(ty, n)
      case CFloatLit(ty, bits) => b.Leaf? && b.leaf == FloatLit(ty, bits)
      case CCast(_, _) => false
      case CEnumConstRef(_, n) => b.Leaf? && b.leaf == IntLit(I32, n)
      case CVarRef(name) => b.Leaf? && (b.leaf == ParamRef(name) || b.leaf == LocalRef(name))
      case CBinOp(op, l, r) =>
        b.Binary? && (
          if op.CLogAnd? then b.bop.ScAnd? && AcceptsExpr(l, b.lhs, cs) && AcceptsExpr(r, b.rhs, cs)
          else if op.CLogOr? then b.bop.ScOr? && AcceptsExpr(l, b.lhs, cs) && AcceptsExpr(r, b.rhs, cs)
          else if op.CAdd? && b.bop.PtrOffset? then
            AcceptsExpr(l, b.lhs, cs) && AcceptsOffset(r, b.rhs, cs)
          else
            && b.bop.Arith?
            && ExpectedOp(op, b.bop.op) == Some(b.bop.op)
            && AcceptsExpr(l, b.lhs, cs)
            && AcceptsExpr(r, b.rhs, cs))
      case CStringLit(text) =>
        b.Leaf? && b.leaf.StringRef? && cs.Some? && b.leaf.name in cs.value && cs.value[b.leaf.name] == text
      case CCall(callee, args) =>
        && b.Nary? && b.nop.Call?
        && b.nop.function_ == callee
        && AcceptsExprs(args, b.args, cs)
      case CTernary(c, x, y) =>
        && b.IfExpr?
        && (AcceptsExpr(c, b.cond, cs) || AcceptsWidened(c, b.cond, cs))
        && AcceptsExpr(x, b.thenValue, cs)
        && AcceptsExpr(y, b.elseValue, cs)
      case CUnary(op, x) =>
        b.Binary? && b.bop.Arith? && (
          match op
          case CNeg => b.bop.op == Sub && IsIntLit(b.lhs, 0) && AcceptsExpr(x, b.rhs, cs)
          case CLogNot => b.bop.op == Eq && IsIntLit(b.rhs, 0) && AcceptsExpr(x, b.lhs, cs)
          case CBitNot => b.bop.op == Xor && IsIntLit(b.rhs, -1) && AcceptsExpr(x, b.lhs, cs))
      case CAddressOf(place) =>
        && b.Binary? && b.bop.PtrOffset? && place.CArraySubscript?
        && AcceptsExpr(place.base, b.lhs, cs) && AcceptsOffset(place.index, b.rhs, cs)
      case CArraySubscript(base, index, elemType) =>
        && elemType.Some?
        && b.Unary? && b.uop.Load? && AcceptsType(elemType.value, b.uop.ty)
        && b.operand.Binary? && b.operand.bop.PtrOffset?
        && AcceptsExpr(base, b.operand.lhs, cs) && AcceptsOffset(index, b.operand.rhs, cs)
      case CDeref(p, ty) => b.Unary? && b.uop.Load? && AcceptsType(ty, b.uop.ty) && AcceptsExpr(p, b.operand, cs)
      case CFieldRead(x, field) => b.Unary? && b.uop == FieldRead(field) && AcceptsExpr(x, b.operand, cs)
      case CFieldArrow(p, structType, field) =>
        && b.Unary? && b.uop.LoadField? && b.uop.structType == structType && b.uop.field == field
        && AcceptsExpr(p, b.operand, cs)
      case CStructInit(typeName, fields) =>
        && b.Nary? && b.nop.StructInit? && b.nop.name == typeName
        && |fields| == |b.args| == |b.nop.fields|
        && (forall i :: 0 <= i < |fields| ==> fields[i].name.None? || fields[i].name.value == b.nop.fields[i])
        && (forall i :: 0 <= i < |fields| ==> AcceptsExpr(fields[i].value, b.args[i], cs))
    }
  }

  predicate AcceptsExprs(xs: seq<CExpr>, ys: seq<Expr>, cs: Constants)
    decreases ys
  {
    && |xs| == |ys|
    && (xs != [] ==> AcceptsExpr(xs[0], ys[0], cs) && AcceptsExprs(xs[1..], ys[1..], cs))
  }

  /** `ne(cond', 0)` around an integer condition of `?:`. */
  predicate AcceptsWidened(c: CExpr, b: Expr, cs: Constants)
    decreases b, 0
  {
    && b.Binary? && b.bop == Arith(Ne) && IsIntLit(b.rhs, 0)
    && !IsI1Typed(c)
    && AcceptsExpr(c, b.lhs, cs)
  }

  /** Pointer offsets are i64: a literal, a cast, or a product with a literal stride. */
  predicate AcceptsOffset(a: CExpr, b: Expr, cs: Constants)
    decreases b
  {
    if b.Leaf? && b.leaf.IntLit? then
      && b.leaf.ty == I64
      && a.CIntLit?
      && (a.value == b.leaf.value
          || (a.value != 0 && b.leaf.value % a.value == 0 && (a.value > 0) == (b.leaf.value > 0)))
    else if b.Unary? && b.uop.Cast? then b.uop.target == I64 && AcceptsExpr(a, b.operand, cs)
    else
      && b.Binary? && b.bop == Arith(Mul)
      && b.rhs.Leaf? && b.rhs.leaf.IntLit? && b.rhs.leaf.ty == I64
      && AcceptsOffset(a, b.lhs, cs)
  }

  predicate AcceptsInit(a: Option<CExpr>, b: Option<Expr>, cs: Constants) {
    match (a, b)
    case (None, None) => true
    case (Some(x), Some(y)) => AcceptsExpr(x, y, cs)
    case _ => false
  }

  predicate AcceptsDecl(d: CDecl, b: Stmt, cs: Constants) {
    b.Let? && d.name == b.name && AcceptsType(d.ty, b.ty) && AcceptsInit(d.init, b.init, cs)
  }

  predicate AcceptsDecls(ds: seq<CDecl>, bs: seq<Stmt>, cs: Constants)
    requires |ds| == |bs|
  {
    forall i :: 0 <= i < |ds| ==> AcceptsDecl(ds[i], bs[i], cs)
  }

  /** `Assign(x, BinOp(op, LocalRef(x), _))`. */
  predicate IsUpdate(b: Stmt, target: string, op: ArithOp) {
    && b.Assign? && b.name == target
    && b.value.Binary? && b.value.bop == Arith(op)
    && b.value.lhs == Leaf(LocalRef(target))
  }

  predicate AcceptsStmt(a: CStmt, b: Stmt, cs: Constants)
    decreases b
  {
    match a
    case CVarDecl(d) => AcceptsDecl(d, b, cs)
    case CMultiVarDecl(_) => false   // paired by the body walk
    case CAssign(x, e) => b.Assign? && b.name == x && AcceptsExpr(e, b.value, cs)
    case CCompoundAssign(x, op, e) =>
      CompoundOp(op).Some? && IsUpdate(b, x, CompoundOp(op).value) && AcceptsExpr(e, b.value.rhs, cs)
    case CIncrement(x, up, _) =>
      IsUpdate(b, x, if up then Add else Sub) && IsIntLit(b.value.rhs, 1)
    case CReturn(None) => b.Return?
    case CReturn(Some(e)) =>
      if b.ReturnExpr? then AcceptsExpr(e, b.value, cs)
      else b.If? && IsI1Typed(e) && AcceptsExpr(e, b.cond, cs)
    case CFor(init, c, inc, body) =>
      && b.CStyleFor?
      && AcceptsInit(c, b.forCond, cs)
      && (match (init, b.forInit)
          case (None, None) => true
          case (Some(x), Some(y)) => AcceptsStmt(x, y, cs)
          case _ => false)
      && (match (inc, b.inc)
          case (None, None) => true
          case (Some(x), Some(y)) => AcceptsStmt(x, y, cs)
          case _ => false)
      && AcceptsBody(body, b.body, cs)
    case CIf(c, x, y) =>
      && b.If?
      && AcceptsExpr(c, b.cond, cs)
      && AcceptsBody(x, b.thenBody, cs)
      && AcceptsBody(y, b.elseBody, cs)
    case CWhile(c, body) => b.While? && AcceptsExpr(c, b.cond, cs) && AcceptsBody(body, b.body, cs)
    case CDoWhile(body, c) => b.DoWhile? && AcceptsBody(body, b.body, cs) && AcceptsExpr(c, b.cond, cs)
    case CSwitch(scrutinee, cases, default) =>
      b.If? && AcceptsChain(scrutinee, cases, default, b, cs)
    case CExprStmt(e) => b.ExprStmt? && AcceptsExpr(e, b.value, cs)
    case CDerefStore(p, e) => b.Store? && AcceptsExpr(p, b.ptr, cs) && AcceptsExpr(e, b.value, cs)
    case CSubscriptStore(base, index, e) =>
      && b.Store? && b.ptr.Binary? && b.ptr.bop.PtrOffset?
      && AcceptsExpr(base, b.ptr.lhs, cs)
      && AcceptsOffset(index, b.ptr.rhs, cs)
      && AcceptsExpr(e, b.value, cs)
    case CFieldArrowStore(p, structType, field, e) =>
      && b.StoreField? && b.structType == structType && b.field == field
      && AcceptsExpr(p, b.ptr, cs)
      && AcceptsExpr(e, b.value, cs)
    case CBreak => b.Break?
    case CContinue => b.Continue?
  }

  /** Number of quod statements that a C statement stands for. */
  function Width(a: CStmt): nat {
    if a.CMultiVarDecl? then |a.decls| else 1
  }

  function TotalWidth(xs: seq<CStmt>): nat {
    if xs == [] then 0 else Width(xs[0]) + TotalWidth(xs[1..])
  }

  /** A declaration of n variables takes n quod statements, everything else takes one. */
  predicate AcceptsBody(xs: seq<CStmt>, bs: seq<Stmt>, cs: Constants)
    decreases bs, |xs|
  {
    if xs == [] then bs == []
    else if xs[0].CMultiVarDecl? then
      var n := |xs[0].decls|;
      n <= |bs| && AcceptsDecls(xs[0].decls, bs[..n], cs) && AcceptsBody(xs[1..], bs[n..], cs)
    else bs != [] && AcceptsStmt(xs[0], bs[0], cs) && AcceptsBody(xs[1..], bs[1..], cs)
  }

  /** A chain of ifs against the cases of a switch, from the if for `cases[0]` on. */
  predicate AcceptsChain(scrutinee: CExpr, cases: seq<CSwitchCase>, default: seq<CStmt>, cur: Stmt, cs: Constants)
    requires cur.If?
    decreases cur, 0
  {
    if cases == [] then AcceptsBody(default, cur.elseBody, cs)
    else
      && AcceptsCaseCond(scrutinee, cases[0].values, cur.cond, cs)
      && AcceptsBody(cases[0].body, cur.thenBody, cs)
      && (if cur.elseBody == [] || |cases| == 1 then AcceptsBody(default, cur.elseBody, cs)
          else
            && |cur.elseBody| == 1 && cur.elseBody[0].If?
            && AcceptsChain(scrutinee, cases[1..], default, cur.elseBody[0], cs))
  }

  /** The leaves of a tree of `||`, left to right. */
  function Disjuncts(b: Expr): seq<Expr> {
    if b.Binary? && b.bop.ScOr? then Disjuncts(b.lhs) + Disjuncts(b.rhs) else [b]
  }

  predicate AcceptsCaseCond(scrutinee: CExpr, values: seq<CExpr>, cond: Expr, cs: Constants) {
    if |values| == 1 then AcceptsCaseEq(scrutinee, values[0], cond, cs)
    else AcceptsCaseEqs(scrutinee, values, Disjuncts(cond), cs)
  }

  predicate AcceptsCaseEqs(scrutinee: CExpr, values: seq<CExpr>, eqs: seq<Expr>, cs: Constants) {
    && |values| == |eqs|
    && forall i :: 0 <= i < |values| ==> AcceptsCaseEq(scrutinee, values[i], eqs[i], cs)
  }

  predicate AcceptsCaseEq(scrutinee: CExpr, value: CExpr, eq: Expr, cs: Constants) {
    && eq.Binary? && eq.bop == Arith(Eq)
    && AcceptsExpr(scrutinee, eq.lhs, cs)
    && AcceptsExpr(value, eq.rhs, cs)
  }

  /** Statements the ingester appends to a body that may fall off its end. */
  predicate IsStub(b: Stmt) {
    b.Unreachable? || b.Return? || (b.ReturnExpr? && IsIntLit(b.value, 0))
  }

  /** How many trailing stubs are popped until `width` statements are left. */
  function KeptLength(bs: seq<Stmt>, width: nat): (k: nat)
    ensures k <= |bs|
    decreases |bs|
  {
    if |bs| > width && IsStub(bs[|bs| - 1]) then KeptLength(bs[..|bs| - 1], width) else |bs|
  }

  predicate AcceptsParams(ps: seq<CParam>, qs: seq<Param>) {
    && |ps| == |qs|
    && forall i :: 0 <= i < |ps| ==> ps[i].name == qs[i].name && AcceptsType(ps[i].ty, qs[i].ty)
  }

  /** The pair that the lift walk accepts. */
  predicate AcceptsFn(cfn: CFn, fn: Function, cs: Constants) {
    && cfn.name == fn.name
    && AcceptsParams(cfn.params, fn.params)
    && AcceptsType(cfn.returnType, fn.returnType)
    && AcceptsBody(cfn.body, fn.body[..KeptLength(fn.body, TotalWidth(cfn.body))], cs)
  }

  /** The stripping loop: pop trailing stubs while the list is longer than the C side needs. */
  method PopStubs(block: seq<Stmt>, width: nat) returns (bs: seq<Stmt>)
    ensures bs == block[..KeptLength(block, width)]
  {
    bs := block;
    while |bs| > width && IsStub(bs[|bs| - 1])
      invariant |bs| <= |block| && bs == block[..|bs|]
      invariant KeptLength(bs, width) == KeptLength(block, width)
    {
      bs := bs[..|bs| - 1];
    }
  }

  method CheckDecls(ds: seq<CDecl>, bs: seq<Stmt>, cs: Constants) returns (ok: bool)
    requires |ds| == |bs|
    ensures ok == AcceptsDecls(ds, bs, cs)
  {
    for j := 0 to |ds|
      invariant forall i :: 0 <= i < j ==> AcceptsDecl(ds[i], bs[i], cs)
    {
      if !AcceptsDecl(ds[j], bs[j], cs) {
        return false;
      }
    }
    ok := true;
  }

  /** The body walk as the checker runs it: pop the stubs, then advance a cursor. */
  method CheckBody(xs: seq<CStmt>, block: seq<Stmt>, cs: Constants, strip: bool) returns (ok: bool)
    ensures ok == AcceptsBody(xs, if strip then block[..KeptLength(block, TotalWidth(xs))] else block, cs)
  {
    var bs := block;
    if strip {
      bs := PopStubs(block, TotalWidth(xs));
    }
    var bi := 0;
    for ai := 0 to |xs|
      invariant 0 <= bi <= |bs|
      invariant AcceptsBody(xs, bs, cs) == AcceptsBody(xs[ai..], bs[bi..], cs)
    {
      assert xs[ai..][0] == xs[ai] && xs[ai..][1..] == xs[ai + 1..];
      if xs[ai].CMultiVarDecl? {
        var n := |xs[ai].decls|;
        if bi + n > |bs| {
          return false;
        }
        assert bs[bi..][n..] == bs[bi + n..] && bs[bi..][..n] == bs[bi..bi + n];
        var same := CheckDecls(xs[ai].decls, bs[bi..bi + n], cs);
        if !same {
          return false;
        }
        bi := bi + n;
      } else {
        if bi >= |bs| || !AcceptsStmt(xs[ai], bs[bi], cs) {
          return false;
        }
        assert bs[bi..][1..] == bs[bi + 1..];
        bi := bi + 1;
      }
    }
    ok := bi == |bs|;
  }

  /** The switch walk as the checker runs it; `walked` counts the cases it has inspected. */
  method CheckSwitchChain(scrutinee: CExpr, cases: seq<CSwitchCase>, default: seq<CStmt>, b: Stmt, cs: Constants)
    returns (ok: bool, walked: nat)
    ensures ok == (b.If? && AcceptsChain(scrutinee, cases, default, b, cs))
    ensures walked <= |cases| && (ok ==> walked == Inspected(cases, b))
  {
    walked := 0;
    if !b.If? {
      return false, 0;
    }
    var cur := b;
    for i := 0 to |cases|
      invariant cur.If? && walked == i
      invariant AcceptsChain(scrutinee, cases, default, b, cs) == AcceptsChain(scrutinee, cases[i..], default, cur, cs)
      invariant Inspected(cases, b) == i + Inspected(cases[i..], cur)
    {
      assert cases[i..][0] == cases[i] && cases[i..][1..] == cases[i + 1..];
      if !AcceptsCaseCond(scrutinee, cases[i].values, cur.cond, cs) {
        return false, walked;
      }
      var same := CheckBody(cases[i].body, cur.thenBody, cs, false);
      if !same {
        return false, walked;
      }
      walked := i + 1;
      if cur.elseBody == [] || i == |cases| - 1 {
        ok := CheckBody(default, cur.elseBody, cs, false);
        return;
      }
      if |cur.elseBody| != 1 || !cur.elseBody[0].If? {
        return false, walked;
      }
      cur := cur.elseBody[0];
    }
    ok := CheckBody(default, cur.elseBody, cs, false);
  }

  /** How many cases the switch walk looks at before it stops at an empty else. */
  function Inspected(cases: seq<CSwitchCase>, cur: Stmt): nat
    requires cur.If?
    decreases cur
  {
    if cases == [] then 0
    else if cur.elseBody == [] || |cases| == 1 || |cur.elseBody| != 1 || !cur.elseBody[0].If? then 1
    else 1 + Inspected(cases[1..], cur.elseBody[0])
  }
}
