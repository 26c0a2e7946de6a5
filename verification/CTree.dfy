/** Layer A: the C program as its source is written. */
module CTree {
  import opened Wrappers
  import opened QuodTree
  import opened Arithmetic

  datatype CType =
    | CNamedType(name: string)
    | CPointerType(pointee: CType)
    | CStructType(name: string)

  datatype CExpr =
    | CIntLit(ty: Type, value: int)
    | CFloatLit(ty: Type, bits: int)
    | CCast(target: CType, inner: CExpr)
    | CVarRef(name: string)
    | CEnumConstRef(name: string, value: int)
    | CBinOp(op: COp, lhs: CExpr, rhs: CExpr)
    | CStringLit(text: string)
    | CCall(callee: string, args: seq<CExpr>)
    | CArraySubscript(base: CExpr, index: CExpr, elemType: Option<CType>)
    | CAddressOf(place: CExpr)
    | CDeref(operand: CExpr, loadType: CType)
    | CStructInit(typeName: string, fields: seq<CFieldInit>)
    | CFieldRead(inner: CExpr, field: string)
    | CFieldArrow(ptr: CExpr, structType: string, field: string)
    | CUnary(uop: CUnaryOp, inner: CExpr)
    | CTernary(cond: CExpr, thenValue: CExpr, elseValue: CExpr)

  /** A positional initialiser has no name. */
  datatype CFieldInit = CFieldInit(name: Option<string>, value: CExpr)

  datatype CStmt =
    | CVarDecl(decl: CDecl)
    | CMultiVarDecl(decls: seq<CDecl>)
    | CAssign(target: string, value: CExpr)
    | CCompoundAssign(target: string, op: COp, value: CExpr)
    | CIncrement(target: string, up: bool, post: bool)
    | CReturn(result: Option<CExpr>)
    | CFor(forInit: Option<CStmt>, forCond: Option<CExpr>, inc: Option<CStmt>, body: seq<CStmt>)
    | CIf(cond: CExpr, thenBody: seq<CStmt>, elseBody: seq<CStmt>)
    | CWhile(cond: CExpr, body: seq<CStmt>)
    | CDoWhile(body: seq<CStmt>, cond: CExpr)
    | CExprStmt(value: CExpr)
    | CDerefStore(operand: CExpr, value: CExpr)
    | CSubscriptStore(base: CExpr, index: CExpr, value: CExpr)
    | CFieldArrowStore(ptr: CExpr, structType: string, field: string, value: CExpr)
    | CBreak
    | CContinue
    | CSwitch(scrutinee: CExpr, cases: seq<CSwitchCase>, default: seq<CStmt>)   // no `default:` is an empty one

  datatype CDecl = CDecl(ty: CType, name: string, init: Option<CExpr>)

  /** Stacked labels share one body; the body ends without falling into the next case. */
  datatype CSwitchCase = CSwitchCase(values: seq<CExpr>, body: seq<CStmt>)

  datatype CParam = CParam(name: string, ty: CType)

  datatype CFn = CFn(id: string, name: string, returnType: CType, params: seq<CParam>, body: seq<CStmt>)
}
