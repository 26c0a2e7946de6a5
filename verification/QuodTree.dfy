/**
 * The typed tree of quod: layer-B and layer-C programs.
 *
 * Expression kinds are grouped by the number of operands they evaluate. One
 * constructor stands for each group and the operator says which node kind it
 * is; the static fields of the node (types, names) are fields of the operator.
 * The fields of a `StructInit` or `EnumInit` are a list of names in the
 * operator and a list of values in `args`. A `Match` also records the enum that the
 * validator infers for its scrutinee, if it can tell; no pass reads that field.
 */
module QuodTree {
  import opened Wrappers

  datatype Type =
    | I1 | I8 | I16 | I32 | I64
    | U8 | U16 | U32 | U64
    | Isize | Usize
    | F32 | F64
    | I8Ptr
    | StructType(name: string, typeArgs: seq<Type>)
    | EnumType(name: string, typeArgs: seq<Type>)
    | TypeParamRef(name: string)
    | SelfType
    | Void

  /** Int types that claims may be attached to. */
  predicate IsIntType(t: Type) {
    t in {I1, I8, I16, I32, I64, U8, U16, U32, U64, Isize, Usize}
  }

  datatype ArithOp =
    | Add | Sub | Mul | Sdiv | Udiv | Srem | Urem
    | Slt | Sle | Sgt | Sge | Eq | Ne
    | Ult | Ule | Ugt | Uge
    | Or | And | Xor
    | Shl | Ashr | Lshr
    | Fadd | Fsub | Fmul | Fdiv | Frem
    | Feq | Fne | Flt | Fle | Fgt | Fge

  datatype Leaf =
    | IntLit(ty: Type, value: int)
    | FloatLit(ty: Type, bits: int)
    | CharLit(code: int)
    | StringRef(name: string)
    | NullPtr
    | SizeOf(ty: Type)
    | ParamRef(name: string)
    | LocalRef(name: string)
    | ReturnRef

  datatype UnaryOp =
    | Not
    | FNeg
    | Cast(target: Type)
    | Load(ty: Type)
    | LoadField(structType: string, typeArgs: seq<Type>, field: string)
    | FieldRead(field: string)
    | Try

  datatype BinaryOp =
    | Arith(op: ArithOp)
    | PtrOffset
    | ScAnd
    | ScOr

  datatype NaryOp =
    | Call(function_: string, typeArgs: seq<Type>)
    | TraitCall(trt: string, method_: string, dispatch: Type)
    | StructInit(name: string, typeArgs: seq<Type>, fields: seq<string>)
    | EnumInit(name: string, typeArgs: seq<Type>, variant: string, fields: seq<string>)

  datatype Expr =
    | Leaf(leaf: Leaf)
    | Unary(uop: UnaryOp, operand: Expr)
    | Binary(bop: BinaryOp, lhs: Expr, rhs: Expr)
    | Nary(nop: NaryOp, args: seq<Expr>)
    | IfExpr(cond: Expr, thenValue: Expr, elseValue: Expr)

  datatype Stmt =
    | ReturnExpr(value: Expr)
    | Return
    | Unreachable
    | Break
    | Continue
    | If(cond: Expr, thenBody: seq<Stmt>, elseBody: seq<Stmt>)
    | Let(name: string, ty: Type, init: Option<Expr>)
    | Assign(name: string, value: Expr)
    | While(cond: Expr, body: seq<Stmt>)
    | DoWhile(body: seq<Stmt>, cond: Expr)
    | For(name: string, ty: Type, lo: Expr, hi: Expr, body: seq<Stmt>)
    | ExprStmt(value: Expr)
    | FieldSet(name: string, field: string, value: Expr)
    | Store(ptr: Expr, value: Expr)
    | StoreField(ptr: Expr, structType: string, typeArgs: seq<Type>, field: string, value: Expr)
    | WithArena(name: string, capacity: Expr, body: seq<Stmt>)
    | Match(scrutinee: Expr, inferred: Option<string>, arms: seq<MatchArm>)
    | CStyleFor(forInit: Option<Stmt>, forCond: Option<Expr>, inc: Option<Stmt>, body: seq<Stmt>)

  datatype MatchArm = MatchArm(variant: string, bindings: seq<string>, body: seq<Stmt>)

  datatype TypeParam = TypeParam(name: string, bound: Option<string>)

  datatype Param = Param(name: string, ty: Type)

  datatype Function = Function(
    id: string,
    name: string,
    typeParams: seq<TypeParam>,
    params: seq<Param>,
    returnType: Type,
    body: seq<Stmt>,
    claims: seq<Claim>,
    notes: seq<string>)

  /** A predicate over parameters or the return value, with its metadata. */
  datatype Claim = Claim(expr: Expr, regime: string, enforcement: string, justification: string)

  datatype ExternFunction = ExternFunction(
    name: string,
    paramTypes: seq<Type>,
    returnType: Type,
    varargs: bool,
    linkage: string,
    claims: seq<Claim>)

  datatype StructDef = StructDef(name: string, typeParams: seq<TypeParam>, fields: seq<Param>)

  datatype EnumVariant = EnumVariant(name: string, fields: seq<Param>)

  datatype EnumDef = EnumDef(name: string, typeParams: seq<TypeParam>, variants: seq<EnumVariant>)

  datatype ImplDef = ImplDef(trt: string, typeParams: seq<TypeParam>, forType: Type, methods: seq<Function>)

  datatype TraitDef = TraitDef(name: string, methods: seq<string>)

  datatype StringConstant = StringConstant(name: string, value: string)

  predicate HasBody(s: Stmt) {
    s.If? || s.While? || s.DoWhile? || s.For? || s.WithArena? || s.Match? || s.CStyleFor?
  }
}
