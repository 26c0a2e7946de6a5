/**
 * Type substitution through expressions and statements: a rebuilt copy of the tree
 * with a type function applied at each position that holds a type.
 */
module Substitution {
  import opened Wrappers
  import opened QuodTree

  type TypeFn = Type -> Type

  function Same(t: Type): Type {
    t
  }

  // ---------- The walker ----------

  function SubstLeaf(leaf: Leaf, f: TypeFn): Leaf {
    match leaf
    case IntLit(ty, n) => IntLit(f(ty), n)
    case FloatLit(ty, bits) => FloatLit(f(ty), bits)
    case SizeOf(ty) => SizeOf(f(ty))
    case _ => leaf
  }

  function SubstUnary(op: UnaryOp, f: TypeFn): UnaryOp {
    match op
    case Cast(target) => Cast(f(target))
    case Load(ty) => Load(f(ty))
    case LoadField(structType, typeArgs, field) => LoadField(structType, Each(typeArgs, f), field)
    case _ => op
  }

  function SubstNary(op: NaryOp, f: TypeFn): NaryOp {
    match op
    case Call(callee, typeArgs) => Call(callee, Each(typeArgs, f))
    case TraitCall(trt, name, dispatch) => TraitCall(trt, name, f(dispatch))
    case StructInit(name, typeArgs, fields) => StructInit(name, Each(typeArgs, f), fields)
    case EnumInit(name, typeArgs, variant, fields) => EnumInit(name, Each(typeArgs, f), variant, fields)
  }

  /** `None` where the walker has no case for a node. */
  function SubstExpr(e: Expr, f: TypeFn): Option<Expr> {
    match e
    case Leaf(leaf) => Some(Leaf(SubstLeaf(leaf, f)))
    case Unary(op, x) =>
      var x' :- SubstExpr(x, f);
      Some(Unary(SubstUnary(op, f), x'))
    case Binary(op, l, r) =>
      var l' :- SubstExpr(l, f);
      var r' :- SubstExpr(r, f);
      Some(Binary(op, l', r'))
    case Nary(op, args) =>
      var args' :- SubstExprs(args, f);
      Some(Nary(SubstNary(op, f), args'))
    case IfExpr(_, _, _) => None
  }

  function SubstExprs(es: seq<Expr>, f: TypeFn): Option<seq<Expr>> {
    if es == [] then Some([]) else
      var e' :- SubstExpr(es[0], f);
      var rest :- SubstExprs(es[1..], f);
      Some([e'] + rest)
  }

  /** The type of a `For` variable is not rewritten. */
  function SubstStmt(s: Stmt, f: TypeFn): Option<Stmt>
    decreases s
  {
    match s
    case ReturnExpr(e) =>
      var e' :- SubstExpr(e, f);
      Some(ReturnExpr(e'))
    case If(c, x, y) =>
      var c' :- SubstExpr(c, f);
      var x' :- SubstStmts(x, f);
      var y' :- SubstStmts(y, f);
      Some(If(c', x', y'))
    case Let(name, ty, None) => Some(Let(name, f(ty), None))
    case Let(name, ty, Some(e)) =>
      var e' :- SubstExpr(e, f);
      Some(Let(name, f(ty), Some(e')))
    case Assign(name, e) =>
      var e' :- SubstExpr(e, f);
      Some(Assign(name, e'))
    case While(c, body) =>
      var c' :- SubstExpr(c, f);
      var body' :- SubstStmts(body, f);
      Some(While(c', body'))
    case DoWhile(body, c) =>
      var c' :- SubstExpr(c, f);
      var body' :- SubstStmts(body, f);
      Some(DoWhile(body', c'))
    case For(name, ty, lo, hi, body) =>
      var lo' :- SubstExpr(lo, f);
      var hi' :- SubstExpr(hi, f);
      var body' :- SubstStmts(body, f);
      Some(For(name, ty, lo', hi', body'))
    case ExprStmt(e) =>
      var e' :- SubstExpr(e, f);
      Some(ExprStmt(e'))
    case FieldSet(name, field, e) =>
      var e' :- SubstExpr(e, f);
      Some(FieldSet(name, field, e'))
    case Store(p, e) =>
      var p' :- SubstExpr(p, f);
      var e' :- SubstExpr(e, f);
      Some(Store(p', e'))
    case StoreField(p, structType, typeArgs, field, e) =>
      var p' :- SubstExpr(p, f);
      var e' :- SubstExpr(e, f);
      Some(StoreField(p', structType, Each(typeArgs, f), field, e'))
    case WithArena(name, capacity, body) =>
      var capacity' :- SubstExpr(capacity, f);
      var body' :- SubstStmts(body, f);
      Some(WithArena(name, capacity', body'))
    case Match(scrutinee, inferred, arms) =>
      var scrutinee' :- SubstExpr(scrutinee, f);
      var arms' :- SubstArms(arms, f);
      Some(Match(scrutinee', inferred, arms'))
    case CStyleFor(_, _, _, _) => None
    case _ => Some(s)
  }

  function SubstStmts(ss: seq<Stmt>, f: TypeFn): Option<seq<Stmt>>
    decreases ss
  {
    if ss == [] then Some([]) else
      var s' :- SubstStmt(ss[0], f);
      var rest :- SubstStmts(ss[1..], f);
      Some([s'] + rest)
  }

  function SubstArms(arms: seq<MatchArm>, f: TypeFn): Option<seq<MatchArm>>
    decreases arms
  {
    if arms == [] then Some([]) else
      var body' :- SubstStmts(arms[0].body, f);
      var rest :- SubstArms(arms[1..], f);
      Some([MatchArm(arms[0].variant, arms[0].bindings, body')] + rest)
  }

  // ---------- Nodes with a case ----------

  predicate Handled(e: Expr) {
    match e
    case Leaf(_) => true
    case Unary(_, x) => Handled(x)
    case Binary(_, l, r) => Handled(l) && Handled(r)
    case Nary(_, args) => forall i :: 0 <= i < |args| ==> Handled(args[i])
    case IfExpr(_, _, _) => false
  }

  predicate HandledStmt(s: Stmt)
    decreases s
  {
    match s
    case ReturnExpr(e) => Handled(e)
    case If(c, x, y) => Handled(c) && HandledAll(x) && HandledAll(y)
    case Let(_, _, init) => init.None? || Handled(init.value)
    case Assign(_, e) => Handled(e)
    case While(c, body) => Handled(c) && HandledAll(body)
    case DoWhile(body, c) => Handled(c) && HandledAll(body)
    case For(_, _, lo, hi, body) => Handled(lo) && Handled(hi) && HandledAll(body)
    case ExprStmt(e) => Handled(e)
    case FieldSet(_, _, e) => Handled(e)
    case Store(p, e) => Handled(p) && Handled(e)
    case StoreField(p, _, _, _, e) => Handled(p) && Handled(e)
    case WithArena(_, capacity, body) => Handled(capacity) && HandledAll(body)
    case Match(scrutinee, _, arms) => Handled(scrutinee) && forall i :: 0 <= i < |arms| ==> HandledAll(arms[i].body)
    case CStyleFor(_, _, _, _) => false
    case _ => true
  }

  predicate HandledAll(ss: seq<Stmt>)
    decreases ss
  {
    forall i :: 0 <= i < |ss| ==> HandledStmt(ss[i])
  }

  lemma {:induction false} ExprSubstitutes(e: Expr, f: TypeFn)
    ensures SubstExpr(e, f).Some? <==> Handled(e)
  {
    match e {
      case Leaf(_) =>
      case Unary(_, x) => ExprSubstitutes(x, f);
      case Binary(_, l, r) =>
        ExprSubstitutes(l, f);
        ExprSubstitutes(r, f);
      case Nary(_, args) => ExprsSubstitute(args, f);
      case IfExpr(_, _, _) =>
    }
  }

  lemma {:induction false} ExprsSubstitute(es: seq<Expr>, f: TypeFn)
    ensures SubstExprs(es, f).Some? <==> forall i :: 0 <= i < |es| ==> Handled(es[i])
  {
    if es != [] {
      ExprSubstitutes(es[0], f);
      ExprsSubstitute(es[1..], f);
      assert forall i :: 1 <= i < |es| ==> es[i] == es[1..][i - 1];
    }
  }

  lemma {:induction false} StmtSubstitutes(s: Stmt, f: TypeFn)
    ensures SubstStmt(s, f).Some? <==> HandledStmt(s)
    decreases s
  {
    match s {
      case ReturnExpr(e) => ExprSubstitutes(e, f);
      case If(c, x, y) =>
        ExprSubstitutes(c, f);
        Substitutes(x, f);
        Substitutes(y, f);
      case Let(_, _, Some(e)) => ExprSubstitutes(e, f);
      case Assign(_, e) => ExprSubstitutes(e, f);
      case While(c, body) =>
        ExprSubstitutes(c, f);
        Substitutes(body, f);
      case DoWhile(body, c) =>
        ExprSubstitutes(c, f);
        Substitutes(body, f);
      case For(_, _, lo, hi, body) =>
        ExprSubstitutes(lo, f);
        ExprSubstitutes(hi, f);
        Substitutes(body, f);
      case ExprStmt(e) => ExprSubstitutes(e, f);
      case FieldSet(_, _, e) => ExprSubstitutes(e, f);
      case Store(p, e) =>
        ExprSubstitutes(p, f);
        ExprSubstitutes(e, f);
      case StoreField(p, _, _, _, e) =>
        ExprSubstitutes(p, f);
        ExprSubstitutes(e, f);
      case WithArena(_, capacity, body) =>
        ExprSubstitutes(capacity, f);
        Substitutes(body, f);
      case Match(scrutinee, _, arms) =>
        ExprSubstitutes(scrutinee, f);
        ArmsSubstitute(arms, f);
      case _ =>
    }
  }

  /** Substitution succeeds exactly on trees without an `IfExpr` or a C-style for. */
  lemma {:induction false} Substitutes(ss: seq<Stmt>, f: TypeFn)
    ensures SubstStmts(ss, f).Some? <==> HandledAll(ss)
    decreases ss
  {
    if ss != [] {
      StmtSubstitutes(ss[0], f);
      Substitutes(ss[1..], f);
      assert forall i :: 1 <= i < |ss| ==> ss[i] == ss[1..][i - 1];
    }
  }

  lemma {:induction false} ArmsSubstitute(arms: seq<MatchArm>, f: TypeFn)
    ensures SubstArms(arms, f).Some? <==> forall i :: 0 <= i < |arms| ==> HandledAll(arms[i].body)
    decreases arms
  {
    if arms != [] {
      Substitutes(arms[0].body, f);
      ArmsSubstitute(arms[1..], f);
      assert forall i :: 1 <= i < |arms| ==> arms[i] == arms[1..][i - 1];
    }
  }

  // ---------- The types that are rewritten ----------

  function LeafTypes(leaf: Leaf): seq<Type> {
    match leaf
    case IntLit(ty, _) => [ty]
    case FloatLit(ty, _) => [ty]
    case SizeOf(ty) => [ty]
    case _ => []
  }

  function UnaryTypes(op: UnaryOp): seq<Type> {
    match op
    case Cast(target) => [target]
    case Load(ty) => [ty]
    case LoadField(_, typeArgs, _) => typeArgs
    case _ => []
  }

  function NaryTypes(op: NaryOp): seq<Type> {
    match op
    case Call(_, typeArgs) => typeArgs
    case TraitCall(_, _, dispatch) => [dispatch]
    case StructInit(_, typeArgs, _) => typeArgs
    case EnumInit(_, typeArgs, _, _) => typeArgs
  }

  function ExprTypes(e: Expr): seq<Type> {
    match e
    case Leaf(leaf) => LeafTypes(leaf)
    case Unary(op, x) => UnaryTypes(op) + ExprTypes(x)
    case Binary(_, l, r) => ExprTypes(l) + ExprTypes(r)
    case Nary(op, args) => NaryTypes(op) + ExprsTypes(args)
    case IfExpr(c, x, y) => ExprTypes(c) + ExprTypes(x) + ExprTypes(y)
  }

  function ExprsTypes(es: seq<Expr>): seq<Type> {
    if es == [] then [] else ExprTypes(es[0]) + ExprsTypes(es[1..])
  }

  function StmtTypes(s: Stmt): seq<Type>
    decreases s
  {
    match s
    case ReturnExpr(e) => ExprTypes(e)
    case If(c, x, y) => ExprTypes(c) + Types(x) + Types(y)
    case Let(_, ty, None) => [ty]
    case Let(_, ty, Some(e)) => [ty] + ExprTypes(e)
    case Assign(_, e) => ExprTypes(e)
    case While(c, body) => ExprTypes(c) + Types(body)
    case DoWhile(body, c) => ExprTypes(c) + Types(body)
    case For(_, _, lo, hi, body) => ExprTypes(lo) + ExprTypes(hi) + Types(body)
    case ExprStmt(e) => ExprTypes(e)
    case FieldSet(_, _, e) => ExprTypes(e)
    case Store(p, e) => ExprTypes(p) + ExprTypes(e)
    case StoreField(p, _, typeArgs, _, e) => ExprTypes(p) + typeArgs + ExprTypes(e)
    case WithArena(_, capacity, body) => ExprTypes(capacity) + Types(body)
    case Match(scrutinee, _, arms) => ExprTypes(scrutinee) + ArmTypes(arms)
    case _ => []
  }

  function Types(ss: seq<Stmt>): seq<Type>
    decreases ss
  {
    if ss == [] then [] else StmtTypes(ss[0]) + Types(ss[1..])
  }

  function ArmTypes(arms: seq<MatchArm>): seq<Type>
    decreases arms
  {
    if arms == [] then [] else Types(arms[0].body) + ArmTypes(arms[1..])
  }

  // ---------- One induction for all laws ----------

  /**
   * What two substitutions in a row do, what a function that agrees on the rewritten
   * types does, and which types come out.
   */
  ghost predicate LawfulExpr(e: Expr, f: TypeFn, g: TypeFn, h: TypeFn) {
    var once := SubstExpr(e, f);
    once.Some? ==>
      && (Agree(ExprTypes(e), f, g, h) ==> SubstExpr(once.value, g) == SubstExpr(e, h))
      && ExprTypes(once.value) == Each(ExprTypes(e), f)
  }

  /** `h` is `f` then `g` on the given types. */
  predicate Agree(ts: seq<Type>, f: TypeFn, g: TypeFn, h: TypeFn) {
    ts == [] || (h(ts[0]) == g(f(ts[0])) && Agree(ts[1..], f, g, h))
  }

  lemma {:induction false} AgreeOnEach(ts: seq<Type>, f: TypeFn, g: TypeFn, h: TypeFn)
    requires forall t :: t in ts ==> h(t) == g(f(t))
    ensures Agree(ts, f, g, h)
  {
    if ts != [] {
      AgreeOnEach(ts[1..], f, g, h);
    }
  }

  lemma {:induction false} Concat(a: seq<Type>, b: seq<Type>, f: TypeFn, g: TypeFn, h: TypeFn)
    ensures Each(a + b, f) == Each(a, f) + Each(b, f)
    ensures Agree(a + b, f, g, h) <==> Agree(a, f, g, h) && Agree(b, f, g, h)
  {
    if a == [] {
      assert a + b == b;
    } else {
      assert (a + b)[1..] == a[1..] + b;
      Concat(a[1..], b, f, g, h);
    }
  }

  lemma {:induction false} EachTwice(ts: seq<Type>, f: TypeFn, g: TypeFn, h: TypeFn)
    requires Agree(ts, f, g, h)
    ensures Each(Each(ts, f), g) == Each(ts, h)
  {
    if ts != [] {
      EachTwice(ts[1..], f, g, h);
      assert Each(ts, f)[1..] == Each(ts[1..], f);
    }
  }

  lemma {:induction false} LeafLaws(leaf: Leaf, f: TypeFn, g: TypeFn, h: TypeFn)
    ensures Agree(LeafTypes(leaf), f, g, h) ==> SubstLeaf(SubstLeaf(leaf, f), g) == SubstLeaf(leaf, h)
    ensures LeafTypes(SubstLeaf(leaf, f)) == Each(LeafTypes(leaf), f)
  {}

  lemma {:induction false} UnaryLaws(op: UnaryOp, f: TypeFn, g: TypeFn, h: TypeFn)
    ensures Agree(UnaryTypes(op), f, g, h) ==> SubstUnary(SubstUnary(op, f), g) == SubstUnary(op, h)
    ensures UnaryTypes(SubstUnary(op, f)) == Each(UnaryTypes(op), f)
  {
    if Agree(UnaryTypes(op), f, g, h) {
      EachTwice(UnaryTypes(op), f, g, h);
    }
  }

  lemma {:induction false} NaryLaws(op: NaryOp, f: TypeFn, g: TypeFn, h: TypeFn)
    ensures Agree(NaryTypes(op), f, g, h) ==> SubstNary(SubstNary(op, f), g) == SubstNary(op, h)
    ensures NaryTypes(SubstNary(op, f)) == Each(NaryTypes(op), f)
  {
    if Agree(NaryTypes(op), f, g, h) {
      EachTwice(NaryTypes(op), f, g, h);
    }
  }

  ghost predicate LawfulExprs(es: seq<Expr>, f: TypeFn, g: TypeFn, h: TypeFn) {
    var once := SubstExprs(es, f);
    once.Some? ==>
      && (Agree(ExprsTypes(es), f, g, h) ==> SubstExprs(once.value, g) == SubstExprs(es, h))
      && ExprsTypes(once.value) == Each(ExprsTypes(es), f)
  }

  lemma {:induction false} ExprLaws(e: Expr, f: TypeFn, g: TypeFn, h: TypeFn)
    ensures LawfulExpr(e, f, g, h)
  {
    match e {
      case Leaf(leaf) => LeafLaws(leaf, f, g, h);
      case Unary(_, x) =>
        ExprLaws(x, f, g, h);
        UnaryExprLaws(e, f, g, h);
      case Binary(_, l, r) =>
        ExprLaws(l, f, g, h);
        ExprLaws(r, f, g, h);
        BinaryExprLaws(e, f, g, h);
      case Nary(_, args) =>
        ExprsLaws(args, f, g, h);
        NaryExprLaws(e, f, g, h);
      case IfExpr(_, _, _) =>
    }
  }

  lemma {:induction false} UnaryExprLaws(e: Expr, f: TypeFn, g: TypeFn, h: TypeFn)
    requires e.Unary? && LawfulExpr(e.operand, f, g, h)
    ensures LawfulExpr(e, f, g, h)
  {
    UnaryLaws(e.uop, f, g, h);
    Concat(UnaryTypes(e.uop), ExprTypes(e.operand), f, g, h);
  }

  lemma {:induction false} BinaryExprLaws(e: Expr, f: TypeFn, g: TypeFn, h: TypeFn)
    requires e.Binary? && LawfulExpr(e.lhs, f, g, h) && LawfulExpr(e.rhs, f, g, h)
    ensures LawfulExpr(e, f, g, h)
  {
    Concat(ExprTypes(e.lhs), ExprTypes(e.rhs), f, g, h);
  }

  lemma {:induction false} NaryExprLaws(e: Expr, f: TypeFn, g: TypeFn, h: TypeFn)
    requires e.Nary? && LawfulExprs(e.args, f, g, h)
    ensures LawfulExpr(e, f, g, h)
  {
    NaryLaws(e.nop, f, g, h);
    Concat(NaryTypes(e.nop), ExprsTypes(e.args), f, g, h);
  }

  lemma {:induction false} ExprsLaws(es: seq<Expr>, f: TypeFn, g: TypeFn, h: TypeFn)
    ensures LawfulExprs(es, f, g, h)
  {
    if es != [] {
      ExprLaws(es[0], f, g, h);
      ExprsLaws(es[1..], f, g, h);
      Concat(ExprTypes(es[0]), ExprsTypes(es[1..]), f, g, h);
      var once := SubstExprs(es, f);
      if once.Some? {
        assert once.value[1..] == SubstExprs(es[1..], f).value;
      }
    }
  }

  ghost predicate LawfulStmt(s: Stmt, f: TypeFn, g: TypeFn, h: TypeFn) {
    var once := SubstStmt(s, f);
    once.Some? ==>
      && (Agree(StmtTypes(s), f, g, h) ==> SubstStmt(once.value, g) == SubstStmt(s, h))
      && StmtTypes(once.value) == Each(StmtTypes(s), f)
  }

  ghost predicate Lawful(ss: seq<Stmt>, f: TypeFn, g: TypeFn, h: TypeFn) {
    var once := SubstStmts(ss, f);
    once.Some? ==>
      && (Agree(Types(ss), f, g, h) ==> SubstStmts(once.value, g) == SubstStmts(ss, h))
      && Types(once.value) == Each(Types(ss), f)
  }

  lemma {:induction false} StmtLaws(s: Stmt, f: TypeFn, g: TypeFn, h: TypeFn)
    ensures LawfulStmt(s, f, g, h)
    decreases s, 2
  {
    if
    case HasBody(s) => CompoundLaws(s, f, g, h);
    case s.StoreField? => StoreFieldLaws(s, f, g, h);
    case !HasBody(s) && !s.StoreField? => SimpleLaws(s, f, g, h);
  }

  lemma {:induction false} SimpleLaws(s: Stmt, f: TypeFn, g: TypeFn, h: TypeFn)
    requires !HasBody(s) && !s.StoreField?
    ensures LawfulStmt(s, f, g, h)
  {
    match s {
      case ReturnExpr(e) => ExprLaws(e, f, g, h);
      case Let(_, _, _) => LetLaws(s, f, g, h);
      case Assign(_, e) => ExprLaws(e, f, g, h);
      case ExprStmt(e) => ExprLaws(e, f, g, h);
      case FieldSet(_, _, e) => ExprLaws(e, f, g, h);
      case Store(p, e) =>
        ExprLaws(p, f, g, h);
        ExprLaws(e, f, g, h);
        Concat(ExprTypes(p), ExprTypes(e), f, g, h);
      case _ =>
    }
  }

  lemma {:induction false} LetLaws(s: Stmt, f: TypeFn, g: TypeFn, h: TypeFn)
    requires s.Let?
    ensures LawfulStmt(s, f, g, h)
  {
    if s.init.Some? {
      ExprLaws(s.init.value, f, g, h);
      Concat([s.ty], ExprTypes(s.init.value), f, g, h);
    }
  }

  lemma {:induction false} CompoundLaws(s: Stmt, f: TypeFn, g: TypeFn, h: TypeFn)
    requires HasBody(s)
    ensures LawfulStmt(s, f, g, h)
    decreases s, 1
  {
    match s {
      case CStyleFor(_, _, _, _) =>
      case If(_, _, _) => IfLaws(s, f, g, h);
      case For(_, _, _, _, _) => ForLaws(s, f, g, h);
      case Match(_, _, _) => MatchLaws(s, f, g, h);
      case WithArena(_, _, _) => ArenaLaws(s, f, g, h);
      case While(_, _) => WhileLaws(s, f, g, h);
      case DoWhile(_, _) => DoWhileLaws(s, f, g, h);
    }
  }

  lemma {:induction false} StoreFieldLaws(s: Stmt, f: TypeFn, g: TypeFn, h: TypeFn)
    requires s.StoreField?
    ensures LawfulStmt(s, f, g, h)
  {
    ExprLaws(s.ptr, f, g, h);
    ExprLaws(s.value, f, g, h);
    Concat(ExprTypes(s.ptr), s.typeArgs, f, g, h);
    Concat(ExprTypes(s.ptr) + s.typeArgs, ExprTypes(s.value), f, g, h);
    if Agree(StmtTypes(s), f, g, h) {
      EachTwice(s.typeArgs, f, g, h);
    }
  }

  lemma {:induction false} IfLaws(s: Stmt, f: TypeFn, g: TypeFn, h: TypeFn)
    requires s.If?
    ensures LawfulStmt(s, f, g, h)
    decreases s, 0
  {
    ExprLaws(s.cond, f, g, h);
    Laws(s.thenBody, f, g, h);
    Laws(s.elseBody, f, g, h);
    Concat(ExprTypes(s.cond), Types(s.thenBody), f, g, h);
    Concat(ExprTypes(s.cond) + Types(s.thenBody), Types(s.elseBody), f, g, h);
  }

  lemma {:induction false} ForLaws(s: Stmt, f: TypeFn, g: TypeFn, h: TypeFn)
    requires s.For?
    ensures LawfulStmt(s, f, g, h)
    decreases s, 0
  {
    ExprLaws(s.lo, f, g, h);
    ExprLaws(s.hi, f, g, h);
    Laws(s.body, f, g, h);
    Concat(ExprTypes(s.lo), ExprTypes(s.hi), f, g, h);
    Concat(ExprTypes(s.lo) + ExprTypes(s.hi), Types(s.body), f, g, h);
  }

  lemma {:induction false} WhileLaws(s: Stmt, f: TypeFn, g: TypeFn, h: TypeFn)
    requires s.While?
    ensures LawfulStmt(s, f, g, h)
    decreases s, 0
  {
    ExprLaws(s.cond, f, g, h);
    Laws(s.body, f, g, h);
    Concat(ExprTypes(s.cond), Types(s.body), f, g, h);
    var c, body := SubstExpr(s.cond, f), SubstStmts(s.body, f);
    if c.Some? && body.Some? {
      assert SubstStmt(s, f) == Some(While(c.value, body.value));
    }
  }

  lemma {:induction false} DoWhileLaws(s: Stmt, f: TypeFn, g: TypeFn, h: TypeFn)
    requires s.DoWhile?
    ensures LawfulStmt(s, f, g, h)
    decreases s, 0
  {
    ExprLaws(s.cond, f, g, h);
    Laws(s.body, f, g, h);
    Concat(ExprTypes(s.cond), Types(s.body), f, g, h);
    var c, body := SubstExpr(s.cond, f), SubstStmts(s.body, f);
    if c.Some? && body.Some? {
      assert SubstStmt(s, f) == Some(DoWhile(body.value, c.value));
    }
  }

  lemma {:induction false} ArenaLaws(s: Stmt, f: TypeFn, g: TypeFn, h: TypeFn)
    requires s.WithArena?
    ensures LawfulStmt(s, f, g, h)
    decreases s, 0
  {
    ExprLaws(s.capacity, f, g, h);
    Laws(s.body, f, g, h);
    Concat(ExprTypes(s.capacity), Types(s.body), f, g, h);
    var c, body := SubstExpr(s.capacity, f), SubstStmts(s.body, f);
    if c.Some? && body.Some? {
      assert SubstStmt(s, f) == Some(WithArena(s.name, c.value, body.value));
    }
  }

  ghost predicate LawfulArms(arms: seq<MatchArm>, f: TypeFn, g: TypeFn, h: TypeFn) {
    var once := SubstArms(arms, f);
    once.Some? ==>
      && (Agree(ArmTypes(arms), f, g, h) ==> SubstArms(once.value, g) == SubstArms(arms, h))
      && ArmTypes(once.value) == Each(ArmTypes(arms), f)
  }

  lemma {:induction false} MatchLaws(s: Stmt, f: TypeFn, g: TypeFn, h: TypeFn)
    requires s.Match?
    ensures LawfulStmt(s, f, g, h)
    decreases s, 0
  {
    ExprLaws(s.scrutinee, f, g, h);
    ArmLaws(s.arms, f, g, h);
    MatchFromParts(s, f, g, h);
  }

  lemma {:induction false} MatchFromParts(s: Stmt, f: TypeFn, g: TypeFn, h: TypeFn)
    requires s.Match? && LawfulExpr(s.scrutinee, f, g, h) && LawfulArms(s.arms, f, g, h)
    ensures LawfulStmt(s, f, g, h)
  {
    Concat(ExprTypes(s.scrutinee), ArmTypes(s.arms), f, g, h);
    var e, arms := SubstExpr(s.scrutinee, f), SubstArms(s.arms, f);
    if e.Some? && arms.Some? {
      assert SubstStmt(s, f) == Some(Match(e.value, s.inferred, arms.value));
    }
  }

  lemma {:induction false} Laws(ss: seq<Stmt>, f: TypeFn, g: TypeFn, h: TypeFn)
    ensures Lawful(ss, f, g, h)
    decreases ss
  {
    if ss != [] {
      StmtLaws(ss[0], f, g, h);
      Laws(ss[1..], f, g, h);
      Concat(StmtTypes(ss[0]), Types(ss[1..]), f, g, h);
      var once := SubstStmts(ss, f);
      if once.Some? {
        assert once.value[1..] == SubstStmts(ss[1..], f).value;
      }
    }
  }

  lemma {:induction false} ArmLaws(arms: seq<MatchArm>, f: TypeFn, g: TypeFn, h: TypeFn)
    ensures LawfulArms(arms, f, g, h)
    decreases arms
  {
    if arms != [] {
      Laws(arms[0].body, f, g, h);
      ArmLaws(arms[1..], f, g, h);
      Concat(Types(arms[0].body), ArmTypes(arms[1..]), f, g, h);
      var once := SubstArms(arms, f);
      if once.Some? {
        assert once.value[1..] == SubstArms(arms[1..], f).value;
      }
    }
  }

  // ---------- The laws ----------

  /** Two substitutions in a row are the substitution of the composed function. */
  lemma {:induction false} Composition(ss: seq<Stmt>, f: TypeFn, g: TypeFn)
    requires HandledAll(ss)
    ensures SubstStmts(ss, f).Some? && SubstStmts(SubstStmts(ss, f).value, g) == SubstStmts(ss, t => g(f(t)))
  {
    Substitutes(ss, f);
    AgreeOnEach(Types(ss), f, g, t => g(f(t)));
    Laws(ss, f, g, t => g(f(t)));
  }

  /** Only the types at rewritten positions matter, and each is replaced by its image. */
  lemma {:induction false} TypesAreMapped(ss: seq<Stmt>, f: TypeFn)
    requires HandledAll(ss)
    ensures SubstStmts(ss, f).Some? && Types(SubstStmts(ss, f).value) == Each(Types(ss), f)
  {
    Substitutes(ss, f);
    Laws(ss, f, f, f);
  }

  lemma {:induction false} Extensionality(ss: seq<Stmt>, f: TypeFn, g: TypeFn)
    requires HandledAll(ss) && forall t :: t in Types(ss) ==> f(t) == g(t)
    ensures SubstStmts(ss, f) == SubstStmts(ss, g)
  {
    Identity(ss);
    AgreeOnEach(Types(ss), Same, f, g);
    Laws(ss, Same, f, g);
  }

  /** The identity changes nothing. */
  lemma {:induction false} Identity(ss: seq<Stmt>)
    requires HandledAll(ss)
    ensures SubstStmts(ss, Same) == Some(ss)
    decreases ss
  {
    if ss != [] {
      StmtIdentity(ss[0]);
      Identity(ss[1..]);
      assert [ss[0]] + ss[1..] == ss;
    }
  }

  lemma {:induction false} EachIdentity(ts: seq<Type>)
    ensures Each(ts, Same) == ts
  {}

  lemma {:induction false} ExprIdentity(e: Expr)
    requires Handled(e)
    ensures SubstExpr(e, Same) == Some(e)
  {
    match e {
      case Leaf(_) =>
      case Unary(op, x) =>
        ExprIdentity(x);
        EachIdentity(UnaryTypes(op));
      case Binary(_, l, r) =>
        ExprIdentity(l);
        ExprIdentity(r);
      case Nary(op, args) =>
        EachIdentity(NaryTypes(op));
        ExprsIdentity(args);
    }
  }

  lemma {:induction false} ExprsIdentity(es: seq<Expr>)
    requires forall i :: 0 <= i < |es| ==> Handled(es[i])
    ensures SubstExprs(es, Same) == Some(es)
  {
    if es != [] {
      ExprIdentity(es[0]);
      ExprsIdentity(es[1..]);
      assert [es[0]] + es[1..] == es;
    }
  }

  lemma {:induction false} StmtIdentity(s: Stmt)
    requires HandledStmt(s)
    ensures SubstStmt(s, Same) == Some(s)
    decreases s
  {
    match s {
      case ReturnExpr(e) => ExprIdentity(e);
      case If(c, x, y) =>
        ExprIdentity(c);
        Identity(x);
        Identity(y);
      case Let(_, _, Some(e)) => ExprIdentity(e);
      case Assign(_, e) => ExprIdentity(e);
      case While(c, body) =>
        ExprIdentity(c);
        Identity(body);
      case DoWhile(body, c) =>
        ExprIdentity(c);
        Identity(body);
      case For(_, _, lo, hi, body) =>
        ExprIdentity(lo);
        ExprIdentity(hi);
        Identity(body);
      case ExprStmt(e) => ExprIdentity(e);
      case FieldSet(_, _, e) => ExprIdentity(e);
      case Store(p, e) =>
        ExprIdentity(p);
        ExprIdentity(e);
      case StoreField(p, _, typeArgs, _, e) =>
        ExprIdentity(p);
        ExprIdentity(e);
        EachIdentity(typeArgs);
      case WithArena(_, capacity, body) =>
        ExprIdentity(capacity);
        Identity(body);
      case Match(scrutinee, _, arms) =>
        ExprIdentity(scrutinee);
        ArmsIdentity(arms);
      case _ =>
    }
  }

  lemma {:induction false} ArmsIdentity(arms: seq<MatchArm>)
    requires forall i :: 0 <= i < |arms| ==> HandledAll(arms[i].body)
    ensures SubstArms(arms, Same) == Some(arms)
    decreases arms
  {
    if arms != [] {
      Identity(arms[0].body);
      ArmsIdentity(arms[1..]);
      assert [arms[0]] + arms[1..] == arms;
    }
  }
}
