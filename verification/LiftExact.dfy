/** The lift walk accepts exactly the liftings: every pair of a C tree and one of its liftings, and no other. */
module LiftExact {
  import opened Wrappers
  import opened QuodTree
  import opened Arithmetic
  import opened CTree
  import opened LiftCheck
  import opened Lifting

  // ---------- Operators and types ----------

  /** The three tables, by the family seen on the quod side, pair an operator with its spelling and nothing else. */
  lemma {:induction false} OperatorsArePairedBySpelling(op: COp, q: ArithOp)
    ensures ExpectedOp(op, q) == Some(q) <==> op == Spelling(q)
  {}

  lemma {:induction false} UpdatesArePairedBySpelling(op: COp, q: ArithOp)
    ensures CompoundOp(op) == Some(q) <==> Updates(q) && op == Spelling(q)
  {}

  lemma {:induction false} TypesAreLifted(t: CType, b: Type)
    ensures AcceptsType(t, b) <==> exists typeArgs :: LiftType(t, typeArgs) == Some(b)
  {
    if AcceptsType(t, b) {
      var typeArgs := if b.StructType? then b.typeArgs else [];
      assert LiftType(t, typeArgs) == Some(b);
    }
  }

  /** C defines the operator on ints, and its value is always 0 or 1. */
  ghost predicate GivesBits(op: COp) {
    && (exists x, y :: CApply(op, x, y).Some?)
    && forall x, y :: CApply(op, x, y) in {None, Some(0), Some(1)}
  }

  /** The expressions that are truth values: `&&`, `||`, and the operators whose value is always a bit. */
  lemma {:induction false} TruthValuesExactly(a: CExpr)
    ensures a.CBinOp? ==> (IsI1Typed(a) <==> a.op.CLogAnd? || a.op.CLogOr? || GivesBits(a.op))
    ensures a.CUnary? ==> (IsI1Typed(a) <==> forall x :: CApplyUnary(a.uop, x) in {None, Some(0), Some(1)})
    ensures !a.CBinOp? && !a.CUnary? ==> !IsI1Typed(a)
  {
    if a.CBinOp? {
      BinaryTruthExactly(a.op);
    } else if a.CUnary? && !a.uop.CLogNot? {
      assert CApplyUnary(a.uop, if a.uop.CNeg? then -2 else -3) == Some(2);
    }
  }

  lemma {:induction false} BinaryTruthExactly(op: COp)
    ensures op in {CLt, CLe, CGt, CGe, CEq, CNe} <==> GivesBits(op)
  {
    if op in {CLt, CLe, CGt, CGe, CEq, CNe} {
      assert CApply(op, 0, 0).Some?;
    } else if op in {CAdd, CSub, CMul, CDiv, CRem, CBitOr, CBitAnd, CBitXor, CShl, CShr} {
      OthersGiveTwo(op);
      TwoIsNoBit(op);
    } else {
      UndefinedGiveNone(op);
    }
  }

  ghost predicate GivesTwo(op: COp) {
    exists x, y :: CApply(op, x, y) == Some(2)
  }

  lemma {:induction false} TwoIsNoBit(op: COp)
    requires GivesTwo(op)
    ensures !GivesBits(op)
  {}

  lemma {:induction false} SumsGiveTwo()
    ensures GivesTwo(CAdd) && GivesTwo(CSub) && GivesTwo(CMul) && GivesTwo(CDiv) && GivesTwo(CRem)
  {
    assert CApply(CAdd, 1, 1) == Some(2);
    assert CApply(CSub, 2, 0) == Some(2);
    assert CApply(CMul, 1, 2) == Some(2);
    assert CApply(CDiv, 2, 1) == Some(2);
    assert CApply(CRem, 2, 3) == Some(2);
  }

  lemma {:induction false} OrGivesTwo()
    ensures GivesTwo(CBitOr)
  {
    assert CApply(CBitOr, 2, 0) == Some(2);
  }

  lemma {:induction false} AndGivesTwo()
    ensures GivesTwo(CBitAnd)
  {
    assert CApply(CBitAnd, 2, -1) == Some(2);
  }

  lemma {:induction false} XorGivesTwo()
    ensures GivesTwo(CBitXor)
  {
    assert CApply(CBitXor, 2, 0) == Some(2);
  }

  lemma {:induction false} ShiftsGiveTwo()
    ensures GivesTwo(CShl) && GivesTwo(CShr)
  {
    assert Pow2(0) == 1;
    assert Pow2(1) == 2;
    assert CApply(CShl, 1, 1) == Some(2);
    assert CApply(CShr, 2, 0) == Some(2);
  }

  /** C's logical operators are no operators on two values, and unknown ones are not defined at all. */
  lemma {:induction false} UndefinedGiveNone(op: COp)
    requires op.CLogAnd? || op.CLogOr? || op.COther?
    ensures !GivesBits(op)
  {}

  /** Every operator that C defines and that does not compare has the value 2 somewhere. */
  lemma {:induction false} OthersGiveTwo(op: COp)
    requires op in {CAdd, CSub, CMul, CDiv, CRem, CBitOr, CBitAnd, CBitXor, CShl, CShr}
    ensures GivesTwo(op)
  {
    SumsGiveTwo();
    OrGivesTwo();
    AndGivesTwo();
    XorGivesTwo();
    ShiftsGiveTwo();
  }

  // ---------- Casts ----------

  /** A cast around an accepted expression is skipped or taken for one that C shows. */
  lemma {:induction false} CastIsSkipped(a: CExpr, t: Type, b: Expr, cs: Constants)
    requires AcceptsExpr(a, b, cs)
    ensures AcceptsExpr(a, Unary(Cast(t), b), cs)
    decreases b, 1
  {
    if a.CCast? {
      CastIsPeeled(a, b, cs);
    }
  }

  lemma {:induction false} CastIsPeeled(a: CExpr, b: Expr, cs: Constants)
    requires AcceptsExpr(a, b, cs) && a.CCast?
    ensures AcceptsExpr(a.inner, b, cs)
    decreases b, 0
  {
    assert b.Unary? && b.uop.Cast?;
    if a.target.CNamedType? && CTypeKind(a.target.name) == Some(b.uop.target) {
      CastIsSkipped(a.inner, b.uop.target, b.operand, cs);
    } else {
      CastIsPeeled(a, b.operand, cs);
      CastIsSkipped(a.inner, b.uop.target, b.operand, cs);
    }
  }

  // ---------- Every lifting is accepted ----------

  lemma {:induction false} LiftedExprIsAccepted(a: CExpr, k: Choice, cs: Constants)
    requires LiftExpr(a, k, cs).Some?
    ensures AcceptsExpr(a, LiftExpr(a, k, cs).value, cs)
    decreases k, 1
  {
    match k {
      case Inserted(t, under) =>
        LiftedExprIsAccepted(a, under, cs);
        CastIsSkipped(a, t, LiftExpr(a, under, cs).value, cs);
      case Exact =>
      case Read(_) =>
      case Constant(_) =>
      case Both(_, _, _) => LiftedBothIsAccepted(a, k, cs);
      case Moved(_, _) => LiftedMoveIsAccepted(a, k, cs);
      case Loaded(_, _) => LiftedLoadIsAccepted(a, k, cs);
      case Under(_) => LiftedUnderIsAccepted(a, k, cs);
      case Implied(_, operand) => LiftedExprIsAccepted(a.inner, operand, cs);
      case Headed(_, _, _) => LiftedHeadedIsAccepted(a, k, cs);
      case Chosen(_, c, x, y) =>
        LiftedExprIsAccepted(a.cond, c, cs);
        LiftedExprIsAccepted(a.thenValue, x, cs);
        LiftedExprIsAccepted(a.elseValue, y, cs);
    }
  }

  lemma {:induction false} LiftedBothIsAccepted(a: CExpr, k: Choice, cs: Constants)
    requires k.Both? && LiftExpr(a, k, cs).Some?
    ensures AcceptsExpr(a, LiftExpr(a, k, cs).value, cs)
    decreases k, 0
  {
    LiftedExprIsAccepted(a.lhs, k.left, cs);
    LiftedExprIsAccepted(a.rhs, k.right, cs);
    if k.op.Arith? {
      OperatorsArePairedBySpelling(a.op, k.op.op);
    }
  }

  lemma {:induction false} LiftedMoveIsAccepted(a: CExpr, k: Choice, cs: Constants)
    requires k.Moved? && LiftExpr(a, k, cs).Some?
    ensures AcceptsExpr(a, LiftExpr(a, k, cs).value, cs)
    ensures var b := LiftExpr(a, k, cs).value;
            b.Binary? && b.bop.PtrOffset? && AcceptsExpr(MoveBase(a), b.lhs, cs) && AcceptsOffset(MoveIndex(a), b.rhs, cs)
    decreases k, 0
  {
    LiftedExprIsAccepted(MoveBase(a), k.base, cs);
    LiftedOffsetIsAccepted(MoveIndex(a), k.offset, cs);
  }

  lemma {:induction false} LiftedOffsetIsAccepted(a: CExpr, k: Offset, cs: Constants)
    requires LiftOffset(a, k, cs).Some?
    ensures AcceptsOffset(a, LiftOffset(a, k, cs).value, cs)
    decreases k
  {
    match k {
      case Scaled(scale) => ScalesExactly(a.value, a.value * scale);
      case Wide(index) => LiftedExprIsAccepted(a, index, cs);
      case Times(inner, _) => LiftedOffsetIsAccepted(a, inner, cs);
    }
  }

  /** A literal offset is the literal of C times a scale. */
  predicate Scales(n: int, offset: int) {
    offset == n || (n != 0 && offset % n == 0 && (n > 0) == (offset > 0))
  }

  lemma {:induction false} ScalesExactly(n: int, offset: int)
    ensures Scales(n, offset) <==> exists scale: nat :: (scale > 0 || n < 0) && offset == n * scale
  {
    if Scales(n, offset) {
      if offset == n {
        assert offset == n * 1;
      } else {
        var scale := offset / n;
        assert offset == n * scale;
        if scale < 0 {
          NegativeProduct(n, scale);
        }
        assert scale >= 0;
      }
    }
    if scale: nat :| (scale > 0 || n < 0) && offset == n * scale {
      MultipleLeavesNothing(n, scale);
    }
  }

  lemma {:induction false} NegativeProduct(n: int, scale: int)
    requires scale < 0 && n != 0
    ensures (n > 0) == (n * scale < 0)
  {}

  lemma {:induction false} MultipleLeavesNothing(n: int, scale: nat)
    requires scale > 0 || n < 0
    ensures Scales(n, n * scale)
  {
    if n != 0 {
      MultipleDivides(n, scale);
      SignOfProduct(n, scale);
    }
  }

  lemma {:induction false} SignOfProduct(n: int, scale: nat)
    requires n != 0 && (scale > 0 || n < 0)
    ensures (n > 0) == (n * scale > 0)
  {
    if scale > 0 && n < 0 {
      NegativeProduct(scale, n);
    }
  }

  lemma {:induction false} MultipleDivides(n: int, k: int)
    requires n != 0
    ensures (n * k) % n == 0
  {
    var q, r := (n * k) / n, (n * k) % n;
    assert n * (k - q) == r;
    if k > q {
      Grows(n, k - q);
    } else if k < q {
      assert n * (q - k) == -r;
      Grows(n, q - k);
    }
  }

  lemma {:induction false} Grows(n: int, d: int)
    requires n != 0 && d > 0
    ensures n > 0 ==> n * d >= n
    ensures n < 0 ==> n * d <= n
  {
    if n > 0 {
      assert n * (d - 1) >= 0;
    } else {
      assert n * (d - 1) <= 0;
    }
  }

  lemma {:induction false} LiftedLoadIsAccepted(a: CExpr, k: Choice, cs: Constants)
    requires k.Loaded? && LiftExpr(a, k, cs).Some?
    ensures AcceptsExpr(a, LiftExpr(a, k, cs).value, cs)
    decreases k, 0
  {
    match a {
      case CDeref(p, t) =>
        LiftedExprIsAccepted(p, k.place, cs);
        TypesAreLifted(t, LiftType(t, k.typeArgs).value);
      case CFieldArrow(p, _, _) => LiftedExprIsAccepted(p, k.place, cs);
      case CArraySubscript(_, _, Some(t)) =>
        LiftedMoveIsAccepted(CAddressOf(a), k.place, cs);
        TypesAreLifted(t, LiftType(t, k.typeArgs).value);
    }
  }

  lemma {:induction false} LiftedUnderIsAccepted(a: CExpr, k: Choice, cs: Constants)
    requires k.Under? && LiftExpr(a, k, cs).Some?
    ensures AcceptsExpr(a, LiftExpr(a, k, cs).value, cs)
    decreases k, 0
  {
    LiftedExprIsAccepted(a.inner, k.inner, cs);
  }

  lemma {:induction false} LiftedHeadedIsAccepted(a: CExpr, k: Choice, cs: Constants)
    requires k.Headed? && LiftExpr(a, k, cs).Some?
    ensures AcceptsExpr(a, LiftExpr(a, k, cs).value, cs)
    decreases k, 0
  {
    match a {
      case CCall(_, args) => LiftedExprsAreAccepted(args, k.args, cs);
      case CStructInit(_, inits) =>
        LiftedExprsAreAccepted(Values(inits), k.args, cs);
        AcceptedEach(Values(inits), LiftExprs(Values(inits), k.args, cs).value, cs);
    }
  }

  lemma {:induction false} LiftedExprsAreAccepted(xs: seq<CExpr>, ks: seq<Choice>, cs: Constants)
    requires LiftExprs(xs, ks, cs).Some?
    ensures AcceptsExprs(xs, LiftExprs(xs, ks, cs).value, cs)
    decreases ks, 0
  {
    if xs != [] {
      LiftedExprIsAccepted(xs[0], ks[0], cs);
      LiftedExprsAreAccepted(xs[1..], ks[1..], cs);
      var ys := LiftExprs(xs[1..], ks[1..], cs).value;
      assert LiftExprs(xs, ks, cs).value[1..] == ys;
    }
  }

  lemma {:induction false} AcceptedEach(xs: seq<CExpr>, ys: seq<Expr>, cs: Constants)
    requires |xs| == |ys|
    ensures AcceptsExprs(xs, ys, cs) <==> forall i :: 0 <= i < |xs| ==> AcceptsExpr(xs[i], ys[i], cs)
  {
    if xs != [] {
      AcceptedEach(xs[1..], ys[1..], cs);
      assert forall i :: 1 <= i < |xs| ==> xs[i] == xs[1..][i - 1] && ys[i] == ys[1..][i - 1];
    }
  }

  // ---------- Every accepted expression is a lifting ----------

  lemma {:induction false} ChoiceOf(a: CExpr, b: Expr, cs: Constants) returns (k: Choice)
    requires AcceptsExpr(a, b, cs)
    ensures LiftExpr(a, k, cs) == Some(b)
    decreases b, 2
  {
    if b.Unary? && b.uop.Cast? {
      k := ChoiceOfCast(a, b, cs);
    } else {
      match a {
        case CIntLit(_, _) => k := Exact;
        case CFloatLit(_, _) => k := Exact;
        case CEnumConstRef(_, _) => k := Exact;
        case CVarRef(_) => k := Read(b.leaf.LocalRef?);
        case CStringLit(_) => k := Constant(b.leaf.name);
        case CBinOp(_, _, _) => k := ChoiceOfBinOp(a, b, cs);
        case CCall(_, args) =>
          var ks := ChoicesOf(args, b.args, cs);
          k := Headed(b.nop.typeArgs, [], ks);
          assert LiftHeaded(a, k, cs) == Some(b);
        case CTernary(_, _, _) => k := ChoiceOfTernary(a, b, cs);
        case CUnary(_, _) => k := ChoiceOfUnary(a, b, cs);
        case CAddressOf(place) => k := ChoiceOfMove(a, b, cs);
        case CStructInit(_, _) =>
          StructInitParts(a, b, cs);
          k := ChoiceOfStructInit(a, b, cs);
        case CFieldRead(x, _) =>
          var kx := ChoiceOf(x, b.operand, cs);
          k := Under(kx);
          assert LiftUnder(a, k, cs) == Some(b);
        case CDeref(_, _) => k := ChoiceOfLoad(a, b, cs);
        case CFieldArrow(_, _, _) => k := ChoiceOfLoad(a, b, cs);
        case CArraySubscript(_, _, _) => k := ChoiceOfLoad(a, b, cs);
        case CCast(_, _) => assert false;
      }
    }
  }

  lemma {:induction false} ChoiceOfCast(a: CExpr, b: Expr, cs: Constants) returns (k: Choice)
    requires AcceptsExpr(a, b, cs) && b.Unary? && b.uop.Cast?
    ensures LiftExpr(a, k, cs) == Some(b)
    decreases b, 0
  {
    if a.CCast? && a.target.CNamedType? && CTypeKind(a.target.name) == Some(b.uop.target) {
      var inner := ChoiceOf(a.inner, b.operand, cs);
      k := Under(inner);
    } else {
      var under := ChoiceOf(a, b.operand, cs);
      k := Inserted(b.uop.target, under);
    }
  }

  lemma {:induction false} ChoiceOfBinOp(a: CExpr, b: Expr, cs: Constants) returns (k: Choice)
    requires AcceptsExpr(a, b, cs) && a.CBinOp? && b.Binary?
    ensures LiftExpr(a, k, cs) == Some(b)
    decreases b, 1
  {
    if b.bop.PtrOffset? {
      k := ChoiceOfMove(a, b, cs);
    } else {
      var l := ChoiceOf(a.lhs, b.lhs, cs);
      var r := ChoiceOf(a.rhs, b.rhs, cs);
      if b.bop.Arith? {
        OperatorsArePairedBySpelling(a.op, b.bop.op);
      }
      k := Both(b.bop, l, r);
    }
  }

  lemma {:induction false} ChoiceOfMove(a: CExpr, b: Expr, cs: Constants) returns (k: Choice)
    requires IsMove(a) && b.Binary? && b.bop.PtrOffset?
    requires AcceptsExpr(MoveBase(a), b.lhs, cs) && AcceptsOffset(MoveIndex(a), b.rhs, cs)
    ensures k.Moved? && LiftExpr(a, k, cs) == Some(b)
    decreases b, 0
  {
    var base := ChoiceOf(MoveBase(a), b.lhs, cs);
    var offset := ChoiceOfOffset(MoveIndex(a), b.rhs, cs);
    k := Moved(base, offset);
    assert LiftMove(a, k, cs) == Some(b);
  }

  lemma {:induction false} ChoiceOfOffset(a: CExpr, b: Expr, cs: Constants) returns (k: Offset)
    requires AcceptsOffset(a, b, cs)
    ensures LiftOffset(a, k, cs) == Some(b)
    decreases b, 3
  {
    if b.Leaf? {
      ScalesExactly(a.value, b.leaf.value);
      var scale: nat :| (scale > 0 || a.value < 0) && b.leaf.value == a.value * scale;
      k := Scaled(scale);
    } else if b.Unary? {
      var index := ChoiceOf(a, b.operand, cs);
      k := Wide(index);
    } else {
      var inner := ChoiceOfOffset(a, b.lhs, cs);
      k := Times(inner, b.rhs.leaf.value);
    }
  }

  lemma {:induction false} ChoiceOfTernary(a: CExpr, b: Expr, cs: Constants) returns (k: Choice)
    requires AcceptsExpr(a, b, cs) && a.CTernary? && b.IfExpr?
    ensures LiftExpr(a, k, cs) == Some(b)
    decreases b, 0
  {
    var yes := ChoiceOf(a.thenValue, b.thenValue, cs);
    var no := ChoiceOf(a.elseValue, b.elseValue, cs);
    if AcceptsExpr(a.cond, b.cond, cs) {
      var c := ChoiceOf(a.cond, b.cond, cs);
      k := Chosen(None, c, yes, no);
    } else {
      var c := ChoiceOf(a.cond, b.cond.lhs, cs);
      k := Chosen(Some(b.cond.rhs.leaf.ty), c, yes, no);
    }
  }

  lemma {:induction false} ChoiceOfUnary(a: CExpr, b: Expr, cs: Constants) returns (k: Choice)
    requires AcceptsExpr(a, b, cs) && a.CUnary? && b.Binary?
    ensures LiftExpr(a, k, cs) == Some(b)
    decreases b, 0
  {
    if a.uop.CNeg? {
      var x := ChoiceOf(a.inner, b.rhs, cs);
      k := Implied(b.lhs.leaf.ty, x);
    } else {
      var x := ChoiceOf(a.inner, b.lhs, cs);
      k := Implied(b.rhs.leaf.ty, x);
    }
  }

  lemma {:induction false} StructInitParts(a: CExpr, b: Expr, cs: Constants)
    requires AcceptsExpr(a, b, cs) && a.CStructInit? && b.Nary?
    ensures b.nop.StructInit? && b.nop.name == a.typeName
    ensures NamesFields(a.fields, b.nop.fields) && AcceptsExprs(Values(a.fields), b.args, cs)
  {
    var inits, values := a.fields, Values(a.fields);
    forall i | 0 <= i < |inits| ensures AcceptsExpr(values[i], b.args[i], cs) && inits[i].name in {None, Some(b.nop.fields[i])} {
      assert values[i] == inits[i].value;
      assert inits[i].name.None? || inits[i].name.value == b.nop.fields[i];
    }
    AcceptedEach(values, b.args, cs);
  }

  lemma {:induction false} ChoiceOfStructInit(a: CExpr, b: Expr, cs: Constants) returns (k: Choice)
    requires a.CStructInit? && b.Nary? && b.nop.StructInit? && b.nop.name == a.typeName
    requires NamesFields(a.fields, b.nop.fields) && AcceptsExprs(Values(a.fields), b.args, cs)
    ensures LiftExpr(a, k, cs) == Some(b)
    decreases b, 0
  {
    var ks := ChoicesOf(Values(a.fields), b.args, cs);
    k := Headed(b.nop.typeArgs, b.nop.fields, ks);
    assert LiftHeaded(a, k, cs) == Some(b);
  }

  lemma {:induction false} ChoiceOfLoad(a: CExpr, b: Expr, cs: Constants) returns (k: Choice)
    requires AcceptsExpr(a, b, cs) && b.Unary? && (a.CDeref? || a.CFieldArrow? || a.CArraySubscript?) && !b.uop.Cast?
    ensures LiftExpr(a, k, cs) == Some(b)
    decreases b, 0
  {
    match a {
      case CFieldArrow(p, _, _) =>
        var place := ChoiceOf(p, b.operand, cs);
        k := Loaded(b.uop.typeArgs, place);
      case CDeref(p, t) =>
        TypesAreLifted(t, b.uop.ty);
        var typeArgs :| LiftType(t, typeArgs) == Some(b.uop.ty);
        var place := ChoiceOf(p, b.operand, cs);
        k := Loaded(typeArgs, place);
      case CArraySubscript(_, _, elemType) =>
        TypesAreLifted(elemType.value, b.uop.ty);
        var typeArgs :| LiftType(elemType.value, typeArgs) == Some(b.uop.ty);
        var place := ChoiceOfMove(CAddressOf(a), b.operand, cs);
        k := Loaded(typeArgs, place);
    }
  }

  lemma {:induction false} ChoicesOf(xs: seq<CExpr>, ys: seq<Expr>, cs: Constants) returns (ks: seq<Choice>)
    requires AcceptsExprs(xs, ys, cs)
    ensures LiftExprs(xs, ks, cs) == Some(ys)
    decreases ys, 0
  {
    if xs == [] {
      ks := [];
    } else {
      var k := ChoiceOf(xs[0], ys[0], cs);
      var rest := ChoicesOf(xs[1..], ys[1..], cs);
      ks := [k] + rest;
      assert ks[1..] == rest && [ys[0]] + ys[1..] == ys;
    }
  }

  /** An expression pair is accepted exactly when the quod side is a lifting of the C side. */
  lemma {:induction false} AcceptsExprExactly(a: CExpr, b: Expr, cs: Constants)
    ensures AcceptsExpr(a, b, cs) <==> exists k :: LiftExpr(a, k, cs) == Some(b)
  {
    if AcceptsExpr(a, b, cs) {
      var k := ChoiceOf(a, b, cs);
    }
    if k :| LiftExpr(a, k, cs) == Some(b) {
      LiftedExprIsAccepted(a, k, cs);
    }
  }

  // ---------- Declarations ----------

  lemma {:induction false} AcceptsInitExactly(a: Option<CExpr>, b: Option<Expr>, cs: Constants)
    ensures AcceptsInit(a, b, cs) <==> exists k :: LiftInit(a, k, cs) == Some(b)
  {
    if AcceptsInit(a, b, cs) {
      if a.Some? {
        var k := ChoiceOf(a.value, b.value, cs);
        assert LiftInit(a, Some(k), cs) == Some(b);
      } else {
        assert LiftInit(a, None, cs) == Some(b);
      }
    }
    if k :| LiftInit(a, k, cs) == Some(b) {
      if k.Some? {
        LiftedExprIsAccepted(a.value, k.value, cs);
      }
    }
  }

  lemma {:induction false} AcceptsDeclExactly(d: CDecl, b: Stmt, cs: Constants)
    ensures AcceptsDecl(d, b, cs) <==> exists k :: LiftDecl(d, k, cs) == Some(b)
  {
    if AcceptsDecl(d, b, cs) {
      AcceptsInitExactly(d.init, b.init, cs);
      TypesAreLifted(d.ty, b.ty);
      var typeArgs :| LiftType(d.ty, typeArgs) == Some(b.ty);
      var init :| LiftInit(d.init, init, cs) == Some(b.init);
      assert LiftDecl(d, DeclChoice(typeArgs, init), cs) == Some(b);
    }
    if k :| LiftDecl(d, k, cs) == Some(b) {
      TypesAreLifted(d.ty, b.ty);
      AcceptsInitExactly(d.init, b.init, cs);
    }
  }

  lemma {:induction false} DeclsByHead(ds: seq<CDecl>, bs: seq<Stmt>, cs: Constants)
    requires |ds| == |bs| > 0
    ensures AcceptsDecls(ds, bs, cs) <==> AcceptsDecl(ds[0], bs[0], cs) && AcceptsDecls(ds[1..], bs[1..], cs)
  {
    assert forall i :: 1 <= i < |ds| ==> ds[i] == ds[1..][i - 1] && bs[i] == bs[1..][i - 1];
  }

  lemma {:induction false} LiftedDeclsAreAccepted(ds: seq<CDecl>, ks: seq<DeclChoice>, cs: Constants)
    requires LiftDecls(ds, ks, cs).Some?
    ensures AcceptsDecls(ds, LiftDecls(ds, ks, cs).value, cs)
  {
    if ds != [] {
      var bs, rest := LiftDecls(ds, ks, cs).value, LiftDecls(ds[1..], ks[1..], cs).value;
      assert bs[1..] == rest;
      AcceptsDeclExactly(ds[0], bs[0], cs);
      LiftedDeclsAreAccepted(ds[1..], ks[1..], cs);
      DeclsByHead(ds, bs, cs);
    }
  }

  lemma {:induction false} DeclChoicesOf(ds: seq<CDecl>, bs: seq<Stmt>, cs: Constants) returns (ks: seq<DeclChoice>)
    requires |ds| == |bs| && AcceptsDecls(ds, bs, cs)
    ensures LiftDecls(ds, ks, cs) == Some(bs)
  {
    if ds == [] {
      ks := [];
    } else {
      DeclsByHead(ds, bs, cs);
      AcceptsDeclExactly(ds[0], bs[0], cs);
      var k :| LiftDecl(ds[0], k, cs) == Some(bs[0]);
      var rest := DeclChoicesOf(ds[1..], bs[1..], cs);
      ks := [k] + rest;
      assert ks[1..] == rest && [bs[0]] + bs[1..] == bs;
    }
  }

  // ---------- Every lifted statement is accepted ----------

  /** An accepted pair, as one fact to hand on. */
  ghost predicate Pair(a: CStmt, b: Stmt, cs: Constants) {
    AcceptsStmt(a, b, cs)
  }

  lemma {:induction false} LiftedStmtIsAccepted(a: CStmt, k: StmtChoice, cs: Constants)
    requires LiftStmt(a, k, cs).Some?
    ensures Pair(a, LiftStmt(a, k, cs).value, cs)
    decreases k, 2
  {
    match k {
      case Declares(decls) => AcceptsDeclExactly(a.decl, LiftStmt(a, k, cs).value, cs);
      case Plain =>
      case Valued(kv) => LiftedValuedIsAccepted(a, kv, cs);
      case Updated(op, kv) => LiftedUpdateIsAccepted(a, op, kv, cs);
      case Stepped(_) =>
      case Widened(kv, yes, no) => LiftedReturnIsAccepted(a, kv, yes, no, cs);
      case Looped(_, _) => LiftedLoopIsAccepted(a, k, cs);
      case Counted(_, _, _, _) => LiftedForIsAccepted(a, k, cs);
      case Branched(_, _, _) => LiftedIfIsAccepted(a, k, cs);
      case Stored(_, _, _) => LiftedStoreIsAccepted(a, k, cs);
      case Chained(chain) => LiftedChainIsAccepted(a.scrutinee, a.cases, a.default, chain, cs);
    }
  }

  lemma {:induction false} LiftedValuedIsAccepted(a: CStmt, k: Choice, cs: Constants)
    requires LiftValued(a, k, cs).Some?
    ensures Pair(a, LiftValued(a, k, cs).value, cs)
  {
    match a {
      case CAssign(_, e) => LiftedExprIsAccepted(e, k, cs);
      case CReturn(Some(e)) => LiftedExprIsAccepted(e, k, cs);
      case CExprStmt(e) => LiftedExprIsAccepted(e, k, cs);
    }
  }

  lemma {:induction false} LiftedUpdateIsAccepted(a: CStmt, op: ArithOp, k: Choice, cs: Constants)
    requires LiftUpdate(a, op, k, cs).Some?
    ensures Pair(a, LiftUpdate(a, op, k, cs).value, cs)
  {
    UpdatesArePairedBySpelling(a.op, op);
    LiftedExprIsAccepted(a.value, k, cs);
  }

  lemma {:induction false} LiftedReturnIsAccepted(a: CStmt, k: Choice, yes: seq<Stmt>, no: seq<Stmt>, cs: Constants)
    requires LiftWidened(a, k, yes, no, cs).Some?
    ensures Pair(a, LiftWidened(a, k, yes, no, cs).value, cs)
  {
    LiftedExprIsAccepted(a.result.value, k, cs);
  }

  lemma {:induction false} LiftedStoreIsAccepted(a: CStmt, k: StmtChoice, cs: Constants)
    requires k.Stored? && LiftStmt(a, k, cs).Some?
    ensures Pair(a, LiftStmt(a, k, cs).value, cs)
  {
    match a {
      case CDerefStore(p, e) =>
        LiftedExprIsAccepted(p, k.place, cs);
        LiftedExprIsAccepted(e, k.value, cs);
      case CSubscriptStore(base, index, e) =>
        LiftedMoveIsAccepted(CAddressOf(CArraySubscript(base, index, None)), k.place, cs);
        LiftedExprIsAccepted(e, k.value, cs);
      case CFieldArrowStore(p, _, _, e) =>
        LiftedExprIsAccepted(p, k.place, cs);
        LiftedExprIsAccepted(e, k.value, cs);
    }
  }

  lemma {:induction false} LiftedLoopIsAccepted(a: CStmt, k: StmtChoice, cs: Constants)
    requires k.Looped? && LiftLoop(a, k, cs).Some?
    ensures Pair(a, LiftLoop(a, k, cs).value, cs)
    decreases k, 1
  {
    LiftedExprIsAccepted(a.cond, k.cond, cs);
    LiftedBodyIsAccepted(a.body, k.body, cs);
  }

  lemma {:induction false} LiftedIfIsAccepted(a: CStmt, k: StmtChoice, cs: Constants)
    requires k.Branched? && LiftIf(a, k, cs).Some?
    ensures Pair(a, LiftIf(a, k, cs).value, cs)
    decreases k, 1
  {
    LiftedExprIsAccepted(a.cond, k.cond, cs);
    LiftedBodyIsAccepted(a.thenBody, k.thenBody, cs);
    LiftedBodyIsAccepted(a.elseBody, k.elseBody, cs);
  }

  lemma {:induction false} LiftedForIsAccepted(a: CStmt, k: StmtChoice, cs: Constants)
    requires k.Counted? && LiftFor(a, k, cs).Some?
    ensures Pair(a, LiftFor(a, k, cs).value, cs)
    decreases k, 1
  {
    LiftedClauseIsAccepted(a.forInit, k.init, cs);
    LiftedClauseIsAccepted(a.inc, k.step, cs);
    AcceptsInitExactly(a.forCond, LiftInit(a.forCond, k.test, cs).value, cs);
    LiftedBodyIsAccepted(a.body, k.body, cs);
  }

  lemma {:induction false} LiftedClauseIsAccepted(a: Option<CStmt>, k: Option<StmtChoice>, cs: Constants)
    requires LiftClause(a, k, cs).Some?
    ensures var b := LiftClause(a, k, cs).value;
            a.Some? == b.Some? && (a.Some? ==> Pair(a.value, b.value, cs))
    decreases k, 0
  {
    if k.Some? {
      LiftedStmtIsAccepted(a.value, k.value, cs);
    }
  }

  lemma {:induction false} LiftedBodyIsAccepted(xs: seq<CStmt>, ks: seq<StmtChoice>, cs: Constants)
    requires LiftBody(xs, ks, cs).Some?
    ensures AcceptsBody(xs, LiftBody(xs, ks, cs).value, cs)
    decreases ks, 0
  {
    if xs != [] {
      var first, rest := LiftHead(xs[0], ks[0], cs).value, LiftBody(xs[1..], ks[1..], cs).value;
      var bs := first + rest;
      LiftedBodyIsAccepted(xs[1..], ks[1..], cs);
      assert bs[..|first|] == first && bs[|first|..] == rest;
      if xs[0].CMultiVarDecl? {
        LiftedDeclsAreAccepted(xs[0].decls, ks[0].decls, cs);
      } else {
        LiftedStmtIsAccepted(xs[0], ks[0], cs);
        assert bs[0] == first[0] && bs[1..] == rest;
      }
    }
  }

  lemma {:induction false} LiftedChainIsAccepted(scrutinee: CExpr, cases: seq<CSwitchCase>, default: seq<CStmt>,
                                                 k: ChainChoice, cs: Constants)
    requires LiftChain(scrutinee, cases, default, k, cs).Some?
    ensures var cur := LiftChain(scrutinee, cases, default, k, cs).value;
            cur.If? && AcceptsChain(scrutinee, cases, default, cur, cs)
    decreases k, 1
  {
    match k {
      case NoCase(_, _, kd) => LiftedBodyIsAccepted(default, kd, cs);
      case Last(tests, kb, kd) =>
        LiftedTestsAreAccepted(scrutinee, cases[0].values, tests, cs);
        LiftedBodyIsAccepted(cases[0].body, kb, cs);
        LiftedBodyIsAccepted(default, kd, cs);
      case Next(tests, kb, rest) =>
        LiftedTestsAreAccepted(scrutinee, cases[0].values, tests, cs);
        LiftedBodyIsAccepted(cases[0].body, kb, cs);
        LiftedChainIsAccepted(scrutinee, cases[1..], default, rest, cs);
    }
  }

  lemma {:induction false} LiftedTestsAreAccepted(scrutinee: CExpr, values: seq<CExpr>, k: Tests, cs: Constants)
    requires LiftTests(scrutinee, values, k, cs).Some?
    ensures var cond := LiftTests(scrutinee, values, k, cs).value;
            AcceptsCaseEqs(scrutinee, values, Disjuncts(cond), cs) && AcceptsCaseCond(scrutinee, values, cond, cs)
    decreases k
  {
    var cond := LiftTests(scrutinee, values, k, cs).value;
    match k {
      case Label(ks, kv) =>
        LiftedExprIsAccepted(scrutinee, ks, cs);
        LiftedExprIsAccepted(values[0], kv, cs);
        assert Disjuncts(cond) == [cond];
      case Either(l, r) =>
        LabelsArePositive(l);
        LabelsArePositive(r);
        var vs, ws := values[..Labels(l)], values[Labels(l)..];
        LiftedTestsAreAccepted(scrutinee, vs, l, cs);
        LiftedTestsAreAccepted(scrutinee, ws, r, cs);
        assert vs + ws == values && Disjuncts(cond) == Disjuncts(cond.lhs) + Disjuncts(cond.rhs);
        EqsAppend(scrutinee, vs, ws, Disjuncts(cond.lhs), Disjuncts(cond.rhs), cs);
    }
  }

  lemma {:induction false} LabelsArePositive(k: Tests)
    ensures Labels(k) > 0
  {
    if k.Either? {
      LabelsArePositive(k.left);
    }
  }

  lemma {:induction false} EqsAppend(scrutinee: CExpr, vs: seq<CExpr>, ws: seq<CExpr>, es: seq<Expr>, fs: seq<Expr>, cs: Constants)
    requires |vs| == |es|
    ensures AcceptsCaseEqs(scrutinee, vs + ws, es + fs, cs) <==>
            AcceptsCaseEqs(scrutinee, vs, es, cs) && AcceptsCaseEqs(scrutinee, ws, fs, cs)
  {
    if |ws| == |fs| {
      forall i | 0 <= i < |vs + ws|
        ensures AcceptsCaseEq(scrutinee, (vs + ws)[i], (es + fs)[i], cs) <==>
                if i < |vs| then AcceptsCaseEq(scrutinee, vs[i], es[i], cs)
                else AcceptsCaseEq(scrutinee, ws[i - |vs|], fs[i - |vs|], cs) {
      }
      assert forall i :: 0 <= i < |vs| ==> (vs + ws)[i] == vs[i];
      assert forall i :: 0 <= i < |ws| ==> (vs + ws)[|vs| + i] == ws[i];
    }
  }

  // ---------- Every accepted statement is a lifting ----------

  lemma {:induction false} StmtChoiceOf(a: CStmt, b: Stmt, cs: Constants) returns (k: StmtChoice)
    requires Pair(a, b, cs)
    ensures LiftStmt(a, k, cs) == Some(b)
    decreases b, 3
  {
    if HasBodies(a) {
      k := CompoundChoiceOf(a, b, cs);
    } else if a.CDerefStore? || a.CSubscriptStore? || a.CFieldArrowStore? {
      k := StoreChoiceOf(a, b, cs);
    } else {
      k := SimpleChoiceOf(a, b, cs);
    }
  }

  predicate HasBodies(a: CStmt) {
    a.CFor? || a.CIf? || a.CWhile? || a.CDoWhile? || a.CSwitch?
  }

  lemma {:induction false} CompoundChoiceOf(a: CStmt, b: Stmt, cs: Constants) returns (k: StmtChoice)
    requires Pair(a, b, cs) && HasBodies(a)
    ensures LiftStmt(a, k, cs) == Some(b)
    decreases b, 2
  {
    if a.CFor? {
      ForParts(a, b, cs);
      k := ForChoiceOf(a, b, cs);
    } else if a.CIf? {
      k := IfChoiceOf(a, b, cs);
    } else if a.CSwitch? {
      var chain := ChainChoiceOf(a.scrutinee, a.cases, a.default, b, cs);
      k := Chained(chain);
    } else {
      k := LoopChoiceOf(a, b, cs);
    }
  }

  lemma {:induction false} SimpleChoiceOf(a: CStmt, b: Stmt, cs: Constants) returns (k: StmtChoice)
    requires Pair(a, b, cs) && !HasBodies(a) && !a.CDerefStore? && !a.CSubscriptStore? && !a.CFieldArrowStore?
    ensures LiftStmt(a, k, cs) == Some(b)
  {
    if a.CVarDecl? {
      k := DeclStmtChoiceOf(a, b, cs);
    } else if a.CReturn? {
      k := ReturnChoiceOf(a, b, cs);
    } else if a.CAssign? || a.CExprStmt? {
      k := ValueChoiceOf(a, b, cs);
    } else {
      k := JumpOrUpdateChoiceOf(a, b, cs);
    }
  }

  lemma {:induction false} JumpOrUpdateChoiceOf(a: CStmt, b: Stmt, cs: Constants) returns (k: StmtChoice)
    requires Pair(a, b, cs) && (a.CBreak? || a.CContinue? || a.CCompoundAssign? || a.CIncrement?)
    ensures LiftStmt(a, k, cs) == Some(b)
  {
    if a.CCompoundAssign? {
      k := UpdateChoiceOf(a, b, cs);
    } else if a.CIncrement? {
      k := Stepped(b.value.rhs.leaf.ty);
    } else {
      k := Plain;
    }
  }

  lemma {:induction false} DeclStmtChoiceOf(a: CStmt, b: Stmt, cs: Constants) returns (k: StmtChoice)
    requires Pair(a, b, cs) && a.CVarDecl?
    ensures LiftStmt(a, k, cs) == Some(b)
  {
    AcceptsDeclExactly(a.decl, b, cs);
    var kd :| LiftDecl(a.decl, kd, cs) == Some(b);
    k := Declares([kd]);
  }

  lemma {:induction false} ValueChoiceOf(a: CStmt, b: Stmt, cs: Constants) returns (k: StmtChoice)
    requires Pair(a, b, cs) && (a.CAssign? || a.CExprStmt?)
    ensures LiftStmt(a, k, cs) == Some(b)
  {
    var kv := ChoiceOf(a.value, b.value, cs);
    k := Valued(kv);
    assert LiftValued(a, kv, cs) == Some(b);
  }

  lemma {:induction false} UpdateChoiceOf(a: CStmt, b: Stmt, cs: Constants) returns (k: StmtChoice)
    requires Pair(a, b, cs) && a.CCompoundAssign?
    ensures LiftStmt(a, k, cs) == Some(b)
  {
    UpdatesArePairedBySpelling(a.op, b.value.bop.op);
    var kv := ChoiceOf(a.value, b.value.rhs, cs);
    k := Updated(b.value.bop.op, kv);
  }

  lemma {:induction false} LoopChoiceOf(a: CStmt, b: Stmt, cs: Constants) returns (k: StmtChoice)
    requires Pair(a, b, cs) && (a.CWhile? || a.CDoWhile?)
    ensures k.Looped? && LiftLoop(a, k, cs) == Some(b)
    decreases b, 1
  {
    var kc := ChoiceOf(a.cond, b.cond, cs);
    var kb := BodyChoiceOf(a.body, b.body, cs);
    k := Looped(kc, kb);
  }

  lemma {:induction false} ReturnChoiceOf(a: CStmt, b: Stmt, cs: Constants) returns (k: StmtChoice)
    requires Pair(a, b, cs) && a.CReturn?
    ensures LiftStmt(a, k, cs) == Some(b)
  {
    if a.result.None? {
      k := Plain;
    } else if b.ReturnExpr? {
      var kv := ChoiceOf(a.result.value, b.value, cs);
      k := Valued(kv);
    } else {
      var kv := ChoiceOf(a.result.value, b.cond, cs);
      k := Widened(kv, b.thenBody, b.elseBody);
    }
  }

  lemma {:induction false} StoreChoiceOf(a: CStmt, b: Stmt, cs: Constants) returns (k: StmtChoice)
    requires Pair(a, b, cs) && (a.CDerefStore? || a.CSubscriptStore? || a.CFieldArrowStore?)
    ensures LiftStmt(a, k, cs) == Some(b)
  {
    var value := ChoiceOf(a.value, b.value, cs);
    if a.CSubscriptStore? {
      var place := ChoiceOfMove(CAddressOf(CArraySubscript(a.base, a.index, None)), b.ptr, cs);
      k := Stored([], place, value);
    } else {
      var place := ChoiceOf(if a.CDerefStore? then a.operand else a.ptr, b.ptr, cs);
      k := Stored(if b.StoreField? then b.typeArgs else [], place, value);
    }
  }

  lemma {:induction false} IfChoiceOf(a: CStmt, b: Stmt, cs: Constants) returns (k: StmtChoice)
    requires Pair(a, b, cs) && a.CIf?
    ensures k.Branched? && LiftIf(a, k, cs) == Some(b)
    decreases b, 1
  {
    var kc := ChoiceOf(a.cond, b.cond, cs);
    var kx := BodyChoiceOf(a.thenBody, b.thenBody, cs);
    var ky := BodyChoiceOf(a.elseBody, b.elseBody, cs);
    k := Branched(kc, kx, ky);
  }

  ghost predicate ForPairs(a: CStmt, b: Stmt, cs: Constants) {
    && a.CFor? && b.CStyleFor?
    && a.forInit.Some? == b.forInit.Some? && (a.forInit.Some? ==> Pair(a.forInit.value, b.forInit.value, cs))
    && a.inc.Some? == b.inc.Some? && (a.inc.Some? ==> Pair(a.inc.value, b.inc.value, cs))
    && AcceptsInit(a.forCond, b.forCond, cs)
    && AcceptsBody(a.body, b.body, cs)
  }

  lemma {:induction false} ForParts(a: CStmt, b: Stmt, cs: Constants)
    requires Pair(a, b, cs) && a.CFor?
    ensures ForPairs(a, b, cs)
  {}

  lemma {:induction false} ForChoiceOf(a: CStmt, b: Stmt, cs: Constants) returns (k: StmtChoice)
    requires ForPairs(a, b, cs)
    ensures k.Counted? && LiftFor(a, k, cs) == Some(b)
    decreases b, 1
  {
    var init := ClauseChoiceOf(a.forInit, b.forInit, cs);
    var step := ClauseChoiceOf(a.inc, b.inc, cs);
    AcceptsInitExactly(a.forCond, b.forCond, cs);
    var test :| LiftInit(a.forCond, test, cs) == Some(b.forCond);
    var body := BodyChoiceOf(a.body, b.body, cs);
    k := Counted(init, test, step, body);
  }

  lemma {:induction false} ClauseChoiceOf(a: Option<CStmt>, b: Option<Stmt>, cs: Constants) returns (k: Option<StmtChoice>)
    requires a.Some? == b.Some? && (a.Some? ==> Pair(a.value, b.value, cs))
    ensures LiftClause(a, k, cs) == Some(b)
    decreases b, 0
  {
    k := None;
    if a.Some? {
      var kx := StmtChoiceOf(a.value, b.value, cs);
      k := Some(kx);
    }
  }

  lemma {:induction false} BodyChoiceOf(xs: seq<CStmt>, bs: seq<Stmt>, cs: Constants) returns (ks: seq<StmtChoice>)
    requires AcceptsBody(xs, bs, cs)
    ensures LiftBody(xs, ks, cs) == Some(bs)
    decreases bs, |xs|
  {
    if xs == [] {
      ks := [];
    } else if xs[0].CMultiVarDecl? {
      var n := |xs[0].decls|;
      var kd := DeclChoicesOf(xs[0].decls, bs[..n], cs);
      var rest := BodyChoiceOf(xs[1..], bs[n..], cs);
      ks := [Declares(kd)] + rest;
      assert ks[1..] == rest && bs[..n] + bs[n..] == bs;
    } else {
      var k := StmtChoiceOf(xs[0], bs[0], cs);
      var rest := BodyChoiceOf(xs[1..], bs[1..], cs);
      ks := [k] + rest;
      assert ks[1..] == rest && [bs[0]] + bs[1..] == bs;
    }
  }

  lemma {:induction false} ChainChoiceOf(scrutinee: CExpr, cases: seq<CSwitchCase>, default: seq<CStmt>, cur: Stmt, cs: Constants)
    returns (k: ChainChoice)
    requires cur.If? && AcceptsChain(scrutinee, cases, default, cur, cs)
    ensures LiftChain(scrutinee, cases, default, k, cs) == Some(cur)
    decreases cur, 1
  {
    if cases == [] {
      var kd := BodyChoiceOf(default, cur.elseBody, cs);
      k := NoCase(cur.cond, cur.thenBody, kd);
    } else {
      var tests := TestsOf(scrutinee, cases[0].values, cur.cond, cs);
      var kb := BodyChoiceOf(cases[0].body, cur.thenBody, cs);
      if cur.elseBody == [] || |cases| == 1 {
        var kd := BodyChoiceOf(default, cur.elseBody, cs);
        k := Last(tests, kb, kd);
      } else {
        var rest := ChainChoiceOf(scrutinee, cases[1..], default, cur.elseBody[0], cs);
        k := Next(tests, kb, rest);
        assert cur.elseBody == [cur.elseBody[0]];
      }
    }
  }

  lemma {:induction false} TestsOf(scrutinee: CExpr, values: seq<CExpr>, cond: Expr, cs: Constants) returns (k: Tests)
    requires AcceptsCaseCond(scrutinee, values, cond, cs)
    ensures LiftTests(scrutinee, values, k, cs) == Some(cond)
  {
    if |values| == 1 {
      assert Disjuncts(cond) == [cond];
    }
    k := TreeOf(scrutinee, values, cond, cs);
  }

  lemma {:induction false} TreeOf(scrutinee: CExpr, values: seq<CExpr>, cond: Expr, cs: Constants) returns (k: Tests)
    requires AcceptsCaseEqs(scrutinee, values, Disjuncts(cond), cs)
    ensures LiftTests(scrutinee, values, k, cs) == Some(cond) && Labels(k) == |values|
    decreases cond
  {
    if cond.Binary? && cond.bop.ScOr? {
      var n := |Disjuncts(cond.lhs)|;
      assert values[..n] + values[n..] == values;
      EqsAppend(scrutinee, values[..n], values[n..], Disjuncts(cond.lhs), Disjuncts(cond.rhs), cs);
      var l := TreeOf(scrutinee, values[..n], cond.lhs, cs);
      var r := TreeOf(scrutinee, values[n..], cond.rhs, cs);
      k := Either(l, r);
    } else {
      assert Disjuncts(cond) == [cond];
      assert AcceptsCaseEq(scrutinee, values[0], cond, cs);
      var ks := ChoiceOf(scrutinee, cond.lhs, cs);
      var kv := ChoiceOf(values[0], cond.rhs, cs);
      k := Label(ks, kv);
    }
  }

  /** A body is accepted exactly when it is a lifting of the C body. */
  lemma {:induction false} AcceptsBodyExactly(xs: seq<CStmt>, bs: seq<Stmt>, cs: Constants)
    ensures AcceptsBody(xs, bs, cs) <==> exists ks :: LiftBody(xs, ks, cs) == Some(bs)
  {
    if AcceptsBody(xs, bs, cs) {
      var ks := BodyChoiceOf(xs, bs, cs);
    }
    if ks :| LiftBody(xs, ks, cs) == Some(bs) {
      LiftedBodyIsAccepted(xs, ks, cs);
    }
  }

  // ---------- Functions ----------

  /** An accepted body has the total width of the C body. */
  lemma {:induction false} AcceptedWidth(xs: seq<CStmt>, bs: seq<Stmt>, cs: Constants)
    requires AcceptsBody(xs, bs, cs)
    ensures |bs| == TotalWidth(xs)
    decreases |xs|
  {
    if xs != [] {
      AcceptedWidth(xs[1..], bs[Width(xs[0])..], cs);
    }
  }

  lemma {:induction false} StubsAreStubs(stubs: seq<Stub>)
    ensures forall i :: 0 <= i < |stubs| ==> IsStub(StubStmts(stubs)[i])
  {
    if stubs != [] {
      StubsAreStubs(stubs[1..]);
    }
  }

  lemma {:induction false} StubsOf(bs: seq<Stmt>) returns (stubs: seq<Stub>)
    requires forall i :: 0 <= i < |bs| ==> IsStub(bs[i])
    ensures StubStmts(stubs) == bs
  {
    if bs == [] {
      stubs := [];
    } else {
      var first := if bs[0].Unreachable? then Nowhere else if bs[0].Return? then Bare else Zero(bs[0].value.leaf.ty);
      assert IsStub(bs[0]);
      var rest := StubsOf(bs[1..]);
      stubs := [first] + rest;
      assert stubs[1..] == rest && [bs[0]] + bs[1..] == bs;
    }
  }

  /** Behind what is kept there are only stubs, and stubs behind `width` statements are not kept. */
  lemma {:induction false} KeptIsBeforeStubs(bs: seq<Stmt>, width: nat)
    ensures forall i :: KeptLength(bs, width) <= i < |bs| ==> IsStub(bs[i])
    ensures width <= |bs| && (forall i :: width <= i < |bs| ==> IsStub(bs[i])) ==> KeptLength(bs, width) == width
    decreases |bs|
  {
    if |bs| > width && IsStub(bs[|bs| - 1]) {
      KeptIsBeforeStubs(bs[..|bs| - 1], width);
    }
  }

  lemma {:induction false} ParamArgsOf(ps: seq<CParam>, qs: seq<Param>) returns (typeArgs: seq<seq<Type>>)
    requires AcceptsParams(ps, qs)
    ensures LiftParams(ps, typeArgs) == Some(qs)
  {
    if ps == [] {
      typeArgs := [];
    } else {
      TypesAreLifted(ps[0].ty, qs[0].ty);
      var first :| LiftType(ps[0].ty, first) == Some(qs[0].ty);
      var rest := ParamArgsOf(ps[1..], qs[1..]);
      typeArgs := [first] + rest;
      assert typeArgs[1..] == rest && [qs[0]] + qs[1..] == qs;
    }
  }

  lemma {:induction false} LiftedParamsAreAccepted(ps: seq<CParam>, typeArgs: seq<seq<Type>>)
    requires LiftParams(ps, typeArgs).Some?
    ensures AcceptsParams(ps, LiftParams(ps, typeArgs).value)
  {
    if ps != [] {
      LiftedParamsAreAccepted(ps[1..], typeArgs[1..]);
      TypesAreLifted(ps[0].ty, LiftType(ps[0].ty, typeArgs[0]).value);
    }
  }

  /** The walk accepts a pair of functions exactly when the quod function is a lifting of the C function. */
  lemma {:induction false} AcceptsLiftingsExactly(cfn: CFn, fn: Function, cs: Constants)
    ensures AcceptsFn(cfn, fn, cs) <==> exists k :: IsLifting(cfn, fn, k, cs)
  {
    if AcceptsFn(cfn, fn, cs) {
      var k := FnChoiceOf(cfn, fn, cs);
    }
    if k :| IsLifting(cfn, fn, k, cs) {
      LiftingIsAccepted(cfn, fn, k, cs);
    }
  }

  lemma {:induction false} FnChoiceOf(cfn: CFn, fn: Function, cs: Constants) returns (k: FnChoice)
    requires AcceptsFn(cfn, fn, cs)
    ensures IsLifting(cfn, fn, k, cs)
  {
    var n := KeptLength(fn.body, TotalWidth(cfn.body));
    TypesAreLifted(cfn.returnType, fn.returnType);
    var returnArgs :| LiftType(cfn.returnType, returnArgs) == Some(fn.returnType);
    var paramArgs := ParamArgsOf(cfn.params, fn.params);
    var body := BodyChoiceOf(cfn.body, fn.body[..n], cs);
    KeptIsBeforeStubs(fn.body, TotalWidth(cfn.body));
    var stubs := StubsOf(fn.body[n..]);
    k := FnChoice(returnArgs, paramArgs, body, stubs);
    assert fn.body == fn.body[..n] + fn.body[n..];
  }

  lemma {:induction false} LiftingIsAccepted(cfn: CFn, fn: Function, k: FnChoice, cs: Constants)
    requires IsLifting(cfn, fn, k, cs)
    ensures AcceptsFn(cfn, fn, cs)
  {
    TypesAreLifted(cfn.returnType, fn.returnType);
    LiftedParamsAreAccepted(cfn.params, k.paramArgs);
    var bs, stubs := LiftBody(cfn.body, k.body, cs).value, StubStmts(k.stubs);
    LiftedBodyIsAccepted(cfn.body, k.body, cs);
    AcceptedWidth(cfn.body, bs, cs);
    StubsAreStubs(k.stubs);
    assert forall i :: |bs| <= i < |fn.body| ==> fn.body[i] == stubs[i - |bs|];
    KeptIsBeforeStubs(fn.body, |bs|);
    assert fn.body[..|bs|] == bs;
  }
}
