/** Renaming a function rewrites its definition and every call of it in the program's functions. */
module Rename {
  import opened Wrappers
  import opened QuodTree

  datatype Renaming = Renaming(old_: string, new_: string)

  function Back(r: Renaming): Renaming {
    Renaming(r.new_, r.old_)
  }

  function NewName(r: Renaming, name: string): string {
    if name == r.old_ then r.new_ else name
  }

  // ---------- The rewriter ----------

  function RenameOp(r: Renaming, op: NaryOp): NaryOp {
    match op
    case Call(f, typeArgs) => Call(NewName(r, f), typeArgs)
    case _ => op
  }

  function RenameExpr(r: Renaming, e: Expr): Expr {
    match e
    case Leaf(_) => e
    case Unary(op, x) => Unary(op, RenameExpr(r, x))
    case Binary(op, x, y) => Binary(op, RenameExpr(r, x), RenameExpr(r, y))
    case Nary(op, args) => Nary(RenameOp(r, op), RenameExprs(r, args))
    case IfExpr(c, x, y) => IfExpr(RenameExpr(r, c), RenameExpr(r, x), RenameExpr(r, y))
  }

  function RenameExprs(r: Renaming, es: seq<Expr>): (renamed: seq<Expr>)
    ensures |renamed| == |es|
  {
    if es == [] then [] else [RenameExpr(r, es[0])] + RenameExprs(r, es[1..])
  }

  function RenameStmt(r: Renaming, s: Stmt): Stmt
    decreases s
  {
    match s
    case ReturnExpr(e) => ReturnExpr(RenameExpr(r, e))
    case If(c, x, y) => If(RenameExpr(r, c), RenameStmts(r, x), RenameStmts(r, y))
    case Let(name, ty, Some(e)) => Let(name, ty, Some(RenameExpr(r, e)))
    case Assign(name, e) => Assign(name, RenameExpr(r, e))
    case While(c, body) => While(RenameExpr(r, c), RenameStmts(r, body))
    case DoWhile(body, c) => DoWhile(RenameStmts(r, body), RenameExpr(r, c))
    case For(name, ty, lo, hi, body) => For(name, ty, RenameExpr(r, lo), RenameExpr(r, hi), RenameStmts(r, body))
    case ExprStmt(e) => ExprStmt(RenameExpr(r, e))
    case FieldSet(name, field, e) => FieldSet(name, field, RenameExpr(r, e))
    case Store(p, e) => Store(RenameExpr(r, p), RenameExpr(r, e))
    case StoreField(p, structType, typeArgs, field, e) =>
      StoreField(RenameExpr(r, p), structType, typeArgs, field, RenameExpr(r, e))
    case WithArena(name, capacity, body) => WithArena(name, RenameExpr(r, capacity), RenameStmts(r, body))
    case Match(scrutinee, inferred, arms) => Match(RenameExpr(r, scrutinee), inferred, RenameArms(r, arms))
    case CStyleFor(init, c, inc, body) =>
      CStyleFor(match init { case None => None case Some(i) => Some(RenameStmt(r, i)) },
                match c { case None => None case Some(e) => Some(RenameExpr(r, e)) },
                match inc { case None => None case Some(i) => Some(RenameStmt(r, i)) },
                RenameStmts(r, body))
    case _ => s
  }

  function RenameStmts(r: Renaming, ss: seq<Stmt>): (renamed: seq<Stmt>)
    ensures |renamed| == |ss|
    decreases ss
  {
    if ss == [] then [] else [RenameStmt(r, ss[0])] + RenameStmts(r, ss[1..])
  }

  function RenameArms(r: Renaming, arms: seq<MatchArm>): (renamed: seq<MatchArm>)
    ensures |renamed| == |arms|
    decreases arms
  {
    if arms == [] then []
    else [MatchArm(arms[0].variant, arms[0].bindings, RenameStmts(r, arms[0].body))] + RenameArms(r, arms[1..])
  }

  /** The rewriter descends into every field, so it also reaches calls in claims. */
  function RenameClaim(r: Renaming, claim: Claim): Claim {
    claim.(expr := RenameExpr(r, claim.expr))
  }

  function RenameClaims(r: Renaming, claims: seq<Claim>): (renamed: seq<Claim>)
    ensures |renamed| == |claims|
  {
    if claims == [] then [] else [RenameClaim(r, claims[0])] + RenameClaims(r, claims[1..])
  }

  function RenameFn(r: Renaming, fn: Function): Function {
    fn.(name := NewName(r, fn.name), body := RenameStmts(r, fn.body), claims := RenameClaims(r, fn.claims))
  }

  function RenameFns(r: Renaming, fns: seq<Function>): (renamed: seq<Function>)
    ensures |renamed| == |fns| && forall i :: 0 <= i < |fns| ==> renamed[i] == RenameFn(r, fns[i])
  {
    if fns == [] then [] else [RenameFn(r, fns[0])] + RenameFns(r, fns[1..])
  }

  datatype RenameError = NoSuchFunction(name: string) | NameTaken(name: string)

  predicate Defines(fns: seq<Function>, name: string) {
    exists fn :: fn in fns && fn.name == name
  }

  method RenameFunction(fns: seq<Function>, r: Renaming) returns (renamed: Result<seq<Function>, RenameError>)
    ensures renamed ==
            if r.old_ == r.new_ then Ok(fns)
            else if !Defines(fns, r.old_) then Err(NoSuchFunction(r.old_))
            else if Defines(fns, r.new_) then Err(NameTaken(r.new_))
            else Ok(RenameFns(r, fns))
  {
    if r.old_ == r.new_ {
      return Ok(fns);
    }
    if !Defines(fns, r.old_) {
      return Err(NoSuchFunction(r.old_));
    }
    if Defines(fns, r.new_) {
      return Err(NameTaken(r.new_));
    }
    var rewritten: seq<Function> := [];
    for i := 0 to |fns|
      invariant |rewritten| == i && forall j :: 0 <= j < i ==> rewritten[j] == RenameFn(r, fns[j])
    {
      var fn := fns[i].(body := RenameStmts(r, fns[i].body), claims := RenameClaims(r, fns[i].claims));
      if fns[i].name == r.old_ {
        fn := fn.(name := r.new_);
      }
      rewritten := rewritten + [fn];
    }
    assert rewritten == RenameFns(r, fns);
    renamed := Ok(rewritten);
  }

  // ---------- Calls of a name ----------

  predicate NoCall(e: Expr, name: string) {
    match e
    case Leaf(_) => true
    case Unary(_, x) => NoCall(x, name)
    case Binary(_, x, y) => NoCall(x, name) && NoCall(y, name)
    case Nary(op, args) => !(op.Call? && op.function_ == name) && forall i :: 0 <= i < |args| ==> NoCall(args[i], name)
    case IfExpr(c, x, y) => NoCall(c, name) && NoCall(x, name) && NoCall(y, name)
  }

  predicate NoCallIn(s: Stmt, name: string)
    decreases s
  {
    match s
    case ReturnExpr(e) => NoCall(e, name)
    case If(c, x, y) => NoCall(c, name) && NoCalls(x, name) && NoCalls(y, name)
    case Let(_, _, init) => init.None? || NoCall(init.value, name)
    case Assign(_, e) => NoCall(e, name)
    case While(c, body) => NoCall(c, name) && NoCalls(body, name)
    case DoWhile(body, c) => NoCall(c, name) && NoCalls(body, name)
    case For(_, _, lo, hi, body) => NoCall(lo, name) && NoCall(hi, name) && NoCalls(body, name)
    case ExprStmt(e) => NoCall(e, name)
    case FieldSet(_, _, e) => NoCall(e, name)
    case Store(p, e) => NoCall(p, name) && NoCall(e, name)
    case StoreField(p, _, _, _, e) => NoCall(p, name) && NoCall(e, name)
    case WithArena(_, capacity, body) => NoCall(capacity, name) && NoCalls(body, name)
    case Match(scrutinee, _, arms) => NoCall(scrutinee, name) && forall i :: 0 <= i < |arms| ==> NoCalls(arms[i].body, name)
    case CStyleFor(init, c, inc, body) =>
      && (init.None? || NoCallIn(init.value, name))
      && (c.None? || NoCall(c.value, name))
      && (inc.None? || NoCallIn(inc.value, name))
      && NoCalls(body, name)
    case _ => true
  }

  predicate NoCalls(ss: seq<Stmt>, name: string)
    decreases ss
  {
    forall i :: 0 <= i < |ss| ==> NoCallIn(ss[i], name)
  }

  /** Neither the function nor any call in it or its claims has the name. */
  predicate Unused(fn: Function, name: string) {
    && fn.name != name
    && NoCalls(fn.body, name)
    && forall i :: 0 <= i < |fn.claims| ==> NoCall(fn.claims[i].expr, name)
  }

  // ---------- Renaming away and back ----------

  /** No call of the old name is left, and undoing the renaming restores the tree exactly when it did not call the new name. */
  ghost predicate Renames(r: Renaming, e: Expr) {
    && NoCall(RenameExpr(r, e), r.old_)
    && (RenameExpr(Back(r), RenameExpr(r, e)) == e <==> NoCall(e, r.new_))
  }

  lemma {:induction false} ExprRenames(r: Renaming, e: Expr)
    requires r.old_ != r.new_
    ensures Renames(r, e)
  {
    match e {
      case Leaf(_) =>
      case Unary(_, x) => ExprRenames(r, x);
      case Binary(_, x, y) =>
        ExprRenames(r, x);
        ExprRenames(r, y);
      case Nary(_, args) => ExprsRename(r, args);
      case IfExpr(c, x, y) =>
        ExprRenames(r, c);
        ExprRenames(r, x);
        ExprRenames(r, y);
    }
  }

  lemma {:induction false} ExprsRename(r: Renaming, es: seq<Expr>)
    requires r.old_ != r.new_
    ensures var renamed := RenameExprs(r, es);
            && (forall i :: 0 <= i < |es| ==> NoCall(renamed[i], r.old_))
            && (RenameExprs(Back(r), renamed) == es <==> forall i :: 0 <= i < |es| ==> NoCall(es[i], r.new_))
  {
    if es != [] {
      ExprRenames(r, es[0]);
      ExprsRename(r, es[1..]);
      assert RenameExprs(r, es)[1..] == RenameExprs(r, es[1..]);
      ConsIsEqual(RenameExpr(Back(r), RenameExpr(r, es[0])), es[0], RenameExprs(Back(r), RenameExprs(r, es[1..])), es[1..]);
      assert [es[0]] + es[1..] == es;
    }
  }

  ghost predicate RenamesStmt(r: Renaming, s: Stmt) {
    && NoCallIn(RenameStmt(r, s), r.old_)
    && (RenameStmt(Back(r), RenameStmt(r, s)) == s <==> NoCallIn(s, r.new_))
  }

  lemma {:induction false} StmtRenames(r: Renaming, s: Stmt)
    requires r.old_ != r.new_
    ensures RenamesStmt(r, s)
    decreases s, 2
  {
    if s.CStyleFor? {
      CStyleForRenames(r, s);
    } else if HasBody(s) {
      CompoundRenames(r, s);
    } else {
      SimpleRenames(r, s);
    }
  }

  lemma {:induction false} SimpleRenames(r: Renaming, s: Stmt)
    requires r.old_ != r.new_ && !HasBody(s)
    ensures RenamesStmt(r, s)
  {
    match s {
      case ReturnExpr(e) => ExprRenames(r, e);
      case Let(_, _, Some(e)) => ExprRenames(r, e);
      case Assign(_, e) => ExprRenames(r, e);
      case ExprStmt(e) => ExprRenames(r, e);
      case FieldSet(_, _, e) => ExprRenames(r, e);
      case Store(p, e) =>
        ExprRenames(r, p);
        ExprRenames(r, e);
      case StoreField(p, _, _, _, e) =>
        ExprRenames(r, p);
        ExprRenames(r, e);
      case _ =>
    }
  }

  lemma {:induction false} CompoundRenames(r: Renaming, s: Stmt)
    requires r.old_ != r.new_ && HasBody(s) && !s.CStyleFor?
    ensures RenamesStmt(r, s)
    decreases s, 1
  {
    match s {
      case If(c, x, y) =>
        ExprRenames(r, c);
        StmtsRename(r, x);
        StmtsRename(r, y);
      case While(_, _) => LoopRenames(r, s);
      case DoWhile(_, _) => LoopRenames(r, s);
      case For(_, _, _, _, _) => LoopRenames(r, s);
      case WithArena(_, capacity, body) =>
        ExprRenames(r, capacity);
        StmtsRename(r, body);
      case Match(_, _, _) => MatchRenames(r, s);
    }
  }

  lemma {:induction false} LoopRenames(r: Renaming, s: Stmt)
    requires r.old_ != r.new_ && (s.While? || s.DoWhile? || s.For?)
    ensures RenamesStmt(r, s)
    decreases s, 0
  {
    StmtsRename(r, s.body);
    if s.For? {
      ExprRenames(r, s.lo);
      ExprRenames(r, s.hi);
    } else {
      ExprRenames(r, s.cond);
    }
  }

  lemma {:induction false} MatchRenames(r: Renaming, s: Stmt)
    requires r.old_ != r.new_ && s.Match?
    ensures RenamesStmt(r, s)
    decreases s, 0
  {
    ExprRenames(r, s.scrutinee);
    ArmsRename(r, s.arms);
    assert RenameStmt(r, s) == Match(RenameExpr(r, s.scrutinee), s.inferred, RenameArms(r, s.arms));
  }

  lemma {:induction false} CStyleForRenames(r: Renaming, s: Stmt)
    requires r.old_ != r.new_ && s.CStyleFor?
    ensures RenamesStmt(r, s)
    decreases s, 0
  {
    if s.forInit.Some? {
      StmtRenames(r, s.forInit.value);
    }
    if s.forCond.Some? {
      ExprRenames(r, s.forCond.value);
    }
    if s.inc.Some? {
      StmtRenames(r, s.inc.value);
    }
    StmtsRename(r, s.body);
  }

  lemma {:induction false} StmtsRename(r: Renaming, ss: seq<Stmt>)
    requires r.old_ != r.new_
    ensures NoCalls(RenameStmts(r, ss), r.old_)
    ensures RenameStmts(Back(r), RenameStmts(r, ss)) == ss <==> NoCalls(ss, r.new_)
    decreases ss
  {
    if ss != [] {
      StmtRenames(r, ss[0]);
      StmtsRename(r, ss[1..]);
      assert RenameStmts(r, ss)[1..] == RenameStmts(r, ss[1..]);
      ConsIsEqual(RenameStmt(Back(r), RenameStmt(r, ss[0])), ss[0], RenameStmts(Back(r), RenameStmts(r, ss[1..])), ss[1..]);
      assert [ss[0]] + ss[1..] == ss;
    }
  }

  lemma {:induction false} ArmsRename(r: Renaming, arms: seq<MatchArm>)
    requires r.old_ != r.new_
    ensures var renamed := RenameArms(r, arms);
            && (forall i :: 0 <= i < |arms| ==> NoCalls(renamed[i].body, r.old_))
            && (RenameArms(Back(r), renamed) == arms <==> forall i :: 0 <= i < |arms| ==> NoCalls(arms[i].body, r.new_))
    decreases arms
  {
    if arms != [] {
      StmtsRename(r, arms[0].body);
      ArmsRename(r, arms[1..]);
      assert RenameArms(r, arms)[1..] == RenameArms(r, arms[1..]);
      var again := RenameArms(Back(r), RenameArms(r, arms));
      assert again[0] == MatchArm(arms[0].variant, arms[0].bindings, RenameStmts(Back(r), RenameStmts(r, arms[0].body)));
      ConsIsEqual(again[0], arms[0], again[1..], arms[1..]);
      assert [again[0]] + again[1..] == again;
      assert [arms[0]] + arms[1..] == arms;
    }
  }

  lemma {:induction false} ClaimRenames(r: Renaming, claim: Claim)
    requires r.old_ != r.new_
    ensures NoCall(RenameClaim(r, claim).expr, r.old_)
    ensures RenameClaim(Back(r), RenameClaim(r, claim)) == claim <==> NoCall(claim.expr, r.new_)
  {
    ExprRenames(r, claim.expr);
  }

  lemma {:induction false} ClaimsRename(r: Renaming, claims: seq<Claim>)
    requires r.old_ != r.new_
    ensures forall i :: 0 <= i < |claims| ==> NoCall(RenameClaims(r, claims)[i].expr, r.old_)
    ensures RenameClaims(Back(r), RenameClaims(r, claims)) == claims <==>
            forall i :: 0 <= i < |claims| ==> NoCall(claims[i].expr, r.new_)
  {
    if claims != [] {
      var first, rest := RenameClaim(r, claims[0]), RenameClaims(r, claims[1..]);
      ClaimRenames(r, claims[0]);
      ClaimsRename(r, claims[1..]);
      assert RenameClaims(r, claims)[0] == first && RenameClaims(r, claims)[1..] == rest;
      ConsIsEqual(RenameClaim(Back(r), first), claims[0], RenameClaims(Back(r), rest), claims[1..]);
      assert [claims[0]] + claims[1..] == claims;
    }
  }

  lemma {:induction false} FnRenames(r: Renaming, fn: Function)
    requires r.old_ != r.new_
    ensures Unused(RenameFn(r, fn), r.old_)
    ensures RenameFn(Back(r), RenameFn(r, fn)) == fn <==> Unused(fn, r.new_)
  {
    StmtsRename(r, fn.body);
    ClaimsRename(r, fn.claims);
    var again := RenameFn(Back(r), RenameFn(r, fn));
    assert again == fn <==> again.name == fn.name && again.body == fn.body && again.claims == fn.claims;
  }

  predicate NoneUses(fns: seq<Function>, name: string) {
    forall i :: 0 <= i < |fns| ==> Unused(fns[i], name)
  }

  lemma {:induction false} FnsAreEqual(xs: seq<Function>, ys: seq<Function>)
    requires |xs| == |ys|
    ensures xs == ys <==> forall i :: 0 <= i < |ys| ==> xs[i] == ys[i]
  {}

  /** Nothing uses the old name afterwards, and renaming back restores the functions exactly when nothing used the new one. */
  lemma {:induction false} RenamingIsUndone(r: Renaming, fns: seq<Function>)
    requires r.old_ != r.new_
    ensures NoneUses(RenameFns(r, fns), r.old_)
    ensures RenameFns(Back(r), RenameFns(r, fns)) == fns <==> NoneUses(fns, r.new_)
  {
    var renamed := RenameFns(r, fns);
    var again := RenameFns(Back(r), renamed);
    forall i | 0 <= i < |fns| ensures Unused(renamed[i], r.old_) && (again[i] == fns[i] <==> Unused(fns[i], r.new_)) {
      FnRenames(r, fns[i]);
    }
    FnsAreEqual(again, fns);
  }

  lemma {:induction false} ConsIsEqual<T>(x: T, y: T, xs: seq<T>, ys: seq<T>)
    ensures [x] + xs == [y] + ys <==> x == y && xs == ys
  {
    assert ([x] + xs)[0] == x && ([y] + ys)[0] == y;
    assert ([x] + xs)[1..] == xs && ([y] + ys)[1..] == ys;
  }
}
