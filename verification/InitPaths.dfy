/**
 * Exactness of the definite-initialisation walk against the set of paths, where
 * every condition is a free choice, a match takes any arm and a loop makes any
 * number of turns.
 */
module InitPaths {
  import opened Wrappers
  import opened QuodTree
  import opened DefiniteInit
  import opened Jumps

  // ---------- Paths ----------

  datatype End = Falls | Breaks | Continues | Returns

  /**
   * A path of `s` that starts with the names `before` written, ends in the given way
   * and has the names `after` written; no loop makes more than `n` turns after its first.
   */
  ghost predicate Path(n: nat, s: Stmt, before: set<string>, end: End, after: set<string>)
    decreases n, s, 2
  {
    match s
    case Let(name, _, Some(_)) => end == Falls && after == before + {name}
    case Assign(name, _) => end == Falls && after == before + {name}
    case ReturnExpr(_) | Return => end == Returns && after == before
    case Unreachable => false
    case Break => end == Breaks && after == before
    case Continue => end == Continues && after == before
    case If(_, x, y) => PathAll(n, x, before, end, after) || PathAll(n, y, before, end, after)
    case While(_, body) =>
      || (end == Falls && after == before)
      || Turns(n, s, before, end, after)
    case DoWhile(_, _) => Turns(n, s, before, end, after)
    case For(name, _, _, _, _) =>
      || (end == Falls && after == before + {name})
      || Turns(n, s, before + {name}, end, after)
    case Match(_, _, arms) =>
      exists k :: 0 <= k < |arms| && PathAll(n, arms[k].body, before + Elements(arms[k].bindings), end, after)
    case _ => end == Falls && after == before
  }

  ghost predicate PathAll(n: nat, ss: seq<Stmt>, before: set<string>, end: End, after: set<string>)
    decreases n, ss, 0
  {
    if ss == [] then end == Falls && after == before
    else
      || (end != Falls && Path(n, ss[0], before, end, after))
      || exists mid :: Path(n, ss[0], before, Falls, mid) && PathAll(n, ss[1..], mid, end, after)
  }

  predicate IsLoop(s: Stmt) {
    s.While? || s.DoWhile? || s.For?
  }

  /** One turn of a loop, then possibly more. */
  ghost predicate Turns(n: nat, s: Stmt, before: set<string>, end: End, after: set<string>)
    requires IsLoop(s)
    decreases n, s, 1
  {
    exists turn, mid :: PathAll(n, s.body, before, turn, mid) && AfterTurn(n, s, turn, mid, end, after)
  }

  ghost predicate AfterTurn(n: nat, s: Stmt, turn: End, mid: set<string>, end: End, after: set<string>)
    requires IsLoop(s)
    decreases n, s, 0
  {
    match turn
    case Breaks => end == Falls && after == mid
    case Returns => end == Returns && after == mid
    case _ => (end == Falls && after == mid) || (n > 0 && Turns(n - 1, s, mid, end, after))
  }

  predicate Mentions(e: Expr, x: string) {
    match e
    case Leaf(leaf) => leaf == LocalRef(x)
    case Unary(_, y) => Mentions(y, x)
    case Binary(_, l, r) => Mentions(l, x) || Mentions(r, x)
    case Nary(_, args) => exists i :: 0 <= i < |args| && Mentions(args[i], x)
    case IfExpr(c, y, z) => Mentions(c, x) || Mentions(y, x) || Mentions(z, x)
  }

  predicate HeadMentions(s: Stmt, x: string) {
    match s
    case Let(_, _, Some(e)) => Mentions(e, x)
    case Assign(_, e) => Mentions(e, x)
    case ExprStmt(e) => Mentions(e, x)
    case ReturnExpr(e) => Mentions(e, x)
    case If(c, _, _) => Mentions(c, x)
    case While(c, _) => Mentions(c, x)
    case For(_, _, lo, hi, _) => Mentions(lo, x) || Mentions(hi, x)
    case FieldSet(_, _, e) => Mentions(e, x)
    case Store(p, e) => Mentions(p, x) || Mentions(e, x)
    case StoreField(p, _, _, _, e) => Mentions(p, x) || Mentions(e, x)
    case Match(scrutinee, _, _) => Mentions(scrutinee, x)
    case _ => false
  }

  /** Some path of `s` reads `x` while `x` is not written. */
  ghost predicate ReadsUnset(n: nat, s: Stmt, before: set<string>, x: string)
    decreases n, s, 2
  {
    || (HeadMentions(s, x) && x !in before)
    || match s {
         case If(_, y, z) => ReadsUnsetAll(n, y, before, x) || ReadsUnsetAll(n, z, before, x)
         case While(_, _) => TurnsReadUnset(n, s, before, x)
         case DoWhile(_, _) => TurnsReadUnset(n, s, before, x)
         case For(name, _, _, _, _) => TurnsReadUnset(n, s, before + {name}, x)
         case Match(_, _, arms) =>
           exists k :: 0 <= k < |arms| && ReadsUnsetAll(n, arms[k].body, before + Elements(arms[k].bindings), x)
         case _ => false
       }
  }

  ghost predicate ReadsUnsetAll(n: nat, ss: seq<Stmt>, before: set<string>, x: string)
    decreases n, ss, 0
  {
    && ss != []
    && (|| ReadsUnset(n, ss[0], before, x)
        || exists mid :: Path(n, ss[0], before, Falls, mid) && ReadsUnsetAll(n, ss[1..], mid, x))
  }

  /** The body, the condition after a turn, or a later turn. */
  ghost predicate TurnsReadUnset(n: nat, s: Stmt, before: set<string>, x: string)
    requires IsLoop(s)
    decreases n, s, 1
  {
    || ReadsUnsetAll(n, s.body, before, x)
    || exists turn, mid :: PathAll(n, s.body, before, turn, mid) && TurnReadsUnset(n, s, turn, mid, x)
  }

  ghost predicate TurnReadsUnset(n: nat, s: Stmt, turn: End, mid: set<string>, x: string)
    requires IsLoop(s)
    decreases n, s, 0
  {
    && (turn == Falls || turn == Continues)
    && (|| (!s.For? && Mentions(s.cond, x) && x !in mid)
        || (n > 0 && TurnsReadUnset(n - 1, s, mid, x)))
  }

  // ---------- The fragment ----------

  predicate NoNot(e: Expr) {
    match e
    case Leaf(_) => true
    case Unary(op, x) => !op.Not? && NoNot(x)
    case Binary(_, l, r) => NoNot(l) && NoNot(r)
    case Nary(_, args) => forall i :: 0 <= i < |args| ==> NoNot(args[i])
    case IfExpr(c, x, y) => NoNot(c) && NoNot(x) && NoNot(y)
  }

  /** Can control fall off the end? */
  predicate FallsThrough(ss: seq<Stmt>) {
    After(ss, {}).Some?
  }

  /**
   * The walk looks into every expression; no arena and no C-style for; do-while bodies
   * can fall through and have no break or continue of their own loop.
   */
  predicate Walked(s: Stmt)
    decreases s
  {
    match s
    case Let(_, _, init) => init.None? || NoNot(init.value)
    case Assign(_, e) => NoNot(e)
    case ExprStmt(e) => NoNot(e)
    case ReturnExpr(e) => NoNot(e)
    case If(c, x, y) => NoNot(c) && AllWalked(x) && AllWalked(y)
    case While(c, body) => NoNot(c) && AllWalked(body)
    case DoWhile(body, c) => NoNot(c) && AllWalked(body) && NoOwnJumps(body) && FallsThrough(body)
    case For(_, _, lo, hi, body) => NoNot(lo) && NoNot(hi) && AllWalked(body)
    case FieldSet(_, _, e) => NoNot(e)
    case Store(p, e) => NoNot(p) && NoNot(e)
    case StoreField(p, _, _, _, e) => NoNot(p) && NoNot(e)
    case Match(scrutinee, _, arms) => NoNot(scrutinee) && forall i :: 0 <= i < |arms| ==> AllWalked(arms[i].body)
    case WithArena(_, _, _) => false
    case CStyleFor(_, _, _, _) => false
    case _ => true
  }

  predicate AllWalked(ss: seq<Stmt>)
    decreases ss
  {
    forall i :: 0 <= i < |ss| ==> Walked(ss[i])
  }

  /** Variables of for loops: the loop writes them even when it makes no turn, which the walk does not use. */
  predicate NotLoopVariable(s: Stmt, x: string)
    decreases s
  {
    match s
    case If(_, y, z) => NoLoopVariable(y, x) && NoLoopVariable(z, x)
    case While(_, body) => NoLoopVariable(body, x)
    case DoWhile(body, _) => NoLoopVariable(body, x)
    case For(name, _, _, _, body) => name != x && NoLoopVariable(body, x)
    case Match(_, _, arms) => forall i :: 0 <= i < |arms| ==> NoLoopVariable(arms[i].body, x)
    case _ => true
  }

  predicate NoLoopVariable(ss: seq<Stmt>, x: string)
    decreases ss
  {
    forall i :: 0 <= i < |ss| ==> NotLoopVariable(ss[i], x)
  }

  // ---------- Every path has written what the walk claims ----------

  lemma {:induction false} OwnJumpsOnly(n: nat, ss: seq<Stmt>, before: set<string>, end: End, after: set<string>)
    requires NoOwnJumps(ss) && PathAll(n, ss, before, end, after)
    ensures end == Falls || end == Returns
    decreases n, ss, 0
  {
    if ss != [] {
      if end != Falls && Path(n, ss[0], before, end, after) {
        OwnJumpsOnlyStmt(n, ss[0], before, end, after);
      } else {
        var mid :| Path(n, ss[0], before, Falls, mid) && PathAll(n, ss[1..], mid, end, after);
        OwnJumpsOnly(n, ss[1..], mid, end, after);
      }
    }
  }

  lemma {:induction false} OwnJumpsOnlyStmt(n: nat, s: Stmt, before: set<string>, end: End, after: set<string>)
    requires NoOwnJump(s) && Path(n, s, before, end, after)
    ensures end == Falls || end == Returns
    decreases n, s, 1
  {
    match s {
      case If(_, x, y) => OwnJumpsOnly(n, if PathAll(n, x, before, end, after) then x else y, before, end, after);
      case Match(_, _, arms) =>
        var k :| 0 <= k < |arms| && PathAll(n, arms[k].body, before + Elements(arms[k].bindings), end, after);
        OwnJumpsOnly(n, arms[k].body, before + Elements(arms[k].bindings), end, after);
      case While(_, _) => if Turns(n, s, before, end, after) { LoopEnds(n, s, before, end, after); }
      case DoWhile(_, _) => LoopEnds(n, s, before, end, after);
      case For(name, _, _, _, _) =>
        if Turns(n, s, before + {name}, end, after) { LoopEnds(n, s, before + {name}, end, after); }
      case _ =>
    }
  }

  lemma {:induction false} LoopEnds(n: nat, s: Stmt, before: set<string>, end: End, after: set<string>)
    requires IsLoop(s) && Turns(n, s, before, end, after)
    ensures end == Falls || end == Returns
    decreases n
  {
    var turn, mid :| PathAll(n, s.body, before, turn, mid) && AfterTurn(n, s, turn, mid, end, after);
    if turn != Breaks && turn != Returns && !(end == Falls && after == mid) {
      LoopEnds(n - 1, s, mid, end, after);
    }
  }

  /** What the walk claims for a statement is what any path that falls through has written. */
  ghost predicate Claimed(claim: Option<set<string>>, end: End, after: set<string>) {
    end == Falls ==> claim.Some? && claim.value <= after
  }

  lemma {:induction false} EveryPathWrites(n: nat, ss: seq<Stmt>, defined: set<string>, before: set<string>, end: End,
                                           after: set<string>)
    requires AllWalked(ss) && defined <= before && PathAll(n, ss, before, end, after)
    ensures before <= after && Claimed(After(ss, defined), end, after)
    decreases n, ss, 0
  {
    if ss != [] {
      if end != Falls && Path(n, ss[0], before, end, after) {
        EveryStmtPathWrites(n, ss[0], defined, before, end, after);
      } else {
        var mid :| Path(n, ss[0], before, Falls, mid) && PathAll(n, ss[1..], mid, end, after);
        EveryStmtPathWrites(n, ss[0], defined, before, Falls, mid);
        EveryPathWrites(n, ss[1..], AfterStmt(ss[0], defined).value, mid, end, after);
      }
    }
  }

  lemma {:induction false} EveryStmtPathWrites(n: nat, s: Stmt, defined: set<string>, before: set<string>, end: End,
                                               after: set<string>)
    requires Walked(s) && defined <= before && Path(n, s, before, end, after)
    ensures before <= after && Claimed(AfterStmt(s, defined), end, after)
    decreases n, s, 1
  {
    match s {
      case If(_, x, y) =>
        EveryPathWrites(n, if PathAll(n, x, before, end, after) then x else y, defined, before, end, after);
      case While(_, _) =>
        if Turns(n, s, before, end, after) { EveryTurnWrites(n, s, defined, before, end, after); }
      case DoWhile(_, _) =>
        EveryTurnWrites(n, s, defined, before, end, after);
      case For(name, _, _, _, _) =>
        if Turns(n, s, before + {name}, end, after) { EveryTurnWrites(n, s, defined, before + {name}, end, after); }
      case Match(_, _, arms) =>
        var k :| 0 <= k < |arms| && PathAll(n, arms[k].body, before + Elements(arms[k].bindings), end, after);
        EveryPathWrites(n, arms[k].body, defined + Elements(arms[k].bindings), before + Elements(arms[k].bindings), end, after);
        ArmOfAfter(arms, k, defined);
      case _ =>
    }
  }

  /** A loop writes at least what its entry had, a do-while also what its body writes. */
  lemma {:induction false} EveryTurnWrites(n: nat, s: Stmt, defined: set<string>, before: set<string>, end: End,
                                           after: set<string>)
    requires IsLoop(s) && Walked(s) && defined <= before && Turns(n, s, before, end, after)
    ensures before <= after && Claimed(AfterStmt(s, defined), end, after)
    decreases n, s, 0
  {
    var turn, mid :| PathAll(n, s.body, before, turn, mid) && AfterTurn(n, s, turn, mid, end, after);
    EveryPathWrites(n, s.body, defined, before, turn, mid);
    if s.DoWhile? {
      OwnJumpsOnly(n, s.body, before, turn, mid);
    }
    if turn != Breaks && turn != Returns && !(end == Falls && after == mid) {
      EveryTurnWrites(n - 1, s, defined, mid, end, after);
    }
  }

  // ---------- Some path avoids every other name ----------

  /** `None` asks for any path, `Some(x)` for one that does not write `x`. */
  predicate Missing(x: Option<string>, names: set<string>) {
    x.Some? ==> x.value !in names
  }

  predicate Free(x: Option<string>, ss: seq<Stmt>) {
    x.Some? ==> NoLoopVariable(ss, x.value)
  }

  lemma {:induction false} AfterGrows(ss: seq<Stmt>, defined: set<string>)
    ensures After(ss, defined).Some? ==> defined <= After(ss, defined).value
    decreases ss, 0
  {
    if ss != [] {
      AfterStmtGrows(ss[0], defined);
      if AfterStmt(ss[0], defined).Some? {
        AfterGrows(ss[1..], AfterStmt(ss[0], defined).value);
      }
    }
  }

  lemma {:induction false} AfterStmtGrows(s: Stmt, defined: set<string>)
    ensures AfterStmt(s, defined).Some? ==> defined <= AfterStmt(s, defined).value
    decreases s, 1
  {
    match s {
      case If(_, x, y) =>
        AfterGrows(x, defined);
        AfterGrows(y, defined);
      case DoWhile(body, _) => AfterGrows(body, defined);
      case Match(_, _, arms) => AfterArmsGrows(arms, defined);
      case _ =>
    }
  }

  lemma {:induction false} AfterArmsGrows(arms: seq<MatchArm>, defined: set<string>)
    ensures AfterArms(arms, defined).Some? ==> defined <= AfterArms(arms, defined).value
    decreases arms
  {
    if arms != [] {
      AfterGrows(arms[0].body, defined + Elements(arms[0].bindings));
      AfterArmsGrows(arms[1..], defined);
    }
  }

  /** Whether control falls through does not depend on what is written. */
  lemma {:induction false} FallingIsFixed(ss: seq<Stmt>, x: set<string>, y: set<string>)
    ensures After(ss, x).Some? == After(ss, y).Some?
    decreases ss, 0
  {
    if ss != [] {
      FallingStmtIsFixed(ss[0], x, y);
      if AfterStmt(ss[0], x).Some? {
        FallingIsFixed(ss[1..], AfterStmt(ss[0], x).value, AfterStmt(ss[0], y).value);
      }
    }
  }

  lemma {:induction false} FallingStmtIsFixed(s: Stmt, x: set<string>, y: set<string>)
    ensures AfterStmt(s, x).Some? == AfterStmt(s, y).Some?
    decreases s, 1
  {
    match s {
      case If(_, t, e) =>
        FallingIsFixed(t, x, y);
        FallingIsFixed(e, x, y);
      case Match(_, _, arms) => FallingArmsAreFixed(arms, x, y);
      case _ =>
    }
  }

  lemma {:induction false} FallingArmsAreFixed(arms: seq<MatchArm>, x: set<string>, y: set<string>)
    ensures AfterArms(arms, x).Some? == AfterArms(arms, y).Some?
    decreases arms
  {
    if arms != [] {
      FallingIsFixed(arms[0].body, x + Elements(arms[0].bindings), y + Elements(arms[0].bindings));
      FallingArmsAreFixed(arms[1..], x, y);
    }
  }

  /** A path that falls through and misses `x`, from wherever `x` is missing. */
  lemma {:induction false} AvoidingPath(ss: seq<Stmt>, defined: set<string>, before: set<string>, x: Option<string>)
    returns (after: set<string>)
    requires AllWalked(ss) && Free(x, ss)
    requires After(ss, defined).Some? && Missing(x, After(ss, defined).value) && Missing(x, before)
    ensures PathAll(0, ss, before, Falls, after) && Missing(x, after)
    decreases ss, 0
  {
    if ss == [] {
      after := before;
    } else {
      AfterGrows(ss[1..], AfterStmt(ss[0], defined).value);
      var mid := AvoidingStmtPath(ss[0], defined, before, x);
      after := AvoidingPath(ss[1..], AfterStmt(ss[0], defined).value, mid, x);
    }
  }

  lemma {:induction false} AvoidingStmtPath(s: Stmt, defined: set<string>, before: set<string>, x: Option<string>)
    returns (after: set<string>)
    requires Walked(s) && (x.Some? ==> NotLoopVariable(s, x.value))
    requires AfterStmt(s, defined).Some? && Missing(x, AfterStmt(s, defined).value) && Missing(x, before)
    ensures Path(0, s, before, Falls, after) && Missing(x, after)
    decreases s, 1
  {
    after := before;
    match s {
      case Let(name, _, Some(_)) => after := before + {name};
      case Assign(name, _) => after := before + {name};
      case For(name, _, _, _, _) => after := before + {name};
      case If(_, y, z) =>
        var t := After(y, defined);
        after := AvoidingPath(if t.Some? && Missing(x, t.value) then y else z, defined, before, x);
      case DoWhile(body, _) =>
        FallingIsFixed(body, {}, defined);
        after := AvoidingPath(body, defined, before, x);
        assert AfterTurn(0, s, Falls, after, Falls, after);
      case Match(_, _, arms) =>
        var k := AvoidingArm(arms, defined, x);
        AfterGrows(arms[k].body, defined + Elements(arms[k].bindings));
        after := AvoidingPath(arms[k].body, defined + Elements(arms[k].bindings), before + Elements(arms[k].bindings), x);
      case _ =>
    }
  }

  lemma {:induction false} AvoidingArm(arms: seq<MatchArm>, defined: set<string>, x: Option<string>) returns (k: nat)
    requires AfterArms(arms, defined).Some? && Missing(x, AfterArms(arms, defined).value)
    ensures k < |arms|
    ensures var arm := After(arms[k].body, defined + Elements(arms[k].bindings)); arm.Some? && Missing(x, arm.value)
  {
    var first := After(arms[0].body, defined + Elements(arms[0].bindings));
    if first.Some? && Missing(x, first.value) {
      k := 0;
    } else {
      k := AvoidingArm(arms[1..], defined, x);
      k := k + 1;
    }
  }

  // ---------- The walk is exact ----------

  /** The walk says that control falls through exactly when some path does. */
  lemma {:induction false} FallsThroughExactly(ss: seq<Stmt>, defined: set<string>)
    requires AllWalked(ss)
    ensures After(ss, defined).Some? <==> exists n: nat, after :: PathAll(n, ss, defined, Falls, after)
  {
    if After(ss, defined).Some? {
      var after := AvoidingPath(ss, defined, defined, None);
      assert PathAll(0, ss, defined, Falls, after);
    } else {
      forall n: nat, after | PathAll(n, ss, defined, Falls, after) ensures false {
        EveryPathWrites(n, ss, defined, defined, Falls, after);
      }
    }
  }

  /** A name is in the result exactly when every path that falls through has written it. */
  lemma {:induction false} WrittenExactly(ss: seq<Stmt>, defined: set<string>, x: string)
    requires AllWalked(ss) && NoLoopVariable(ss, x) && After(ss, defined).Some?
    ensures x in After(ss, defined).value <==> forall n: nat, after :: PathAll(n, ss, defined, Falls, after) ==> x in after
  {
    if x in After(ss, defined).value {
      forall n: nat, after | PathAll(n, ss, defined, Falls, after) ensures x in after {
        EveryPathWrites(n, ss, defined, defined, Falls, after);
      }
    } else {
      AfterGrows(ss, defined);
      var after := AvoidingPath(ss, defined, defined, Some(x));
      assert PathAll(0, ss, defined, Falls, after) && x !in after;
    }
  }

  // ---------- The reports are exact ----------

  lemma {:induction false} ExprReportsExactly(e: Expr, defined: set<string>, locals: set<string>, x: string)
    requires NoNot(e)
    ensures x in ExprReports(e, defined, locals) <==> Mentions(e, x) && x in locals && x !in defined
  {
    match e {
      case Leaf(_) =>
      case Unary(_, y) => ExprReportsExactly(y, defined, locals, x);
      case Binary(_, l, r) =>
        ExprReportsExactly(l, defined, locals, x);
        ExprReportsExactly(r, defined, locals, x);
      case Nary(_, args) => ArgReportsExactly(args, defined, locals, x);
      case IfExpr(c, y, z) =>
        ExprReportsExactly(c, defined, locals, x);
        ExprReportsExactly(y, defined, locals, x);
        ExprReportsExactly(z, defined, locals, x);
    }
  }

  lemma {:induction false} ArgReportsExactly(es: seq<Expr>, defined: set<string>, locals: set<string>, x: string)
    requires forall i :: 0 <= i < |es| ==> NoNot(es[i])
    ensures x in ArgReports(es, defined, locals) <==>
            (exists i :: 0 <= i < |es| && Mentions(es[i], x)) && x in locals && x !in defined
  {
    if es != [] {
      ExprReportsExactly(es[0], defined, locals, x);
      ArgReportsExactly(es[1..], defined, locals, x);
      assert forall i :: 1 <= i < |es| ==> es[i] == es[1..][i - 1];
    }
  }

  /** Nothing already written is reported. */
  lemma {:induction false} ReportedIsUnset(ss: seq<Stmt>, defined: set<string>, locals: set<string>, x: string)
    requires AllWalked(ss) && x in Reports(ss, defined, locals)
    ensures x in locals && x !in defined
    decreases ss, 0
  {
    if x in StmtReports(ss[0], defined, locals) {
      StmtReportedIsUnset(ss[0], defined, locals, x);
    } else {
      AfterStmtGrows(ss[0], defined);
      ReportedIsUnset(ss[1..], AfterStmt(ss[0], defined).value, locals, x);
    }
  }

  lemma {:induction false} StmtReportedIsUnset(s: Stmt, defined: set<string>, locals: set<string>, x: string)
    requires Walked(s) && x in StmtReports(s, defined, locals)
    ensures x in locals && x !in defined
    decreases s, 1
  {
    HeadReportsExactly(s, defined, locals, x);
    match s {
      case If(_, y, z) =>
        if x in Reports(y, defined, locals) { ReportedIsUnset(y, defined, locals, x); }
        if x in Reports(z, defined, locals) { ReportedIsUnset(z, defined, locals, x); }
      case While(_, body) =>
        if x in Reports(body, defined, locals) { ReportedIsUnset(body, defined, locals, x); }
      case DoWhile(body, c) =>
        FallingIsFixed(body, {}, defined);
        AfterGrows(body, defined);
        ExprReportsExactly(c, After(body, defined).value, locals, x);
        if x in Reports(body, defined, locals) { ReportedIsUnset(body, defined, locals, x); }
      case For(name, _, _, _, body) =>
        if x in Reports(body, defined + {name}, locals) { ReportedIsUnset(body, defined + {name}, locals, x); }
      case Match(_, _, arms) =>
        if x in ArmReports(arms, defined, locals) {
          var k := ReportingArm(arms, defined, locals, x);
          ReportedIsUnset(arms[k].body, defined + Elements(arms[k].bindings), locals, x);
        }
      case _ =>
    }
  }

  lemma {:induction false} ReportingArm(arms: seq<MatchArm>, defined: set<string>, locals: set<string>, x: string)
    returns (k: nat)
    requires x in ArmReports(arms, defined, locals)
    ensures k < |arms| && x in Reports(arms[k].body, defined + Elements(arms[k].bindings), locals)
  {
    if x in Reports(arms[0].body, defined + Elements(arms[0].bindings), locals) {
      k := 0;
    } else {
      k := ReportingArm(arms[1..], defined, locals, x);
      k := k + 1;
    }
  }

  lemma {:induction false} ArmIsReported(arms: seq<MatchArm>, k: nat, defined: set<string>, locals: set<string>, x: string)
    requires k < |arms| && x in Reports(arms[k].body, defined + Elements(arms[k].bindings), locals)
    ensures x in ArmReports(arms, defined, locals)
  {
    if k > 0 {
      ArmIsReported(arms[1..], k - 1, defined, locals, x);
    }
  }

  /** Reports of the expressions that a statement evaluates before any of its bodies. */
  function HeadReports(s: Stmt, defined: set<string>, locals: set<string>): seq<string> {
    match s
    case Let(_, _, Some(e)) => ExprReports(e, defined, locals)
    case Assign(_, e) => ExprReports(e, defined, locals)
    case ExprStmt(e) => ExprReports(e, defined, locals)
    case ReturnExpr(e) => ExprReports(e, defined, locals)
    case If(c, _, _) => ExprReports(c, defined, locals)
    case While(c, _) => ExprReports(c, defined, locals)
    case For(_, _, lo, hi, _) => ExprReports(lo, defined, locals) + ExprReports(hi, defined, locals)
    case FieldSet(_, _, e) => ExprReports(e, defined, locals)
    case Store(p, e) => ExprReports(p, defined, locals) + ExprReports(e, defined, locals)
    case StoreField(p, _, _, _, e) => ExprReports(p, defined, locals) + ExprReports(e, defined, locals)
    case Match(scrutinee, _, _) => ExprReports(scrutinee, defined, locals)
    case _ => []
  }

  lemma {:induction false} HeadReportsExactly(s: Stmt, defined: set<string>, locals: set<string>, x: string)
    requires Walked(s)
    ensures x in HeadReports(s, defined, locals) <==> HeadMentions(s, x) && x in locals && x !in defined
  {
    match s {
      case Let(_, _, Some(e)) => ExprReportsExactly(e, defined, locals, x);
      case Assign(_, e) => ExprReportsExactly(e, defined, locals, x);
      case ExprStmt(e) => ExprReportsExactly(e, defined, locals, x);
      case ReturnExpr(e) => ExprReportsExactly(e, defined, locals, x);
      case If(c, _, _) => ExprReportsExactly(c, defined, locals, x);
      case While(c, _) => ExprReportsExactly(c, defined, locals, x);
      case For(_, _, lo, hi, _) =>
        ExprReportsExactly(lo, defined, locals, x);
        ExprReportsExactly(hi, defined, locals, x);
      case FieldSet(_, _, e) => ExprReportsExactly(e, defined, locals, x);
      case Store(p, e) =>
        ExprReportsExactly(p, defined, locals, x);
        ExprReportsExactly(e, defined, locals, x);
      case StoreField(p, _, _, _, e) =>
        ExprReportsExactly(p, defined, locals, x);
        ExprReportsExactly(e, defined, locals, x);
      case Match(scrutinee, _, _) => ExprReportsExactly(scrutinee, defined, locals, x);
      case _ =>
    }
  }

  /** Every unset read that a path reaches is reported. */
  lemma {:induction false} EveryUnsetReadIsReported(n: nat, ss: seq<Stmt>, defined: set<string>, before: set<string>,
                                                    locals: set<string>, x: string)
    requires AllWalked(ss) && defined <= before && x in locals && ReadsUnsetAll(n, ss, before, x)
    ensures x in Reports(ss, defined, locals)
    decreases n, ss, 0
  {
    if ReadsUnset(n, ss[0], before, x) {
      EveryStmtUnsetReadIsReported(n, ss[0], defined, before, locals, x);
    } else {
      var mid :| Path(n, ss[0], before, Falls, mid) && ReadsUnsetAll(n, ss[1..], mid, x);
      EveryStmtPathWrites(n, ss[0], defined, before, Falls, mid);
      EveryUnsetReadIsReported(n, ss[1..], AfterStmt(ss[0], defined).value, mid, locals, x);
    }
  }

  lemma {:induction false} EveryStmtUnsetReadIsReported(n: nat, s: Stmt, defined: set<string>, before: set<string>,
                                                        locals: set<string>, x: string)
    requires Walked(s) && defined <= before && x in locals && ReadsUnset(n, s, before, x)
    ensures x in StmtReports(s, defined, locals)
    decreases n, s, 2
  {
    HeadReportsExactly(s, defined, locals, x);
    if !(HeadMentions(s, x) && x !in before) {
      match s {
        case If(_, y, z) =>
          EveryUnsetReadIsReported(n, if ReadsUnsetAll(n, y, before, x) then y else z, defined, before, locals, x);
        case While(_, _) => EveryTurnReadIsReported(n, s, defined, before, locals, x);
        case DoWhile(_, _) => EveryTurnReadIsReported(n, s, defined, before, locals, x);
        case For(name, _, _, _, _) => EveryTurnReadIsReported(n, s, defined, before + {name}, locals, x);
        case Match(_, _, arms) =>
          var k :| 0 <= k < |arms| && ReadsUnsetAll(n, arms[k].body, before + Elements(arms[k].bindings), x);
          EveryUnsetReadIsReported(n, arms[k].body, defined + Elements(arms[k].bindings),
                                   before + Elements(arms[k].bindings), locals, x);
          ArmIsReported(arms, k, defined, locals, x);
      }
    }
  }

  lemma {:induction false} EveryTurnReadIsReported(n: nat, s: Stmt, defined: set<string>, before: set<string>,
                                                   locals: set<string>, x: string)
    requires IsLoop(s) && Walked(s) && defined <= before && (s.For? ==> s.name in before)
    requires x in locals && TurnsReadUnset(n, s, before, x)
    ensures x in StmtReports(s, defined, locals)
    decreases n, s, 1
  {
    var entry := if s.For? then defined + {s.name} else defined;
    if ReadsUnsetAll(n, s.body, before, x) {
      EveryUnsetReadIsReported(n, s.body, entry, before, locals, x);
    } else {
      var turn, mid :| PathAll(n, s.body, before, turn, mid) && TurnReadsUnset(n, s, turn, mid, x);
      EveryPathWrites(n, s.body, entry, before, turn, mid);
      if !s.For? && Mentions(s.cond, x) && x !in mid {
        if s.DoWhile? {
          OwnJumpsOnly(n, s.body, before, turn, mid);
          ExprReportsExactly(s.cond, After(s.body, defined).value, locals, x);
        } else {
          ExprReportsExactly(s.cond, defined, locals, x);
        }
      } else {
        EveryTurnReadIsReported(n - 1, s, defined, mid, locals, x);
      }
    }
  }

  /** Every report is an unset read that some path reaches. */
  lemma {:induction false} EveryReportIsReached(ss: seq<Stmt>, defined: set<string>, before: set<string>,
                                                locals: set<string>, x: string)
    requires AllWalked(ss) && NoLoopVariable(ss, x) && x !in before && x in Reports(ss, defined, locals)
    ensures ReadsUnsetAll(0, ss, before, x)
    decreases ss, 0
  {
    if x in StmtReports(ss[0], defined, locals) {
      EveryStmtReportIsReached(ss[0], defined, before, locals, x);
    } else {
      var next := AfterStmt(ss[0], defined).value;
      ReportedIsUnset(ss[1..], next, locals, x);
      var mid := AvoidingStmtPath(ss[0], defined, before, Some(x));
      EveryReportIsReached(ss[1..], next, mid, locals, x);
    }
  }

  lemma {:induction false} EveryStmtReportIsReached(s: Stmt, defined: set<string>, before: set<string>,
                                                    locals: set<string>, x: string)
    requires Walked(s) && NotLoopVariable(s, x) && x !in before && x in StmtReports(s, defined, locals)
    ensures ReadsUnset(0, s, before, x)
    decreases s, 1
  {
    HeadReportsExactly(s, defined, locals, x);
    if !HeadMentions(s, x) {
      match s {
        case If(_, y, z) =>
          EveryReportIsReached(if x in Reports(y, defined, locals) then y else z, defined, before, locals, x);
        case While(_, body) => EveryReportIsReached(body, defined, before, locals, x);
        case DoWhile(body, c) => EveryDoWhileReportIsReached(s, defined, before, locals, x);
        case For(name, _, _, _, body) => EveryReportIsReached(body, defined + {name}, before + {name}, locals, x);
        case Match(_, _, arms) =>
          var k := ReportingArm(arms, defined, locals, x);
          ReportedIsUnset(arms[k].body, defined + Elements(arms[k].bindings), locals, x);
          EveryReportIsReached(arms[k].body, defined + Elements(arms[k].bindings), before + Elements(arms[k].bindings),
                               locals, x);
      }
    }
  }

  lemma {:induction false} EveryDoWhileReportIsReached(s: Stmt, defined: set<string>, before: set<string>,
                                                       locals: set<string>, x: string)
    requires s.DoWhile? && Walked(s) && NotLoopVariable(s, x) && x !in before && x in StmtReports(s, defined, locals)
    ensures TurnsReadUnset(0, s, before, x)
    decreases s, 0
  {
    if x in Reports(s.body, defined, locals) {
      EveryReportIsReached(s.body, defined, before, locals, x);
    } else {
      FallingIsFixed(s.body, {}, defined);
      ExprReportsExactly(s.cond, After(s.body, defined).value, locals, x);
      var mid := AvoidingPath(s.body, defined, before, Some(x));
      assert TurnReadsUnset(0, s, Falls, mid, x);
    }
  }

  /** A local is reported exactly when some path reads it while it is not written. */
  lemma {:induction false} ReportedExactly(ss: seq<Stmt>, defined: set<string>, locals: set<string>, x: string)
    requires AllWalked(ss) && NoLoopVariable(ss, x)
    ensures x in Reports(ss, defined, locals) <==> x in locals && exists n: nat :: ReadsUnsetAll(n, ss, defined, x)
  {
    if x in Reports(ss, defined, locals) {
      ReportedIsUnset(ss, defined, locals, x);
      EveryReportIsReached(ss, defined, defined, locals, x);
      assert ReadsUnsetAll(0, ss, defined, x);
    } else if x in locals {
      forall n: nat | ReadsUnsetAll(n, ss, defined, x) ensures false {
        EveryUnsetReadIsReported(n, ss, defined, defined, locals, x);
      }
    }
  }

  // ---------- Outside the fragment the result is not exact ----------

  /** After a loop its variable is written on every path, yet the walk does not claim it. */
  lemma {:induction false} ForVariableGap(n: nat, s: Stmt, before: set<string>, after: set<string>)
    requires s.For? && Walked(s) && Path(n, s, before, Falls, after)
    ensures s.name in after
    ensures AfterStmt(s, before) == Some(before)
  {
    if Turns(n, s, before + {s.name}, Falls, after) {
      EveryTurnWrites(n, s, before, before + {s.name}, Falls, after);
    }
  }

  /**
   * For a do-while with no jumps of its own the walk is right about whether control gets
   * behind it exactly when its body can fall through.
   */
  lemma {:induction false} DoWhileExactly(s: Stmt, before: set<string>)
    requires s.DoWhile? && AllWalked(s.body) && NoOwnJumps(s.body)
    ensures (AfterStmt(s, before).Some? <==> exists n: nat, after :: Path(n, s, before, Falls, after)) <==>
            FallsThrough(s.body)
  {
    if FallsThrough(s.body) {
      FallingIsFixed(s.body, {}, before);
      var after := AvoidingPath(s.body, before, before, None);
      assert AfterTurn(0, s, Falls, after, Falls, after);
      assert Path(0, s, before, Falls, after);
    } else {
      forall n: nat, after ensures !Path(n, s, before, Falls, after) {
        DoWhileGap(n, s, before, after);
      }
    }
  }

  /** A do-while whose body never falls through never does either, yet the walk goes on. */
  lemma {:induction false} DoWhileGap(n: nat, s: Stmt, before: set<string>, after: set<string>)
    requires s.DoWhile? && AllWalked(s.body) && NoOwnJumps(s.body) && !FallsThrough(s.body)
    ensures !Path(n, s, before, Falls, after)
    ensures AfterStmt(s, before) == Some(before)
  {
    FallingIsFixed(s.body, {}, before);
    forall turn, mid | PathAll(n, s.body, before, turn, mid) ensures !AfterTurn(n, s, turn, mid, Falls, after) {
      EveryPathWrites(n, s.body, before, before, turn, mid);
      OwnJumpsOnly(n, s.body, before, turn, mid);
    }
    assert !Turns(n, s, before, Falls, after);
  }
}
