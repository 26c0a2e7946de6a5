/**
 * The definite-initialisation analysis: a forward walk that carries the names
 * definitely written and reports each read of a declared local that is not
 * among them.
 */
module DefiniteInit {
  import opened Wrappers
  import opened QuodTree

  // ---------- What the walk computes ----------

  /** Names that the declaration pass collects; it does not look into do-while bodies. */
  function Collected(ss: seq<Stmt>): set<string>
    decreases ss
  {
    if ss == [] then {} else CollectedBy(ss[0]) + Collected(ss[1..])
  }

  function CollectedBy(s: Stmt): set<string>
    decreases s
  {
    match s
    case Let(name, _, _) => {name}
    case For(name, _, _, _, body) => {name} + Collected(body)
    case If(_, x, y) => Collected(x) + Collected(y)
    case While(_, body) => Collected(body)
    case Match(_, _, arms) => CollectedInArms(arms)
    case WithArena(name, _, body) => {name} + Collected(body)
    case _ => {}
  }

  function CollectedInArms(arms: seq<MatchArm>): set<string>
    decreases arms
  {
    if arms == [] then {} else Collected(arms[0].body) + CollectedInArms(arms[1..])
  }

  function Names(params: seq<Param>): set<string> {
    set p | p in params :: p.name
  }

  /** The locals of a function: parameters are never redeclared. */
  function Locals(fn: Function): set<string> {
    Collected(fn.body) - Names(fn.params)
  }

  /** Reads reported in an expression; the walk has no case for `Not`. */
  function ExprReports(e: Expr, defined: set<string>, locals: set<string>): seq<string> {
    match e
    case Leaf(LocalRef(x)) => if x in locals && x !in defined then [x] else []
    case Leaf(_) => []
    case Unary(op, x) => if op.Not? then [] else ExprReports(x, defined, locals)
    case Binary(_, l, r) => ExprReports(l, defined, locals) + ExprReports(r, defined, locals)
    case Nary(_, args) => ArgReports(args, defined, locals)
    case IfExpr(c, x, y) =>
      ExprReports(c, defined, locals) + ExprReports(x, defined, locals) + ExprReports(y, defined, locals)
  }

  function ArgReports(es: seq<Expr>, defined: set<string>, locals: set<string>): seq<string> {
    if es == [] then [] else ExprReports(es[0], defined, locals) + ArgReports(es[1..], defined, locals)
  }

  /** Names definitely written where control falls through; `None` when it never does. */
  function AfterStmt(s: Stmt, defined: set<string>): Option<set<string>>
    decreases s
  {
    match s
    case Let(name, _, init) => Some(if init.Some? then defined + {name} else defined)
    case Assign(name, _) => Some(defined + {name})
    case ReturnExpr(_) | Return | Unreachable | Break | Continue => None
    case If(_, x, y) => Meet(After(x, defined), After(y, defined))
    case DoWhile(body, _) => Some(After(body, defined).GetOr(defined))
    case Match(_, _, arms) => AfterArms(arms, defined)
    case _ => Some(defined)
  }

  function After(ss: seq<Stmt>, defined: set<string>): Option<set<string>>
    decreases ss
  {
    if ss == [] then Some(defined) else
      var next :- AfterStmt(ss[0], defined);
      After(ss[1..], next)
  }

  function AfterArms(arms: seq<MatchArm>, defined: set<string>): Option<set<string>>
    decreases arms
  {
    if arms == [] then None
    else Meet(After(arms[0].body, defined + Elements(arms[0].bindings)), AfterArms(arms[1..], defined))
  }

  /** Branches that fall through are intersected; one that does not is ignored. */
  function Meet(x: Option<set<string>>, y: Option<set<string>>): Option<set<string>> {
    if x.None? then y else if y.None? then x else Some(x.value * y.value)
  }

  function StmtReports(s: Stmt, defined: set<string>, locals: set<string>): seq<string>
    decreases s
  {
    match s
    case Let(_, _, init) => if init.Some? then ExprReports(init.value, defined, locals) else []
    case Assign(_, e) => ExprReports(e, defined, locals)
    case ExprStmt(e) => ExprReports(e, defined, locals)
    case ReturnExpr(e) => ExprReports(e, defined, locals)
    case If(c, x, y) =>
      ExprReports(c, defined, locals) + Reports(x, defined, locals) + Reports(y, defined, locals)
    case While(c, body) => ExprReports(c, defined, locals) + Reports(body, defined, locals)
    case DoWhile(body, c) =>
      Reports(body, defined, locals)
      + (match After(body, defined)
         case None => []
         case Some(after) => ExprReports(c, after, locals))
    case For(name, _, lo, hi, body) =>
      ExprReports(lo, defined, locals) + ExprReports(hi, defined, locals)
      + Reports(body, defined + {name}, locals)
    case FieldSet(_, _, e) => ExprReports(e, defined, locals)
    case Store(p, e) => ExprReports(p, defined, locals) + ExprReports(e, defined, locals)
    case StoreField(p, _, _, _, e) => ExprReports(p, defined, locals) + ExprReports(e, defined, locals)
    case Match(scrutinee, _, arms) => ExprReports(scrutinee, defined, locals) + ArmReports(arms, defined, locals)
    case WithArena(name, capacity, body) =>
      ExprReports(capacity, defined, locals) + Reports(body, defined + {name}, locals)
    case _ => []
  }

  function Reports(ss: seq<Stmt>, defined: set<string>, locals: set<string>): seq<string>
    decreases ss
  {
    if ss == [] then []
    else StmtReports(ss[0], defined, locals)
         + (match AfterStmt(ss[0], defined)
            case None => []
            case Some(next) => Reports(ss[1..], next, locals))
  }

  function ArmReports(arms: seq<MatchArm>, defined: set<string>, locals: set<string>): seq<string>
    decreases arms
  {
    if arms == [] then []
    else Reports(arms[0].body, defined + Elements(arms[0].bindings), locals) + ArmReports(arms[1..], defined, locals)
  }

  /** The reads of what is left of the arguments, by the first one. */
  lemma {:induction false} OneArg(args: seq<Expr>, i: nat, defined: set<string>, locals: set<string>)
    requires i < |args|
    ensures ArgReports(args[i..], defined, locals) ==
            ExprReports(args[i], defined, locals) + ArgReports(args[i + 1..], defined, locals)
  {
    assert args[i..][1..] == args[i + 1..];
  }

  /** The walk of what is left of a list, by its first statement. */
  lemma {:induction false} OneStep(ss: seq<Stmt>, i: nat, defined: set<string>, locals: set<string>)
    requires i < |ss|
    ensures var next := AfterStmt(ss[i], defined);
            After(ss[i..], defined) == (if next.None? then None else After(ss[i + 1..], next.value)) &&
            Reports(ss[i..], defined, locals) ==
            StmtReports(ss[i], defined, locals) + (if next.None? then [] else Reports(ss[i + 1..], next.value, locals))
  {
    assert ss[i..][0] == ss[i] && ss[i..][1..] == ss[i + 1..];
  }

  /** The same for what is left of the arms. */
  lemma {:induction false} OneArm(arms: seq<MatchArm>, i: nat, defined: set<string>, locals: set<string>)
    requires i < |arms|
    ensures var entry := defined + Elements(arms[i].bindings);
            AfterArms(arms[i..], defined) == Meet(After(arms[i].body, entry), AfterArms(arms[i + 1..], defined)) &&
            ArmReports(arms[i..], defined, locals) ==
            Reports(arms[i].body, entry, locals) + ArmReports(arms[i + 1..], defined, locals)
  {
    assert arms[i..][0] == arms[i] && arms[i..][1..] == arms[i + 1..];
  }

  lemma {:induction false} ThreeInARow(before: seq<string>, x: seq<string>, y: seq<string>, z: seq<string>)
    ensures ((before + x) + y) + z == before + ((x + y) + z)
  {}

  // ---------- The walk as the validator runs it ----------

  /** The validator's state that this analysis touches. */
  class Context {
    var locals: set<string>
    var diagnostics: seq<string>

    constructor (fn: Function)
      ensures locals == Locals(fn) && diagnostics == []
    {
      locals := Locals(fn);
      diagnostics := [];
    }

    /** Visits the reads of an expression in evaluation order. */
    method CheckExprReads(e: Expr, defined: set<string>)
      modifies this`diagnostics
      ensures diagnostics == old(diagnostics) + ExprReports(e, defined, locals)
      decreases e
    {
      match e {
        case Leaf(LocalRef(x)) =>
          if x in locals && x !in defined {
            diagnostics := diagnostics + [x];
          }
        case Leaf(_) =>
        case Unary(op, x) =>
          if !op.Not? {
            CheckExprReads(x, defined);
          }
        case Binary(_, l, r) =>
          CheckExprReads(l, defined);
          CheckExprReads(r, defined);
        case Nary(_, args) =>
          for i := 0 to |args|
            invariant diagnostics + ArgReports(args[i..], defined, locals) ==
                      old(diagnostics) + ArgReports(args, defined, locals)
          {
            OneArg(args, i, defined, locals);
            CheckExprReads(args[i], defined);
          }
        case IfExpr(c, x, y) =>
          CheckExprReads(c, defined);
          CheckExprReads(x, defined);
          CheckExprReads(y, defined);
      }
    }

    /** The statement loop: stops at the first statement that does not fall through. */
    method WalkDefiniteInit(ss: seq<Stmt>, entry: set<string>) returns (after: Option<set<string>>)
      modifies this`diagnostics
      ensures after == After(ss, entry)
      ensures diagnostics == old(diagnostics) + Reports(ss, entry, locals)
      decreases ss, 0
    {
      var defined := entry;
      ghost var all := diagnostics + Reports(ss, entry, locals);
      assert ss[0..] == ss;
      for i := 0 to |ss|
        invariant After(ss[i..], defined) == After(ss, entry)
        invariant diagnostics + Reports(ss[i..], defined, locals) == all
      {
        OneStep(ss, i, defined, locals);
        var next := CheckStmtInit(ss[i], defined);
        if next.None? {
          return None;
        }
        defined := next.value;
      }
      after := Some(defined);
    }

    method CheckStmtInit(s: Stmt, defined: set<string>) returns (after: Option<set<string>>)
      modifies this`diagnostics
      ensures after == AfterStmt(s, defined)
      ensures diagnostics == old(diagnostics) + StmtReports(s, defined, locals)
      decreases s, 2
    {
      after := Some(defined);
      match s {
        case Let(name, _, init) =>
          if init.Some? {
            CheckExprReads(init.value, defined);
            after := Some(defined + {name});
          }
        case Assign(name, e) =>
          CheckExprReads(e, defined);
          after := Some(defined + {name});
        case ExprStmt(e) =>
          CheckExprReads(e, defined);
        case ReturnExpr(e) =>
          CheckExprReads(e, defined);
          after := None;
        case Return => after := None;
        case Unreachable => after := None;
        case Break => after := None;
        case Continue => after := None;
        case FieldSet(_, _, e) =>
          CheckExprReads(e, defined);
        case Store(p, e) =>
          CheckExprReads(p, defined);
          CheckExprReads(e, defined);
        case StoreField(p, _, _, _, e) =>
          CheckExprReads(p, defined);
          CheckExprReads(e, defined);
        case CStyleFor(_, _, _, _) =>
        case _ =>
          after := CheckCompoundInit(s, defined);
      }
    }

    /** Statements with bodies. */
    method CheckCompoundInit(s: Stmt, defined: set<string>) returns (after: Option<set<string>>)
      requires s.If? || s.While? || s.DoWhile? || s.For? || s.Match? || s.WithArena?
      modifies this`diagnostics
      ensures after == AfterStmt(s, defined)
      ensures diagnostics == old(diagnostics) + StmtReports(s, defined, locals)
      decreases s, 1
    {
      after := Some(defined);
      match s {
        case If(_, _, _) =>
          after := CheckIfInit(s, defined);
        case While(c, body) =>
          CheckExprReads(c, defined);
          var _ := WalkDefiniteInit(body, defined);
        case DoWhile(_, _) =>
          after := CheckDoWhileInit(s, defined);
        case For(_, _, _, _, _) =>
          CheckForInit(s, defined);
        case Match(scrutinee, _, arms) =>
          CheckExprReads(scrutinee, defined);
          after := CheckArms(arms, defined);
        case WithArena(name, capacity, body) =>
          CheckExprReads(capacity, defined);
          var _ := WalkDefiniteInit(body, defined + {name});
      }
    }

    method CheckIfInit(s: Stmt, defined: set<string>) returns (after: Option<set<string>>)
      requires s.If?
      modifies this`diagnostics
      ensures after == AfterStmt(s, defined)
      ensures diagnostics == old(diagnostics) + StmtReports(s, defined, locals)
      decreases s, 0
    {
      ghost var test, yes, no := ExprReports(s.cond, defined, locals), Reports(s.thenBody, defined, locals),
                                 Reports(s.elseBody, defined, locals);
      ThreeInARow(diagnostics, test, yes, no);
      CheckExprReads(s.cond, defined);
      var thenDefined := WalkDefiniteInit(s.thenBody, defined);
      var elseDefined := WalkDefiniteInit(s.elseBody, defined);
      after := Meet(thenDefined, elseDefined);
    }

    /** The condition is only looked at behind a body that falls through. */
    method CheckDoWhileInit(s: Stmt, defined: set<string>) returns (after: Option<set<string>>)
      requires s.DoWhile?
      modifies this`diagnostics
      ensures after == AfterStmt(s, defined)
      ensures diagnostics == old(diagnostics) + StmtReports(s, defined, locals)
      decreases s, 0
    {
      var bodyDefined := WalkDefiniteInit(s.body, defined);
      if bodyDefined.None? {
        return Some(defined);
      }
      CheckExprReads(s.cond, bodyDefined.value);
      return bodyDefined;
    }

    method CheckForInit(s: Stmt, defined: set<string>)
      requires s.For?
      modifies this`diagnostics
      ensures diagnostics == old(diagnostics) + StmtReports(s, defined, locals)
      decreases s, 0
    {
      ThreeInARow(diagnostics, ExprReports(s.lo, defined, locals), ExprReports(s.hi, defined, locals),
                  Reports(s.body, defined + {s.name}, locals));
      CheckExprReads(s.lo, defined);
      CheckExprReads(s.hi, defined);
      var _ := WalkDefiniteInit(s.body, defined + {s.name});
    }

    /** The arm loop; `result` is the intersection over the arms that fall through so far. */
    method CheckArms(arms: seq<MatchArm>, defined: set<string>) returns (result: Option<set<string>>)
      modifies this`diagnostics
      ensures result == AfterArms(arms, defined)
      ensures diagnostics == old(diagnostics) + ArmReports(arms, defined, locals)
      decreases arms
    {
      result := None;
      for i := 0 to |arms|
        invariant Meet(result, AfterArms(arms[i..], defined)) == AfterArms(arms, defined)
        invariant diagnostics + ArmReports(arms[i..], defined, locals) ==
                  old(diagnostics) + ArmReports(arms, defined, locals)
      {
        OneArm(arms, i, defined, locals);
        var armDefined := WalkDefiniteInit(arms[i].body, defined + Elements(arms[i].bindings));
        MeetAssociates(result, armDefined, AfterArms(arms[i + 1..], defined));
        result := Meet(result, armDefined);
      }
    }
  }

  lemma {:induction false} MeetAssociates(x: Option<set<string>>, y: Option<set<string>>, z: Option<set<string>>)
    ensures Meet(x, Meet(y, z)) == Meet(Meet(x, y), z)
  {
    if x.Some? && y.Some? && z.Some? {
      assert x.value * (y.value * z.value) == (x.value * y.value) * z.value;
    }
  }

  /** Whatever arm runs has written at least what the match claims. */
  lemma {:induction false} ArmOfAfter(arms: seq<MatchArm>, k: nat, defined: set<string>)
    requires k < |arms|
    ensures var arm := After(arms[k].body, defined + Elements(arms[k].bindings));
            arm.Some? ==> AfterArms(arms, defined).Some? && AfterArms(arms, defined).value <= arm.value
  {
    if k > 0 {
      ArmOfAfter(arms[1..], k - 1, defined);
    }
  }
}
