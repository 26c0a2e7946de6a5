/**
 * The names that the definite-initialisation analysis watches: exactly those declared
 * somewhere in a body outside do-while loops and C-style loops.
 */
module InitLocals {
  import opened Wrappers
  import opened QuodTree
  import opened DefiniteInit
  import opened InitPaths

  /** The lists of statements directly inside a statement. */
  function Blocks(s: Stmt): seq<seq<Stmt>> {
    match s
    case If(_, x, y) => [x, y]
    case While(_, body) => [body]
    case DoWhile(body, _) => [body]
    case For(_, _, _, _, body) => [body]
    case WithArena(_, _, body) => [body]
    case Match(_, _, arms) => Bodies(arms)
    case CStyleFor(_, _, _, body) => [body]
    case _ => []
  }

  function Bodies(arms: seq<MatchArm>): (bodies: seq<seq<Stmt>>)
    ensures |bodies| == |arms| && forall i :: 0 <= i < |arms| ==> bodies[i] == arms[i].body
  {
    if arms == [] then [] else [arms[0].body] + Bodies(arms[1..])
  }

  /** `s` occurs in the list at some depth; no do-while and no C-style loop is around it there. */
  ghost predicate Occurs(s: Stmt, ss: seq<Stmt>, depth: nat)
    decreases depth
  {
    || s in ss
    || (depth > 0 && exists t, b :: t in ss && !t.DoWhile? && !t.CStyleFor? && b in Blocks(t) && Occurs(s, b, depth - 1))
  }

  /** A statement that brings a name into the function. */
  predicate Introduces(s: Stmt, x: string) {
    (s.Let? || s.For? || s.WithArena?) && s.name == x
  }

  /** The name is declared in the list, outside do-while and C-style loops. */
  ghost predicate DeclaredIn(x: string, ss: seq<Stmt>) {
    exists s, depth :: Introduces(s, x) && Occurs(s, ss, depth)
  }

  lemma {:induction false} MemberIsCollected(t: Stmt, ss: seq<Stmt>)
    requires t in ss
    ensures CollectedBy(t) <= Collected(ss)
  {
    if t != ss[0] {
      MemberIsCollected(t, ss[1..]);
    }
  }

  lemma {:induction false} ArmIsCollected(arms: seq<MatchArm>, i: nat)
    requires i < |arms|
    ensures Collected(arms[i].body) <= CollectedInArms(arms)
  {
    if i > 0 {
      ArmIsCollected(arms[1..], i - 1);
    }
  }

  lemma {:induction false} BlockIsCollected(t: Stmt, b: seq<Stmt>)
    requires !t.DoWhile? && !t.CStyleFor? && b in Blocks(t)
    ensures Collected(b) <= CollectedBy(t)
  {
    if t.Match? {
      var i :| 0 <= i < |Blocks(t)| && Blocks(t)[i] == b;
      ArmIsCollected(t.arms, i);
    }
  }

  lemma {:induction false} OccurringIsCollected(s: Stmt, ss: seq<Stmt>, depth: nat, x: string)
    requires Introduces(s, x) && Occurs(s, ss, depth)
    ensures x in Collected(ss)
    decreases depth
  {
    if s in ss {
      MemberIsCollected(s, ss);
    } else {
      var t, b :| t in ss && !t.DoWhile? && !t.CStyleFor? && b in Blocks(t) && Occurs(s, b, depth - 1);
      OccurringIsCollected(s, b, depth - 1, x);
      BlockIsCollected(t, b);
      MemberIsCollected(t, ss);
    }
  }

  lemma {:induction false} OccursFurther(s: Stmt, ss: seq<Stmt>, depth: nat)
    requires ss != [] && Occurs(s, ss[1..], depth)
    ensures Occurs(s, ss, depth)
  {}

  lemma {:induction false} OccursInside(s: Stmt, ss: seq<Stmt>, t: Stmt, b: seq<Stmt>, depth: nat)
    requires t in ss && !t.DoWhile? && !t.CStyleFor? && b in Blocks(t) && Occurs(s, b, depth)
    ensures Occurs(s, ss, depth + 1)
  {}

  lemma {:induction false} CollectedOccurs(ss: seq<Stmt>, x: string) returns (s: Stmt, depth: nat)
    requires x in Collected(ss)
    ensures Introduces(s, x) && Occurs(s, ss, depth)
    decreases ss, 0
  {
    if x in CollectedBy(ss[0]) {
      if Introduces(ss[0], x) {
        s, depth := ss[0], 0;
      } else {
        var b;
        b, s, depth := CollectedBelow(ss[0], x);
        OccursInside(s, ss, ss[0], b, depth);
        depth := depth + 1;
      }
    } else {
      s, depth := CollectedOccurs(ss[1..], x);
      OccursFurther(s, ss, depth);
    }
  }

  /** The block that a name comes from, and where in it. */
  lemma {:induction false} CollectedBelow(t: Stmt, x: string) returns (b: seq<Stmt>, s: Stmt, depth: nat)
    requires x in CollectedBy(t) && !Introduces(t, x)
    ensures !t.DoWhile? && !t.CStyleFor? && b in Blocks(t) && Introduces(s, x) && Occurs(s, b, depth)
    decreases t, 1
  {
    match t {
      case If(_, y, z) =>
        b := if x in Collected(y) then y else z;
        s, depth := CollectedOccurs(b, x);
      case While(_, body) =>
        b := body;
        s, depth := CollectedOccurs(body, x);
      case For(_, _, _, _, body) =>
        b := body;
        s, depth := CollectedOccurs(body, x);
      case WithArena(_, _, body) =>
        b := body;
        s, depth := CollectedOccurs(body, x);
      case Match(_, _, arms) =>
        var i := ArmOf(arms, x);
        b := arms[i].body;
        assert Blocks(t)[i] == b;
        s, depth := CollectedOccurs(arms[i].body, x);
    }
  }

  lemma {:induction false} ArmOf(arms: seq<MatchArm>, x: string) returns (i: nat)
    requires x in CollectedInArms(arms)
    ensures i < |arms| && x in Collected(arms[i].body)
  {
    if x in Collected(arms[0].body) {
      i := 0;
    } else {
      i := ArmOf(arms[1..], x);
      i := i + 1;
    }
  }

  /** A name is watched exactly when it is no parameter and declared in the body outside do-while and C-style loops. */
  lemma {:induction false} LocalsExactly(fn: Function, x: string)
    ensures x in Locals(fn) <==> x !in Names(fn.params) && DeclaredIn(x, fn.body)
  {
    if x in Collected(fn.body) {
      var s, depth := CollectedOccurs(fn.body, x);
    }
    if s, depth :| Introduces(s, x) && Occurs(s, fn.body, depth) {
      OccurringIsCollected(s, fn.body, depth, x);
    }
  }

  /**
   * A function's read of a name is reported exactly when the name is declared in it, is no
   * parameter, and some path reads it while it is not written.
   */
  lemma {:induction false} FunctionReportsExactly(fn: Function, x: string)
    requires AllWalked(fn.body) && NoLoopVariable(fn.body, x)
    ensures x in Reports(fn.body, Names(fn.params), Locals(fn)) <==>
            && x !in Names(fn.params) && DeclaredIn(x, fn.body)
            && exists n: nat :: ReadsUnsetAll(n, fn.body, Names(fn.params), x)
  {
    LocalsExactly(fn, x);
    ReportedExactly(fn.body, Names(fn.params), Locals(fn), x);
  }
}
