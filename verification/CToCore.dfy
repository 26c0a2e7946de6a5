/**
 * From C to core quod: what the lift check accepts, the c-family lowering
 * preserves, so the C function and the lowered function run alike.
 */
module CToCore {
  import opened Wrappers
  import opened QuodTree
  import opened Runs
  import opened CTree
  import opened LiftCheck
  import opened LiftSound
  import C = CRun
  import Q = QuodRun
  import L = CFamily
  import opened Relations
  import P = ProveLifts

  /** Accepted bodies have no match arm or arena to hide a `continue` in. */
  lemma {:induction false} AcceptedIsLowerable(xs: seq<CStmt>, bs: seq<Stmt>, cs: Constants, scope: set<string>)
    requires AcceptsBody(xs, bs, cs) && CoveredList(xs, bs) && WellFormedList(xs, scope)
    ensures L.LowerableBody(bs) && L.ContinuesVisible(bs)
    decreases bs, |xs|
  {
    if xs != [] {
      var w := Width(xs[0]);
      AcceptedIsLowerable(xs[1..], bs[w..], cs, scope + C.Declared(xs[0]));
      assert bs == bs[..w] + bs[w..];
      if xs[0].CMultiVarDecl? {
        forall i | 0 <= i < w ensures bs[i].Let? {
          assert AcceptsDecl(xs[0].decls[i], bs[..w][i], cs);
        }
      } else {
        AcceptedStmtIsLowerable(xs[0], bs[0], cs, scope);
      }
    }
  }

  /** One accepted statement, with what a body needs of it. */
  lemma {:induction false} AcceptedStmtIsLowerable(a: CStmt, b: Stmt, cs: Constants, scope: set<string>)
    requires AcceptsStmt(a, b, cs) && Covered(a, b) && WellFormed(a, scope)
    ensures L.Lowerable(b) && L.Visible(b)
    decreases b, 1
  {
    match a {
      case CIf(_, x, y) =>
        AcceptedIsLowerable(x, b.thenBody, cs, scope);
        AcceptedIsLowerable(y, b.elseBody, cs, scope);
      case CWhile(_, body) =>
        AcceptedIsLowerable(body, b.body, cs, scope);
      case CFor(init, _, inc, body) =>
        var inner := scope + (if init.Some? then C.Declared(init.value) else {});
        AcceptedIsLowerable(body, b.body, cs, inner);
      case CSwitch(_, _, default) =>
        assert a.cases[0..] == a.cases;
        AcceptedChainIsLowerable(a, 0, b, cs, scope);
      case _ =>
    }
  }

  lemma {:induction false} AcceptedChainIsLowerable(a: CStmt, j: nat, cur: Stmt, cs: Constants, scope: set<string>)
    requires a.CSwitch? && j < |a.cases| && cur.If? && WellFormed(a, scope)
    requires AcceptsChain(a.scrutinee, a.cases[j..], a.default, cur, cs) && CoveredChain(a.cases[j..], a.default, cur)
    ensures L.Lowerable(cur) && L.Visible(cur)
    decreases cur, 0
  {
    var rest := a.cases[j..];
    assert rest[0] == a.cases[j] && rest[1..] == a.cases[j + 1..];
    AcceptedIsLowerable(rest[0].body, cur.thenBody, cs, scope);
    if |rest| == 1 {
      AcceptedIsLowerable(a.default, cur.elseBody, cs, scope);
    } else {
      AcceptedChainIsLowerable(a, j + 1, cur.elseBody[0], cs, scope);
      assert cur.elseBody == [cur.elseBody[0]];
    }
  }

  lemma {:induction false} PairIsLowerable(cfn: CFn, fn: Function, cs: Constants)
    requires AcceptsFn(cfn, fn, cs) && InFragment(cfn, fn)
    ensures L.LowerableBody(fn.body)
  {
    AcceptedIsLowerable(cfn.body, Kept(cfn, fn), cs, ScopeOf(cfn.params));
    StubsAreStubs(fn.body, TotalWidth(cfn.body));
    assert fn.body == Kept(cfn, fn) + Stubs(cfn, fn);
  }

  lemma {:induction false} LinkedIsLowerable(cm: C.CMachine, m: Q.Machine, cs: Constants)
    requires Linked(cm, m, cs)
    ensures L.LowerableProgram(m)
  {
    forall f | f in m.functions ensures L.LowerableBody(m.functions[f].body) {
      PairIsLowerable(cm.functions[f], m.functions[f], cs);
    }
  }

  /**
   * The C program and the lowered quod program: same calls, same variables, same outcome
   * for every fuel, up to the stub behind a fall off the end, with the callees of one side
   * running in C and those of the other lowered. The lowered function is core exactly when
   * no C-style loop sits under a do-while.
   */
  lemma {:induction false} CRunsAsCore(cm: C.CMachine, m: Q.Machine, fuel: nat, cfn: CFn, fn: Function, cs: Constants,
                                       vs: seq<Val>, io: seq<Q.Event>)
    requires AcceptsFn(cfn, fn, cs) && InFragment(cfn, fn) && Linked(cm, m, cs)
    requires |vs| == |cfn.params|
    ensures Alike(C.RunC(cm, fuel, cfn, vs, io), RunQuod(L.LowerMachine(m), fuel, L.LowerFunction(fn), vs, io), cfn, fn)
    ensures L.AllCore(L.LowerFunction(fn).body) <==> L.AllCoreUnderDo(fn.body)
  {
    L.LoweredIsCore(fn.body);
    AcceptedFunctionsAgree(cm, m, fuel, cfn, fn, cs, vs, io);
    PairIsLowerable(cfn, fn, cs);
    LinkedIsLowerable(cm, m, cs);
    L.BodyLowers(m, fuel, fn, vs, Q.State(map[], io, []));
  }

  /** The i-th lift claim after a successful proof, and that it pairs these two functions. */
  predicate Witnesses(ends: P.Endpoints, es: seq<Equivalence>, i: nat, cfn: CFn, fn: Function) {
    && P.Proved(ends, es).Ok? && i < |P.Lifts(P.Proved(ends, es).value)|
    && var e := P.Lifts(P.Proved(ends, es).value)[i];
       P.Present(ends, e) && ends.cfns[e.a] == cfn && ends.fns[e.b] == fn
  }

  /** Two programs of the same functions, each pair witnessed and in the fragment. */
  ghost predicate AllWitnessed(ends: P.Endpoints, es: seq<Equivalence>, cm: C.CMachine, m: Q.Machine) {
    && cm.world == m.world
    && cm.functions.Keys == m.functions.Keys
    && (ends.constants.None? || ends.constants.value == m.strings)
    && (forall f :: f in cm.functions ==>
          && InFragment(cm.functions[f], m.functions[f])
          && (C.IsVoid(cm.functions[f]) && Stubs(cm.functions[f], m.functions[f]) != [] ==>
                Stubs(cm.functions[f], m.functions[f])[0].Return?)
          && exists i: nat :: Witnesses(ends, es, i, cm.functions[f], m.functions[f]))
  }

  lemma {:induction false} WitnessedIsAccepted(ends: P.Endpoints, es: seq<Equivalence>, i: nat, cfn: CFn, fn: Function)
    requires Witnesses(ends, es, i, cfn, fn)
    ensures AcceptsFn(cfn, fn, ends.constants)
  {
    P.ProvedIs(ends, es);
  }

  /**
   * What pinned claims are worth: once the lift claims were proved, two programs whose
   * functions are all witnessed run alike from any of them, from C down to lowered quod.
   */
  lemma {:induction false} WitnessedProgramsRunAlike(ends: P.Endpoints, es: seq<Equivalence>, cm: C.CMachine, m: Q.Machine,
                                                     fuel: nat, f: string, vs: seq<Val>, io: seq<Q.Event>)
    requires AllWitnessed(ends, es, cm, m) && f in cm.functions
    requires |vs| == |cm.functions[f].params| == |m.functions[f].params|
    ensures Alike(C.RunC(cm, fuel, cm.functions[f], vs, io),
                  RunQuod(L.LowerMachine(m), fuel, L.LowerFunction(m.functions[f]), vs, io),
                  cm.functions[f], m.functions[f])
  {
    forall g | g in cm.functions ensures AcceptsFn(cm.functions[g], m.functions[g], ends.constants) {
      var i: nat :| Witnesses(ends, es, i, cm.functions[g], m.functions[g]);
      WitnessedIsAccepted(ends, es, i, cm.functions[g], m.functions[g]);
    }
    CRunsAsCore(cm, m, fuel, cm.functions[f], m.functions[f], ends.constants, vs, io);
  }
}
