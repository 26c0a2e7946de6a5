/**
 * Every run is a path: where a run of a list falls through, breaks or continues, some path
 * of free choices ends alike and has written no more than the run has.
 */
module InitRuns {
  import opened Wrappers
  import opened QuodTree
  import opened Runs
  import opened QuodRun
  import opened InitPaths
  import opened DefiniteInit
  import Arithmetic

  /** No arena, no C-style for, wildcard arms bind nothing, and `bound` holds every binding. */
  predicate Traceable(s: Stmt, bound: set<string>)
    decreases s
  {
    match s
    case If(_, x, y) => AllTraceable(x, bound) && AllTraceable(y, bound)
    case While(_, body) => AllTraceable(body, bound)
    case DoWhile(body, _) => AllTraceable(body, bound)
    case For(_, _, _, _, body) => AllTraceable(body, bound)
    case Match(_, _, arms) =>
      forall i :: 0 <= i < |arms| ==>
        && AllTraceable(arms[i].body, bound)
        && Elements(arms[i].bindings) <= bound
        && (arms[i].variant == "_" ==> arms[i].bindings == [])
    case WithArena(_, _, _) => false
    case CStyleFor(_, _, _, _) => false
    case _ => true
  }

  predicate AllTraceable(ss: seq<Stmt>, bound: set<string>)
    decreases ss
  {
    forall i :: 0 <= i < |ss| ==> Traceable(ss[i], bound)
  }

  /** How a run ends as a path; runs that return, fail or run out of fuel are not followed. */
  function EndOf(out: Out<State, ()>): Option<End> {
    match out
    case Value(_, _) => Some(Falls)
    case Halt(Broke, _) => Some(Breaks)
    case Halt(Continued, _) => Some(Continues)
    case Halt(_, _) => None
  }

  /** Behind its arm a binding is gone, so nothing is said of names that are bindings somewhere. */
  predicate AllSet(names: set<string>, bound: set<string>, st: State) {
    names - bound <= st.store.Keys
  }

  lemma {:induction false} EveryRunIsAPath(m: Machine, fuel: nat, ss: seq<Stmt>, bound: set<string>, before: set<string>, st: State)
    returns (after: set<string>)
    requires AllTraceable(ss, bound) && AllSet(before, bound, st) && EndOf(ExecAll(m, fuel, ss, st)).Some?
    ensures var out := ExecAll(m, fuel, ss, st);
            PathAll(fuel, ss, before, EndOf(out).value, after) && AllSet(after, bound, out.st)
    decreases fuel, ss, 0
  {
    if ss == [] {
      after := before;
    } else {
      var head := Exec(m, fuel, ss[0], st);
      var mid := EveryStmtRunIsAPath(m, fuel, ss[0], bound, before, st);
      after := mid;
      if head.Value? {
        after := EveryRunIsAPath(m, fuel, ss[1..], bound, mid, head.st);
      }
    }
  }

  lemma {:induction false} EveryStmtRunIsAPath(m: Machine, fuel: nat, s: Stmt, bound: set<string>, before: set<string>, st: State)
    returns (after: set<string>)
    requires Traceable(s, bound) && AllSet(before, bound, st) && EndOf(Exec(m, fuel, s, st)).Some?
    ensures var out := Exec(m, fuel, s, st);
            Path(fuel, s, before, EndOf(out).value, after) && AllSet(after, bound, out.st)
    decreases fuel, s, 3
  {
    after := before;
    if
    case s.If? =>
      var out := Eval(m, fuel, s.cond, st);
      after := EveryRunIsAPath(m, fuel, if Truthy(out.value) then s.thenBody else s.elseBody, bound, before, out.st);
    case s.While? =>
      after := WhileRunIsAPath(m, fuel, s, bound, before, st);
    case s.DoWhile? =>
      after := DoWhileRunIsAPath(m, fuel, s, bound, before, st);
    case s.For? =>
      var lo := Eval(m, fuel, s.lo, st);
      var hi := Eval(m, fuel, s.hi, lo.st);
      after := ForRunIsAPath(m, fuel, s, hi.value.n, bound, before + {s.name}, Write(s.name, lo.value, hi.st));
    case s.Match? =>
      after := MatchRunIsAPath(m, fuel, s, bound, before, st);
    case s.Let? || s.Assign? =>
      after := if s.Let? && s.init.None? then before else before + {s.name};
    case !s.If? && !s.While? && !s.DoWhile? && !s.For? && !s.Match? && !s.Let? && !s.Assign? =>
      {}
  }

  lemma {:induction false} WhileRunIsAPath(m: Machine, fuel: nat, s: Stmt, bound: set<string>, before: set<string>, st: State)
    returns (after: set<string>)
    requires s.While? && Traceable(s, bound) && AllSet(before, bound, st) && EndOf(Exec(m, fuel, s, st)).Some?
    ensures var out := Exec(m, fuel, s, st);
            Path(fuel, s, before, EndOf(out).value, after) && AllSet(after, bound, out.st)
    decreases fuel, s, 2
  {
    after := before;
    var test := Eval(m, fuel, s.cond, st);
    if Truthy(test.value) {
      var ran := ExecAll(m, fuel, s.body, test.st);
      var mid := EveryRunIsAPath(m, fuel, s.body, bound, before, test.st);
      var turn := EndOf(ran).value;
      after := mid;
      if turn != Breaks {
        after := WhileRunIsAPath(m, fuel - 1, s, bound, mid, ran.st);
      }
      assert AfterTurn(fuel, s, turn, mid, EndOf(Exec(m, fuel, s, st)).value, after);
    }
  }

  lemma {:induction false} DoWhileRunIsAPath(m: Machine, fuel: nat, s: Stmt, bound: set<string>, before: set<string>, st: State)
    returns (after: set<string>)
    requires s.DoWhile? && Traceable(s, bound) && AllSet(before, bound, st) && EndOf(Exec(m, fuel, s, st)).Some?
    ensures var out := Exec(m, fuel, s, st);
            Path(fuel, s, before, EndOf(out).value, after) && AllSet(after, bound, out.st)
    decreases fuel, s, 2
  {
    var ran := ExecAll(m, fuel, s.body, st);
    var mid := EveryRunIsAPath(m, fuel, s.body, bound, before, st);
    var turn := EndOf(ran).value;
    after := mid;
    if turn != Breaks {
      var test := Eval(m, fuel, s.cond, ran.st);
      if Truthy(test.value) {
        after := DoWhileRunIsAPath(m, fuel - 1, s, bound, mid, test.st);
      }
    }
    assert AfterTurn(fuel, s, turn, mid, EndOf(Exec(m, fuel, s, st)).value, after);
  }

  /** Turns of a for loop whose variable is written. */
  lemma {:induction false} ForRunIsAPath(m: Machine, fuel: nat, s: Stmt, hi: int, bound: set<string>, before: set<string>, st: State)
    returns (after: set<string>)
    requires s.For? && Traceable(s, bound) && AllSet(before, bound, st) && EndOf(ForTurns(m, fuel, s, hi, st)).Some?
    ensures var out := ForTurns(m, fuel, s, hi, st);
            && ((EndOf(out).value == Falls && after == before) || Turns(fuel, s, before, EndOf(out).value, after))
            && AllSet(after, bound, out.st)
    decreases fuel, s, 2
  {
    after := before;
    var i := ReadVar(s.name, st);
    if i.value.n < hi {
      var ran := ExecAll(m, fuel, s.body, st);
      var mid := EveryRunIsAPath(m, fuel, s.body, bound, before, st);
      var turn := EndOf(ran).value;
      after := mid;
      if turn != Breaks {
        var j := ReadVar(s.name, ran.st);
        after := ForRunIsAPath(m, fuel - 1, s, hi, bound, mid, Write(s.name, Int(Arithmetic.Wrap(j.value.n + 1)), ran.st));
      }
      assert AfterTurn(fuel, s, turn, mid, EndOf(ForTurns(m, fuel, s, hi, st)).value, after);
    }
  }

  lemma {:induction false} MatchRunIsAPath(m: Machine, fuel: nat, s: Stmt, bound: set<string>, before: set<string>, st: State)
    returns (after: set<string>)
    requires s.Match? && Traceable(s, bound) && AllSet(before, bound, st) && EndOf(Exec(m, fuel, s, st)).Some?
    ensures var out := Exec(m, fuel, s, st);
            Path(fuel, s, before, EndOf(out).value, after) && AllSet(after, bound, out.st)
    decreases fuel, s, 2
  {
    var v := Eval(m, fuel, s.scrutinee, st);
    var k := PickArm(s.arms, v.value.variant).value;
    var arm := s.arms[k];
    if arm.variant == "_" {
      assert before + Elements(arm.bindings) == before;
      after := EveryRunIsAPath(m, fuel, arm.body, bound, before, v.st);
    } else {
      after := EveryRunIsAPath(m, fuel, arm.body, bound, before + Elements(arm.bindings), ArmStore(arm, v.value, v.st));
    }
  }

  /** So what the walk claims, bindings aside, is set in every run that falls through, by way of the paths. */
  lemma {:induction false} ClaimedNamesAreSet(m: Machine, fuel: nat, ss: seq<Stmt>, bound: set<string>, defined: set<string>, st: State)
    requires AllTraceable(ss, bound) && AllWalked(ss) && AllSet(defined, bound, st) && ExecAll(m, fuel, ss, st).Value?
    ensures After(ss, defined).Some? && AllSet(After(ss, defined).value, bound, ExecAll(m, fuel, ss, st).st)
  {
    var after := EveryRunIsAPath(m, fuel, ss, bound, defined, st);
    EveryPathWrites(fuel, ss, defined, defined, Falls, after);
  }
}
