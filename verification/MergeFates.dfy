/** Which claims survive a merge, and which warning stands for one that does not, in terms of the two definitions alone. */
module MergeFates {
  import opened Wrappers
  import opened QuodTree
  import opened Merge

  // ---------- What a claim is about ----------

  /** The operands that a predicate is looked into. */
  function Operands(e: Expr): seq<Expr> {
    match e
    case Unary(Not, x) => [x]
    case Binary(op, l, r) => if op.PtrOffset? then [] else [l, r]
    case _ => []
  }

  /** The leaf occurs in the predicate, `depth` operands down. */
  ghost predicate Has(e: Expr, leaf: Leaf, depth: nat)
    decreases depth
  {
    if depth == 0 then e == Leaf(leaf) else exists x :: x in Operands(e) && Has(x, leaf, depth - 1)
  }

  ghost predicate Mentions(e: Expr, leaf: Leaf) {
    exists depth: nat :: Has(e, leaf, depth)
  }

  lemma {:induction false} OperandMentions(e: Expr, x: Expr, leaf: Leaf)
    requires x in Operands(e) && Mentions(x, leaf)
    ensures Mentions(e, leaf)
  {
    var depth: nat :| Has(x, leaf, depth);
    assert Has(e, leaf, depth + 1);
  }

  lemma {:induction false} MentionedBelow(e: Expr, leaf: Leaf) returns (x: Expr)
    requires Mentions(e, leaf) && e != Leaf(leaf)
    ensures x in Operands(e) && Mentions(x, leaf)
  {
    var depth: nat :| Has(e, leaf, depth);
    x :| x in Operands(e) && Has(x, leaf, depth - 1);
  }

  /** The references that are collected are those that occur. */
  lemma {:induction false} ReferencesExactly(e: Expr, name: string)
    ensures name in PredicateParams(e) <==> Mentions(e, ParamRef(name))
    ensures MentionsReturn(e) <==> Mentions(e, ReturnRef)
    decreases e
  {
    forall x | x in Operands(e)
      ensures (name in PredicateParams(x) <==> Mentions(x, ParamRef(name))) && (MentionsReturn(x) <==> Mentions(x, ReturnRef)) {
      ReferencesExactly(x, name);
    }
    if e.Leaf? {
      assert Has(e, e.leaf, 0);
    } else if e.Binary? && !e.bop.PtrOffset? {
      assert e.lhs in Operands(e) && e.rhs in Operands(e);
    } else if e.Unary? && e.uop.Not? {
      assert e.operand in Operands(e);
    }
    if name in PredicateParams(e) && !e.Leaf? {
      var x :| x in Operands(e) && name in PredicateParams(x);
      OperandMentions(e, x, ParamRef(name));
    }
    if MentionsReturn(e) && !e.Leaf? {
      var x :| x in Operands(e) && MentionsReturn(x);
      OperandMentions(e, x, ReturnRef);
    }
    if Mentions(e, ParamRef(name)) && e != Leaf(ParamRef(name)) {
      var x := MentionedBelow(e, ParamRef(name));
    }
    if Mentions(e, ReturnRef) && e != Leaf(ReturnRef) {
      var x := MentionedBelow(e, ReturnRef);
    }
  }

  /** The claim mentions exactly this parameter, and not the return value. */
  ghost predicate About(c: Claim, param: string) {
    !Mentions(c.expr, ReturnRef) && forall x :: Mentions(c.expr, ParamRef(x)) <==> x == param
  }

  lemma {:induction false} AboutExactly(c: Claim, param: string)
    ensures IsAbout(c, param) <==> About(c, param)
  {
    forall x ensures x in PredicateParams(c.expr) <==> Mentions(c.expr, ParamRef(x)) {
      ReferencesExactly(c.expr, x);
    }
    ReferencesExactly(c.expr, param);
    if About(c, param) {
      assert forall x :: x in PredicateParams(c.expr) <==> x == param;
      assert PredicateParams(c.expr) == {param};
    }
  }

  /** Everything but floats, pointers, void and the types that have a name is an int type. */
  lemma {:induction false} IntTypesExactly(t: Type)
    ensures IsIntType(t) <==>
            !t.F32? && !t.F64? && !t.I8Ptr? && !t.Void? && !t.StructType? && !t.EnumType? && !t.TypeParamRef? && !t.SelfType?
  {}

  // ---------- What becomes of a claim ----------

  /** The last parameter of the name has this type. */
  predicate HasParam(params: seq<Param>, name: string, t: Type) {
    exists i :: 0 <= i < |params| && params[i] == Param(name, t) && NoneLater(params, i)
  }

  predicate NoneLater(params: seq<Param>, i: nat)
    requires i < |params|
  {
    forall j :: i < j < |params| ==> params[j].name != params[i].name
  }

  lemma {:induction false} ParamNamedExactly(params: seq<Param>, name: string, t: Type)
    ensures ParamNamed(params, name) == Some(Param(name, t)) <==> HasParam(params, name, t)
    ensures ParamNamed(params, name).None? <==> forall p :: p in params ==> p.name != name
    ensures ParamNamed(params, name).Some? ==> ParamNamed(params, name).value.name == name
    decreases |params|
  {
    if params != [] {
      var init, last := params[..|params| - 1], params[|params| - 1];
      assert params == init + [last];
      ParamNamedExactly(init, name, t);
      if last.name == name {
        assert last == Param(name, t) ==> NoneLater(params, |init|);
      } else {
        forall i | 0 <= i < |init| && params[i].name == name ensures NoneLater(params, i) <==> NoneLater(init, i) {
        }
      }
    }
  }

  ghost predicate Redundant(expr: Expr, incoming: seq<Claim>) {
    exists d :: d in incoming && d.expr == expr
  }

  /** Its target is still there and still an int: its one parameter, or else the return value. */
  ghost predicate Holds(c: Claim, params: seq<Param>, returnType: Type) {
    || (exists x, t :: About(c, x) && HasParam(params, x, t) && IsIntType(t))
    || ((forall x :: !About(c, x)) && IsIntType(returnType))
  }

  /** The warning that stands for a claim of a function whose target is gone. */
  ghost predicate Explains(w: Warning, c: Claim, qualifier: string, name: string, params: seq<Param>, returnType: Type) {
    match w
    case ParamRemoved(q, f, x) =>
      q == qualifier && f == name && About(c, x) && forall p :: p in params ==> p.name != x
    case ParamRetyped(q, f, x, t) =>
      q == qualifier && f == name && About(c, x) && HasParam(params, x, t) && !IsIntType(t)
    case ReturnRetyped(q, f, t) =>
      q == qualifier && f == name && (forall x :: !About(c, x)) && t == returnType && !IsIntType(t)
    case ExternReturnRetyped(_, _) => false
  }

  lemma {:induction false} FunctionFateExactly(existing: Function, incoming: Function, qualifier: string, c: Claim)
    ensures var fate := FunctionFate(existing, incoming, qualifier, c);
            && (fate.Subsumed? <==> Redundant(c.expr, incoming.claims))
            && (fate.Kept? <==> !Redundant(c.expr, incoming.claims) && Holds(c, incoming.params, incoming.returnType))
            && (fate.Dropped? ==> Explains(fate.warning, c, qualifier, existing.name, incoming.params, incoming.returnType))
  {
    var target := ClaimParam(c);
    forall x ensures IsAbout(c, x) <==> About(c, x) {
      AboutExactly(c, x);
    }
    if target.Some? {
      assert forall x :: About(c, x) ==> x == target.value;
      var p := ParamNamed(incoming.params, target.value);
      ParamNamedExactly(incoming.params, target.value, if p.Some? then p.value.ty else Void);
      forall t | HasParam(incoming.params, target.value, t) ensures p == Some(Param(target.value, t)) {
        ParamNamedExactly(incoming.params, target.value, t);
      }
    }
  }

  lemma {:induction false} ExternFateExactly(existing: ExternFunction, incoming: ExternFunction, c: Claim)
    ensures var fate := ExternFate(existing, incoming, c);
            && (fate.Subsumed? <==> Redundant(c.expr, incoming.claims))
            && (fate.Kept? <==> !Redundant(c.expr, incoming.claims) && IsIntType(incoming.returnType))
            && (fate.Dropped? ==> fate.warning == ExternReturnRetyped(existing.name, incoming.returnType))
  {}

  // ---------- By position ----------

  lemma {:induction false} OneMore(at: seq<nat>, n: nat)
    requires Increasing(at, n)
    ensures Increasing(at, n + 1) && Increasing(at + [n], n + 1)
    ensures n !in at && n in at + [n]
    ensures forall j :: 0 <= j < n ==> (j in at + [n] <==> j in at)
  {
    assert (at + [n])[|at|] == n;
  }

  ghost predicate KeptAt(claims: seq<Claim>, fate: Claim -> Fate, kept: seq<nat>) {
    && Increasing(kept, |claims|) && |kept| == |Survivors(claims, fate)|
    && (forall i :: 0 <= i < |kept| ==> Survivors(claims, fate)[i] == claims[kept[i]])
    && (forall j :: 0 <= j < |claims| ==> (j in kept <==> fate(claims[j]).Kept?))
  }

  ghost predicate DroppedAt(claims: seq<Claim>, fate: Claim -> Fate, dropped: seq<nat>) {
    && Increasing(dropped, |claims|) && |dropped| == |Warnings(claims, fate)|
    && (forall i :: 0 <= i < |dropped| ==> fate(claims[dropped[i]]) == Dropped(Warnings(claims, fate)[i]))
    && (forall j :: 0 <= j < |claims| ==> (j in dropped <==> fate(claims[j]).Dropped?))
  }

  lemma {:induction false} SurvivorsAt(claims: seq<Claim>, fate: Claim -> Fate) returns (kept: seq<nat>)
    ensures KeptAt(claims, fate, kept)
    decreases |claims|
  {
    kept := [];
    if claims != [] {
      var init := claims[..|claims| - 1];
      kept := SurvivorsAt(init, fate);
      OneMore(kept, |init|);
      assert forall j :: 0 <= j < |init| ==> init[j] == claims[j];
      if fate(claims[|init|]).Kept? {
        kept := kept + [|init|];
      }
    }
  }

  lemma {:induction false} WarningsAt(claims: seq<Claim>, fate: Claim -> Fate) returns (dropped: seq<nat>)
    ensures DroppedAt(claims, fate, dropped)
    decreases |claims|
  {
    dropped := [];
    if claims != [] {
      var init := claims[..|claims| - 1];
      dropped := WarningsAt(init, fate);
      OneMore(dropped, |init|);
      assert forall j :: 0 <= j < |init| ==> init[j] == claims[j];
      if fate(claims[|init|]).Dropped? {
        dropped := dropped + [|init|];
      }
    }
  }

  /** The new claims, then the existing ones at these positions. */
  predicate Extended(merged: seq<Claim>, incoming: seq<Claim>, claims: seq<Claim>, kept: seq<nat>) {
    && Increasing(kept, |claims|) && |merged| == |incoming| + |kept| && incoming <= merged
    && forall i :: 0 <= i < |kept| ==> merged[|incoming| + i] == claims[kept[i]]
  }

  /**
   * A function's claims after a merge: the new ones, then in order exactly those existing ones that the
   * new side does not carry and whose target is still an int; each other one not carried has its warning.
   */
  lemma {:induction false} FunctionClaimsExactly(existing: Function, incoming: Function, qualifier: string)
    returns (kept: seq<nat>, dropped: seq<nat>)
    ensures var (merged, warnings) := ReconcileFunctions(qualifier)(existing, incoming);
            && merged == incoming.(claims := merged.claims)
            && Extended(merged.claims, incoming.claims, existing.claims, kept)
            && (forall j :: 0 <= j < |existing.claims| ==>
                  (j in kept <==> !Redundant(existing.claims[j].expr, incoming.claims)
                                  && Holds(existing.claims[j], incoming.params, incoming.returnType)))
            && Increasing(dropped, |existing.claims|) && |dropped| == |warnings|
            && (forall j :: 0 <= j < |existing.claims| ==>
                  (j in dropped <==> !Redundant(existing.claims[j].expr, incoming.claims)
                                     && !Holds(existing.claims[j], incoming.params, incoming.returnType)))
            && (forall i :: 0 <= i < |dropped| ==>
                  Explains(warnings[i], existing.claims[dropped[i]], qualifier, existing.name, incoming.params, incoming.returnType))
  {
    var fate := FateInFunction(existing, incoming, qualifier);
    kept := SurvivorsAt(existing.claims, fate);
    dropped := WarningsAt(existing.claims, fate);
    forall c ensures fate(c) == FunctionFate(existing, incoming, qualifier, c)
                     && (fate(c).Subsumed? <==> Redundant(c.expr, incoming.claims))
                     && (fate(c).Kept? <==> !Redundant(c.expr, incoming.claims) && Holds(c, incoming.params, incoming.returnType))
                     && (fate(c).Dropped? ==>
                           Explains(fate(c).warning, c, qualifier, existing.name, incoming.params, incoming.returnType)) {
      FunctionFateExactly(existing, incoming, qualifier, c);
    }
  }

  /** The same for an extern, whose claims are all about its return value. */
  lemma {:induction false} ExternClaimsExactly(existing: ExternFunction, incoming: ExternFunction)
    returns (kept: seq<nat>, dropped: seq<nat>)
    ensures var (merged, warnings) := ReconcileExterns()(existing, incoming);
            && merged == incoming.(claims := merged.claims)
            && Extended(merged.claims, incoming.claims, existing.claims, kept)
            && (forall j :: 0 <= j < |existing.claims| ==>
                  (j in kept <==> !Redundant(existing.claims[j].expr, incoming.claims) && IsIntType(incoming.returnType)))
            && Increasing(dropped, |existing.claims|) && |dropped| == |warnings|
            && (forall j :: 0 <= j < |existing.claims| ==>
                  (j in dropped <==> !Redundant(existing.claims[j].expr, incoming.claims) && !IsIntType(incoming.returnType)))
            && (forall i :: 0 <= i < |warnings| ==> warnings[i] == ExternReturnRetyped(existing.name, incoming.returnType))
  {
    var fate := FateInExtern(existing, incoming);
    kept := SurvivorsAt(existing.claims, fate);
    dropped := WarningsAt(existing.claims, fate);
    forall c ensures (fate(c).Subsumed? <==> Redundant(c.expr, incoming.claims))
                     && (fate(c).Kept? <==> !Redundant(c.expr, incoming.claims) && IsIntType(incoming.returnType))
                     && (fate(c).Dropped? ==> fate(c).warning == ExternReturnRetyped(existing.name, incoming.returnType)) {
      ExternFateExactly(existing, incoming, c);
    }
  }
}
