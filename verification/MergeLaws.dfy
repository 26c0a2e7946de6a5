/** Laws of merging: order of keys, stability of a second merge, and the fate of every claim. */
module MergeLaws {
  import opened Wrappers
  import opened QuodTree
  import opened Relations
  import opened FirstWins
  import opened Dictionary
  import opened Merge

  // ---------- One collection ----------

  ghost predicate KeepsKey<T(!new), K>(key: T -> K, reconcile: Reconciler<T>) {
    forall x, y :: key(x) == key(y) ==> key(reconcile(x, y).0) == key(y)
  }

  /** Reconciling the outcome with the same new version again changes nothing and warns of nothing. */
  ghost predicate Settles<T(!new), K>(key: T -> K, reconcile: Reconciler<T>) {
    && (forall y :: reconcile(y, y) == (y, []))
    && (forall x, y :: key(x) == key(y) ==> reconcile(reconcile(x, y).0, y) == (reconcile(x, y).0, []))
  }

  lemma {:induction false} ReconciledKeys<T(!new), K>(e: seq<T>, n: seq<T>, key: T -> K, reconcile: Reconciler<T>)
    requires KeepsKey(key, reconcile)
    ensures KeySeq(ReconciledAll(e, n, key, reconcile), key) == KeySeq(e, key)
  {
    SameKeySeq(ReconciledAll(e, n, key, reconcile), e, key);
  }

  lemma {:induction false} NewOnlyItems<T, K>(e: seq<T>, n: seq<T>, key: T -> K)
    ensures forall x :: x in NewOnly(e, n, key) <==> x in n && key(x) !in Keys(e, key)
    decreases |n|
  {
    if n != [] {
      var init, last := n[..|n| - 1], n[|n| - 1];
      NewOnlyItems(e, init, key);
      assert n == init + [last];
      IndexFinds(e, key, key(last));
    }
  }

  lemma {:induction false} NewOnlyKeys<T, K>(e: seq<T>, n: seq<T>, key: T -> K)
    requires Distinct(n, 0, key)
    ensures KeySeq(e, key) + KeySeq(NewOnly(e, n, key), key) == Adjoin(KeySeq(e, key), KeySeq(n, key))
    decreases |n|
  {
    if n == [] {
      assert KeySeq(e, key) + [] == KeySeq(e, key);
    } else {
      var init, last := n[..|n| - 1], n[|n| - 1];
      NewOnlyKeys(e, init, key);
      LastIsNew(e, n, key);
      NewOnlyStep(e, n, key);
      AdjoinNew(KeySeq(e, key), KeySeq(init, key), key(last), KeySeq(NewOnly(e, init, key), key));
    }
  }

  lemma {:induction false} AdjoinNew<K>(xs: seq<K>, ys: seq<K>, k: K, added: seq<K>)
    requires k !in ys && xs + added == Adjoin(xs, ys)
    ensures Adjoin(xs, ys + [k]) == xs + (added + (if k in xs then [] else [k]))
  {
    AdjoinLast(xs, ys, k);
    assert added + [] == added;
  }

  lemma {:induction false} LastIsNew<T, K>(e: seq<T>, n: seq<T>, key: T -> K)
    requires n != [] && Distinct(n, 0, key)
    ensures var init, last := n[..|n| - 1], n[|n| - 1];
            && key(last) !in KeySeq(init, key)
            && (IndexOf(e, key, key(last)).Some? <==> key(last) in KeySeq(e, key))
  {
    var init, last := n[..|n| - 1], n[|n| - 1];
    IndexFinds(e, key, key(last));
    KeysAreKeySeq(e, key, key(last));
    KeysAreKeySeq(init, key, key(last));
    assert key(last) !in Keys(init, key);
  }

  lemma {:induction false} NewOnlyStep<T, K>(e: seq<T>, n: seq<T>, key: T -> K)
    requires n != []
    ensures var init, last := n[..|n| - 1], n[|n| - 1];
            KeySeq(NewOnly(e, n, key), key) ==
            KeySeq(NewOnly(e, init, key), key) + (if IndexOf(e, key, key(last)).None? then [key(last)] else [])
  {
    var init, last := n[..|n| - 1], n[|n| - 1];
    KeySeqPrepend(NewOnly(e, init, key), if IndexOf(e, key, key(last)).None? then [last] else [], key);
  }

  /** Existing keys first, in their order, then the keys that only the new side has. */
  lemma {:induction false} MergedKeyOrder<T(!new), K>(existing: seq<T>, incoming: seq<T>, key: T -> K, reconcile: Reconciler<T>)
    requires KeepsKey(key, reconcile)
    ensures KeySeq(MergedItems(existing, incoming, key, reconcile), key) ==
            Adjoin([], KeySeq(existing, key) + KeySeq(incoming, key))
  {
    var e, n := ByName(existing, key), ByName(incoming, key);
    ByNameOrder(existing, key);
    ByNameOrder(incoming, key);
    ReconciledKeys(e, n, key, reconcile);
    NewOnlyKeys(e, n, key);
    KeySeqPrepend(ReconciledAll(e, n, key, reconcile), NewOnly(e, n, key), key);
    AdjoinOnce(KeySeq(e, key), KeySeq(incoming, key));
    AdjoinTwice([], KeySeq(existing, key), KeySeq(incoming, key));
  }

  lemma {:induction false} ExistingSettles<T(!new), K>(x: T, n: seq<T>, key: T -> K, reconcile: Reconciler<T>)
    requires KeepsKey(key, reconcile) && Settles(key, reconcile) && Distinct(n, 0, key)
    ensures var once := Reconciled(x, n, key, reconcile).0; Reconciled(once, n, key, reconcile) == (once, [])
  {
    var found := IndexOf(n, key, key(x));
    if found.Some? {
      IndexIsUnique(n, key, found.value);
    }
  }

  lemma {:induction false} NewSettles<T(!new), K>(x: T, n: seq<T>, key: T -> K, reconcile: Reconciler<T>)
    requires Settles(key, reconcile) && Distinct(n, 0, key) && x in n
    ensures Reconciled(x, n, key, reconcile) == (x, [])
  {
    var j :| 0 <= j < |n| && n[j] == x;
    IndexIsUnique(n, key, j);
  }

  /** What a merged entry is when it is merged with the same new program again. */
  lemma {:induction false} EntrySettles<T(!new), K>(existing: seq<T>, incoming: seq<T>, key: T -> K, reconcile: Reconciler<T>, i: nat)
    requires KeepsKey(key, reconcile) && Settles(key, reconcile)
    requires i < |MergedItems(existing, incoming, key, reconcile)|
    ensures var x := MergedItems(existing, incoming, key, reconcile)[i];
            Reconciled(x, ByName(incoming, key), key, reconcile) == (x, [])
  {
    var n := ByName(incoming, key);
    ByNameOrder(incoming, key);
    var x := MergedOrigin(existing, incoming, key, reconcile, i);
    if x.Some? {
      ExistingSettles(x.value, n, key, reconcile);
    } else {
      NewSettles(MergedItems(existing, incoming, key, reconcile)[i], n, key, reconcile);
    }
  }

  /** A merged entry is a reconciled existing one, or an entry of the new side. */
  lemma {:induction false} MergedOrigin<T(!new), K>(existing: seq<T>, incoming: seq<T>, key: T -> K, reconcile: Reconciler<T>, i: nat)
    returns (x: Option<T>)
    requires i < |MergedItems(existing, incoming, key, reconcile)|
    ensures var r, n := MergedItems(existing, incoming, key, reconcile)[i], ByName(incoming, key);
            if x.Some? then r == Reconciled(x.value, n, key, reconcile).0 else r in n
  {
    var e, n := ByName(existing, key), ByName(incoming, key);
    if i < |e| {
      x := Some(e[i]);
    } else {
      x := None;
      NewOnlyItems(e, n, key);
      assert MergedItems(existing, incoming, key, reconcile)[i] == NewOnly(e, n, key)[i - |e|];
    }
  }

  lemma {:induction false} NoneWarn<T, K>(items: seq<T>, n: seq<T>, key: T -> K, reconcile: Reconciler<T>)
    requires forall i :: 0 <= i < |items| ==> Reconciled(items[i], n, key, reconcile) == (items[i], [])
    ensures ReconciledAll(items, n, key, reconcile) == items && AllWarnings(items, n, key, reconcile) == []
    decreases |items|
  {
    if items != [] {
      NoneWarn(items[..|items| - 1], n, key, reconcile);
    }
  }

  lemma {:induction false} NoneNew<T, K>(items: seq<T>, n: seq<T>, key: T -> K)
    requires Keys(n, key) <= Keys(items, key)
    ensures NewOnly(items, n, key) == []
    decreases |n|
  {
    if n != [] {
      var last := n[|n| - 1];
      IndexFinds(items, key, key(last));
      NoneNew(items, n[..|n| - 1], key);
    }
  }

  /** Merging the same collection a second time changes nothing and warns of nothing. */
  lemma {:induction false} CollectionSettles<T(!new), K>(existing: seq<T>, incoming: seq<T>, key: T -> K, reconcile: Reconciler<T>)
    requires KeepsKey(key, reconcile) && Settles(key, reconcile)
    ensures var r := MergedItems(existing, incoming, key, reconcile);
            && MergedItems(r, incoming, key, reconcile) == r
            && MergedWarnings(r, incoming, key, reconcile) == []
  {
    var r := MergedItems(existing, incoming, key, reconcile);
    var n := ByName(incoming, key);
    MergedKeyOrder(existing, incoming, key, reconcile);
    DistinctByKeys(r, KeySeq(existing, key) + KeySeq(incoming, key), key);
    ByNameOfDistinct(r, key);
    forall i | 0 <= i < |r| ensures Reconciled(r[i], n, key, reconcile) == (r[i], []) {
      EntrySettles(existing, incoming, key, reconcile, i);
    }
    NoneWarn(r, n, key, reconcile);
    ByNameOrder(incoming, key);
    forall k | k in Keys(n, key) ensures k in Keys(r, key) {
      KeysAreKeySeq(r, key, k);
      KeysAreKeySeq(incoming, key, k);
      AdjoinHas([], KeySeq(existing, key) + KeySeq(incoming, key), k);
    }
    NoneNew(r, n, key);
  }

  // ---------- Claims ----------

  lemma {:induction false} SurvivorsAgain(claims: seq<Claim>, fate: Claim -> Fate, again: Claim -> Fate)
    requires forall c :: c in claims && fate(c).Kept? ==> again(c).Kept?
    ensures Survivors(Survivors(claims, fate), again) == Survivors(claims, fate)
    ensures Warnings(Survivors(claims, fate), again) == []
    decreases |claims|
  {
    if claims != [] {
      var last := claims[|claims| - 1];
      var before := Survivors(claims[..|claims| - 1], fate);
      SurvivorsAgain(claims[..|claims| - 1], fate, again);
      assert (before + [last])[..|before|] == before && before + [] == before;
      assert last in claims;
    }
  }

  lemma {:induction false} SubsumedAgain(claims: seq<Claim>, more: seq<Claim>, fate: Claim -> Fate)
    requires forall c :: c in claims ==> fate(c).Subsumed?
    ensures Survivors(claims + more, fate) == Survivors(more, fate)
    ensures Warnings(claims + more, fate) == Warnings(more, fate)
    decreases |claims| + |more|
  {
    if more != [] {
      assert (claims + more)[..|claims + more| - 1] == claims + more[..|more| - 1];
      SubsumedAgain(claims, more[..|more| - 1], fate);
    } else if claims != [] {
      assert claims + more == claims;
      var init := claims[..|claims| - 1];
      assert init + [] == init;
      SubsumedAgain(init, [], fate);
    }
  }

  lemma {:induction false} FunctionsSettle(qualifier: string)
    ensures KeepsKey(FunctionName, ReconcileFunctions(qualifier)) && Settles(FunctionName, ReconcileFunctions(qualifier))
  {
    var reconcile := ReconcileFunctions(qualifier);
    forall x: Function, y: Function ensures reconcile(reconcile(x, y).0, y) == (reconcile(x, y).0, []) {
      var once := reconcile(x, y).0;
      var fate, again := FateInFunction(x, y, qualifier), FateInFunction(once, y, qualifier);
      var kept := Survivors(x.claims, fate);
      SurvivorsAgain(x.claims, fate, again);
      SubsumedAgain(y.claims, kept, again);
    }
    forall y: Function ensures reconcile(y, y) == (y, []) {
      var fate := FateInFunction(y, y, qualifier);
      SubsumedAgain(y.claims, [], fate);
      assert y.claims + [] == y.claims;
    }
  }

  lemma {:induction false} ExternsSettle()
    ensures KeepsKey(ExternName, ReconcileExterns()) && Settles(ExternName, ReconcileExterns())
  {
    var reconcile := ReconcileExterns();
    forall x: ExternFunction, y: ExternFunction ensures reconcile(reconcile(x, y).0, y) == (reconcile(x, y).0, []) {
      var once := reconcile(x, y).0;
      var fate, again := FateInExtern(x, y), FateInExtern(once, y);
      var kept := Survivors(x.claims, fate);
      SurvivorsAgain(x.claims, fate, again);
      SubsumedAgain(y.claims, kept, again);
    }
    forall y: ExternFunction ensures reconcile(y, y) == (y, []) {
      var fate := FateInExtern(y, y);
      SubsumedAgain(y.claims, [], fate);
      assert y.claims + [] == y.claims;
    }
  }

  lemma {:induction false} PlainSettles<T(!new), K>(e: seq<T>, n: seq<T>, key: T -> K)
    ensures var r := MergedItems(e, n, key, TakeNew()); MergedItems(r, n, key, TakeNew()) == r
  {
    CollectionSettles(e, n, key, TakeNew());
  }

  lemma {:induction false} AddNewSettles<T, K>(e: seq<T>, n: seq<T>, key: T -> K)
    ensures AddNew(AddNew(e, n, key), n, key) == AddNew(e, n, key)
  {
    AddNewKeys(e, n, key);
    AddNothing(AddNew(e, n, key), n, key);
  }

  lemma {:induction false} DedupSettles<T, K>(e: seq<T>, n: seq<T>, key: T -> K)
    ensures AddNew([], AddNew([], e + n, key) + n, key) == AddNew([], e + n, key)
  {
    var r := AddNew([], e + n, key);
    AddNewDistinct([], e + n, key, 0);
    AddNewKeys([], e + n, key);
    assert Keys([], key) == {};
    AddDistinct([], r, key);
    assert [] + r == r;
    AddNewTwice([], r, n, key);
    assert forall x :: x in n ==> x in e + n;
    assert Keys(n, key) <= Keys(e + n, key);
    AddNothing(r, n, key);
  }

  /** Merging the same new program a second time changes no collection and gives no warning. */
  lemma {:induction false} SecondMergeChangesNothing(e: Program, n: Program)
    ensures Merged(Merged(e, n), n) == Merged(e, n)
    ensures ProgramWarnings(Merged(e, n), n) == []
  {
    FunctionsSettle("");
    FunctionsSettle("structured ");
    ExternsSettle();
    CollectionSettles(e.functions, n.functions, FunctionName, ReconcileFunctions(""));
    CollectionSettles(e.structured, n.structured, FunctionName, ReconcileFunctions("structured "));
    CollectionSettles(e.externs, n.externs, ExternName, ReconcileExterns());
    PlainSettles(e.constants, n.constants, ConstantName);
    PlainSettles(e.structs, n.structs, StructName);
    PlainSettles(e.enums, n.enums, EnumName);
    PlainSettles(e.sourceUnits, n.sourceUnits, UnitPath);
    PlainSettles(e.binaryUnits, n.binaryUnits, UnitPath);
    AddNewSettles(e.imports, n.imports, ImportName);
    DedupSettles(e.edges, n.edges, EdgeKey);
    DedupSettles(e.equivalences, n.equivalences, EquivalenceKey);
    DedupSettles(e.bindings, n.bindings, BindingKey);
  }

  /** Every existing claim is subsumed, kept or warned about, and no two of these; the kept ones keep their order. */
  ghost predicate Accounted(claims: seq<Claim>, fate: Claim -> Fate, incoming: seq<Claim>, merged: seq<Claim>,
                            warnings: seq<Warning>) {
    && merged == incoming + Survivors(claims, fate)
    && warnings == Warnings(claims, fate)
    && |claims| == SubsumedCount(claims, fate) + |Survivors(claims, fate)| + |warnings|
    && (forall i :: 0 <= i < |claims| ==>
          match fate(claims[i])
          case Subsumed => claims[i].expr in Exprs(incoming)
          case Kept => claims[i].expr !in Exprs(incoming) && claims[i] in merged
          case Dropped(w) => claims[i].expr !in Exprs(incoming) && w in warnings)
  }

  lemma {:induction false} SurvivorsAndWarnings(claims: seq<Claim>, fate: Claim -> Fate)
    ensures |claims| == SubsumedCount(claims, fate) + |Survivors(claims, fate)| + |Warnings(claims, fate)|
    ensures forall i :: 0 <= i < |claims| ==>
              match fate(claims[i])
              case Subsumed => true
              case Kept => claims[i] in Survivors(claims, fate)
              case Dropped(w) => w in Warnings(claims, fate)
    decreases |claims|
  {
    if claims != [] {
      SurvivorsAndWarnings(claims[..|claims| - 1], fate);
    }
  }

  lemma {:induction false} FunctionClaimsAreAccounted(existing: Function, incoming: Function, qualifier: string)
    ensures var (merged, warnings) := ReconcileFunctions(qualifier)(existing, incoming);
            && Accounted(existing.claims, FateInFunction(existing, incoming, qualifier), incoming.claims, merged.claims, warnings)
            && merged == incoming.(claims := merged.claims)
  {
    var fate := FateInFunction(existing, incoming, qualifier);
    SurvivorsAndWarnings(existing.claims, fate);
  }

  lemma {:induction false} ExternClaimsAreAccounted(existing: ExternFunction, incoming: ExternFunction)
    ensures var (merged, warnings) := ReconcileExterns()(existing, incoming);
            && Accounted(existing.claims, FateInExtern(existing, incoming), incoming.claims, merged.claims, warnings)
            && merged == incoming.(claims := merged.claims)
  {
    var fate := FateInExtern(existing, incoming);
    SurvivorsAndWarnings(existing.claims, fate);
  }

  /**
   * In the merged program the entry of a name present in both sides is the reconciled
   * pair, and its warnings are among the program's; an entry of one side is unchanged.
   */
  lemma {:induction false} MergedEntry<T, K>(existing: seq<T>, incoming: seq<T>, key: T -> K, reconcile: Reconciler<T>, i: nat)
    requires i < |ByName(existing, key)|
    ensures var e, n := ByName(existing, key), ByName(incoming, key);
            var r := MergedItems(existing, incoming, key, reconcile);
            match IndexOf(n, key, key(e[i]))
            case None => r[i] == e[i]
            case Some(j) =>
              && r[i] == reconcile(e[i], n[j]).0
              && forall w :: w in reconcile(e[i], n[j]).1 ==> w in MergedWarnings(existing, incoming, key, reconcile)
  {
    WarningsAreCollected(ByName(existing, key), ByName(incoming, key), key, reconcile, i);
  }

  lemma {:induction false} WarningsAreCollected<T, K>(e: seq<T>, n: seq<T>, key: T -> K, reconcile: Reconciler<T>, i: nat)
    requires i < |e|
    ensures forall w :: w in Reconciled(e[i], n, key, reconcile).1 ==> w in AllWarnings(e, n, key, reconcile)
    decreases |e|
  {
    if i < |e| - 1 {
      WarningsAreCollected(e[..|e| - 1], n, key, reconcile, i);
    }
  }
}
