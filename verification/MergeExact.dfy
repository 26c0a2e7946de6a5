/** Which entries a merged program holds: the newest version of every name, and every relation once. */
module MergeExact {
  import opened Wrappers
  import opened QuodTree
  import opened Relations
  import opened FirstWins
  import opened Dictionary
  import opened Merge
  import opened MergeLaws

  /** The item is the last of its key in the list. */
  ghost predicate IsLast<T, K>(x: T, items: seq<T>, key: T -> K) {
    exists i :: 0 <= i < |items| && items[i] == x && IsLatest(x, items, i, key)
  }

  /** The item is the first of its key in the list. */
  ghost predicate IsFirst<T, K>(x: T, items: seq<T>, key: T -> K) {
    exists i :: 0 <= i < |items| && items[i] == x && forall j :: 0 <= j < i ==> key(items[j]) != key(x)
  }

  /** The dictionary of a list holds the last item of each key. */
  lemma {:induction false} ByNameExactly<T, K>(items: seq<T>, key: T -> K, x: T)
    ensures x in ByName(items, key) <==> IsLast(x, items, key)
  {
    ByNameOrder(items, key);
    var dict := ByName(items, key);
    if x in dict {
      var i :| 0 <= i < |dict| && dict[i] == x;
      var j := ByNameTakesLast(items, key, i);
    }
    if IsLast(x, items, key) {
      var i :| 0 <= i < |items| && items[i] == x && IsLatest(x, items, i, key);
      KeysAreKeySeq(items, key, key(x));
      AdjoinHas([], KeySeq(items, key), key(x));
      KeysAreKeySeq(dict, key, key(x));
      var k :| 0 <= k < |dict| && key(dict[k]) == key(x);
      var j := ByNameTakesLast(items, key, k);
    }
  }

  /** Both sides have the key of `y`, the existing one last as `z`. */
  ghost predicate Meets<T, K>(existing: seq<T>, incoming: seq<T>, key: T -> K, z: T, y: T) {
    IsLast(z, existing, key) && IsLast(y, incoming, key) && key(z) == key(y)
  }

  /**
   * Where an entry of a merged collection comes from: it reconciles the last existing with the last
   * new one of its name, or it is the last of its name on the only side that has it.
   */
  ghost predicate Belongs<T(!new), K>(x: T, existing: seq<T>, incoming: seq<T>, key: T -> K, reconcile: Reconciler<T>) {
    || (exists z, y :: Meets(existing, incoming, key, z, y) && x == reconcile(z, y).0)
    || (IsLast(x, incoming, key) && key(x) !in Keys(existing, key))
    || (IsLast(x, existing, key) && key(x) !in Keys(incoming, key))
  }

  lemma {:induction false} ReconciledExactly<T, K>(e: seq<T>, n: seq<T>, key: T -> K, reconcile: Reconciler<T>, z: T, x: T)
    requires Distinct(n, 0, key)
    ensures Reconciled(z, n, key, reconcile).0 == x <==>
            if key(z) in Keys(n, key) then exists y :: y in n && key(y) == key(z) && x == reconcile(z, y).0 else x == z
  {
    IndexFinds(n, key, key(z));
    var found := IndexOf(n, key, key(z));
    if found.Some? {
      assert n[found.value] in n;
      forall y | y in n && key(y) == key(z) ensures y == n[found.value] {
        var j :| 0 <= j < |n| && n[j] == y;
        IndexIsUnique(n, key, j);
      }
    }
  }

  lemma {:induction false} SameNames<T, K>(items: seq<T>, key: T -> K)
    ensures Keys(ByName(items, key), key) == Keys(items, key) && Distinct(ByName(items, key), 0, key)
    ensures forall x :: x in ByName(items, key) <==> IsLast(x, items, key)
  {
    ByNameOrder(items, key);
    forall x ensures x in ByName(items, key) <==> IsLast(x, items, key) {
      ByNameExactly(items, key, x);
    }
  }

  /** A merged collection holds exactly these entries. */
  lemma {:induction false} MergedExactly<T(!new), K>(existing: seq<T>, incoming: seq<T>, key: T -> K, reconcile: Reconciler<T>, x: T)
    ensures x in MergedItems(existing, incoming, key, reconcile) <==> Belongs(x, existing, incoming, key, reconcile)
  {
    var e, n := ByName(existing, key), ByName(incoming, key);
    var all := ReconciledAll(e, n, key, reconcile);
    SameNames(existing, key);
    SameNames(incoming, key);
    NewOnlyItems(e, n, key);
    if x in all {
      var i :| 0 <= i < |all| && all[i] == x;
      ReconciledExactly(e, n, key, reconcile, e[i], x);
      assert e[i] in e;
    }
    if z, y :| Meets(existing, incoming, key, z, y) && x == reconcile(z, y).0 {
      var i :| 0 <= i < |e| && e[i] == z;
      ReconciledExactly(e, n, key, reconcile, z, x);
      assert y in n && key(z) in Keys(n, key);
      assert all[i] == x;
    }
    if IsLast(x, existing, key) && key(x) !in Keys(incoming, key) {
      var i :| 0 <= i < |e| && e[i] == x;
      ReconciledExactly(e, n, key, reconcile, x, x);
      assert all[i] == x;
    }
  }

  /** The newest version of its name: the new side's last one, or the existing side's if the new side has none. */
  ghost predicate IsNewest<T, K>(x: T, existing: seq<T>, incoming: seq<T>, key: T -> K) {
    IsLast(x, incoming, key) || (IsLast(x, existing, key) && key(x) !in Keys(incoming, key))
  }

  /** Without claims to reconcile, the new side wins. */
  lemma {:induction false} NewWins<T(!new), K>(existing: seq<T>, incoming: seq<T>, key: T -> K, x: T)
    ensures x in MergedItems(existing, incoming, key, TakeNew()) <==>
            IsNewest(x, existing, incoming, key)
  {
    MergedExactly(existing, incoming, key, TakeNew(), x);
    SameNames(existing, key);
    if IsLast(x, incoming, key) && key(x) in Keys(existing, key) {
      var z :| z in ByName(existing, key) && key(z) == key(x);
      assert Meets(existing, incoming, key, z, x);
    }
  }

  lemma {:induction false} AddNewExactly<T, K>(items: seq<T>, more: seq<T>, key: T -> K, x: T)
    ensures x in AddNew(items, more, key) <==> x in items || (key(x) !in Keys(items, key) && IsFirst(x, more, key))
    decreases |more|
  {
    if more != [] {
      var head := more[0];
      var next := if key(head) in Keys(items, key) then items else items + [head];
      AddNewExactly(next, more[1..], key, x);
      assert Keys(items + [head], key) == Keys(items, key) + {key(head)};
      FirstByHead(more, key, x);
    }
  }

  lemma {:induction false} FirstByHead<T, K>(more: seq<T>, key: T -> K, x: T)
    requires more != []
    ensures IsFirst(x, more, key) <==> x == more[0] || (key(x) != key(more[0]) && IsFirst(x, more[1..], key))
  {
    assert forall j :: 1 <= j < |more| ==> more[j] == more[1..][j - 1];
    if i :| 0 <= i < |more[1..]| && more[1..][i] == x && (forall j :: 0 <= j < i ==> key(more[1..][j]) != key(x))
            && key(x) != key(more[0]) {
      assert more[i + 1] == x;
    }
    if i :| 1 <= i < |more| && more[i] == x && forall j :: 0 <= j < i ==> key(more[j]) != key(x) {
      assert more[1..][i - 1] == x;
    }
  }

  /** The relations of both programs are kept, the first of each key. */
  lemma {:induction false} UnionExactly<T, K>(existing: seq<T>, incoming: seq<T>, key: T -> K, x: T)
    ensures x in AddNew([], existing + incoming, key) <==> IsFirst(x, existing + incoming, key)
  {
    AddNewExactly([], existing + incoming, key, x);
  }

  /** Two equivalences are one when they join the same nodes in the same regime on the same ground. */
  predicate SameGround(i: Option<Justification>, j: Option<Justification>) {
    match (i, j)
    case (Some(FamilyLowering(r, _, h)), Some(FamilyLowering(s, _, g))) => r == s && h == g
    case (Some(LiftEquivalence(p, h, _)), Some(LiftEquivalence(q, g, _))) => p == q && h == g
    case (Some(Manual(a, _)), Some(Manual(b, _))) => a == b
    case (Some(Z3(_, h, b)), Some(Z3(_, g, c))) => h == g && b == c
    case (Some(DerivedBy(a, _)), Some(DerivedBy(b, _))) => a == b
    case (Some(DecompileLift(h)), Some(DecompileLift(g))) => h == g
    case _ => KindOnly(i).Some? && KindOnly(i) == KindOnly(j)
  }

  /** The kinds of ground that say nothing more. */
  function KindOnly(j: Option<Justification>): Option<string> {
    match j
    case None => Some("none")
    case Some(OtherKind(kind)) => Some(kind)
    case _ => None
  }

  lemma {:induction false} SameEquivalenceExactly(x: Equivalence, y: Equivalence)
    ensures EquivalenceKey(x) == EquivalenceKey(y) <==>
            x.a == y.a && x.b == y.b && x.regime == y.regime && SameGround(x.justification, y.justification)
  {
    var k, l := JustificationKey(x.justification), JustificationKey(y.justification);
    if SameGround(x.justification, y.justification) {
      assert k == l;
    }
    if k == l {
      assert |k| == |l| && k[0] == l[0];
      assert |k| > 1 ==> k[1] == l[1];
      assert |k| > 2 ==> k[2] == l[2];
    }
  }

  ghost predicate HoldsNewest<T(!new), K>(merged: seq<T>, existing: seq<T>, incoming: seq<T>, key: T -> K) {
    forall x :: x in merged <==> IsNewest(x, existing, incoming, key)
  }

  ghost predicate HoldsReconciled<T(!new), K>(merged: seq<T>, existing: seq<T>, incoming: seq<T>, key: T -> K, reconcile: Reconciler<T>) {
    forall x :: x in merged <==> Belongs(x, existing, incoming, key, reconcile)
  }

  ghost predicate HoldsUnion<T(!new), K>(merged: seq<T>, existing: seq<T>, incoming: seq<T>, key: T -> K) {
    forall x :: x in merged <==> IsFirst(x, existing + incoming, key)
  }

  lemma {:induction false} NewestAreHeld<T(!new), K>(existing: seq<T>, incoming: seq<T>, key: T -> K)
    ensures HoldsNewest(MergedItems(existing, incoming, key, TakeNew()), existing, incoming, key)
  {
    forall x ensures x in MergedItems(existing, incoming, key, TakeNew()) <==> IsNewest(x, existing, incoming, key) {
      NewWins(existing, incoming, key, x);
    }
  }

  lemma {:induction false} ReconciledAreHeld<T(!new), K>(existing: seq<T>, incoming: seq<T>, key: T -> K, reconcile: Reconciler<T>)
    ensures HoldsReconciled(MergedItems(existing, incoming, key, reconcile), existing, incoming, key, reconcile)
  {
    forall x ensures x in MergedItems(existing, incoming, key, reconcile) <==> Belongs(x, existing, incoming, key, reconcile) {
      MergedExactly(existing, incoming, key, reconcile, x);
    }
  }

  lemma {:induction false} UnionIsHeld<T(!new), K>(existing: seq<T>, incoming: seq<T>, key: T -> K)
    ensures HoldsUnion(AddNew([], existing + incoming, key), existing, incoming, key)
  {
    forall x ensures x in AddNew([], existing + incoming, key) <==> IsFirst(x, existing + incoming, key) {
      UnionExactly(existing, incoming, key, x);
    }
  }

  /**
   * The merged program, collection by collection: reconciled functions and externs, the newest version
   * of everything else that has a name, existing imports before new ones, and every relation once.
   */
  lemma {:induction false} ProgramExactly(e: Program, n: Program)
    ensures var m := Merged(e, n);
            && HoldsReconciled(m.functions, e.functions, n.functions, FunctionName, ReconcileFunctions(""))
            && HoldsReconciled(m.structured, e.structured, n.structured, FunctionName, ReconcileFunctions("structured "))
            && HoldsReconciled(m.externs, e.externs, n.externs, ExternName, ReconcileExterns())
            && HoldsNewest(m.constants, e.constants, n.constants, ConstantName)
            && HoldsNewest(m.structs, e.structs, n.structs, StructName)
            && HoldsNewest(m.enums, e.enums, n.enums, EnumName)
            && HoldsNewest(m.sourceUnits, e.sourceUnits, n.sourceUnits, UnitPath)
            && HoldsNewest(m.binaryUnits, e.binaryUnits, n.binaryUnits, UnitPath)
            && (forall i :: i in m.imports <==>
                  i in e.imports || (i.name !in Keys(e.imports, ImportName) && IsFirst(i, n.imports, ImportName)))
            && HoldsUnion(m.edges, e.edges, n.edges, EdgeKey)
            && HoldsUnion(m.equivalences, e.equivalences, n.equivalences, EquivalenceKey)
            && HoldsUnion(m.bindings, e.bindings, n.bindings, BindingKey)
  {
    ReconciledAreHeld(e.functions, n.functions, FunctionName, ReconcileFunctions(""));
    ReconciledAreHeld(e.structured, n.structured, FunctionName, ReconcileFunctions("structured "));
    ReconciledAreHeld(e.externs, n.externs, ExternName, ReconcileExterns());
    NewestAreHeld(e.constants, n.constants, ConstantName);
    NewestAreHeld(e.structs, n.structs, StructName);
    NewestAreHeld(e.enums, n.enums, EnumName);
    NewestAreHeld(e.sourceUnits, n.sourceUnits, UnitPath);
    NewestAreHeld(e.binaryUnits, n.binaryUnits, UnitPath);
    forall i ensures i in Merged(e, n).imports <==>
                     i in e.imports || (i.name !in Keys(e.imports, ImportName) && IsFirst(i, n.imports, ImportName)) {
      AddNewExactly(e.imports, n.imports, ImportName, i);
    }
    UnionIsHeld(e.edges, n.edges, EdgeKey);
    UnionIsHeld(e.equivalences, n.equivalences, EquivalenceKey);
    UnionIsHeld(e.bindings, n.bindings, BindingKey);
  }

  lemma {:induction false} AllWarningsExactly<T, K>(e: seq<T>, n: seq<T>, key: T -> K, reconcile: Reconciler<T>, w: Warning)
    ensures w in AllWarnings(e, n, key, reconcile) <==> exists i :: 0 <= i < |e| && w in Reconciled(e[i], n, key, reconcile).1
    decreases |e|
  {
    if e != [] {
      var init, last := e[..|e| - 1], e[|e| - 1];
      AllWarningsExactly(init, n, key, reconcile, w);
      assert forall i :: 0 <= i < |init| ==> init[i] == e[i];
      assert e[|init|] == last;
    }
  }

  lemma {:induction false} ReconciledWarns<T, K>(n: seq<T>, key: T -> K, reconcile: Reconciler<T>, z: T, w: Warning)
    requires Distinct(n, 0, key)
    ensures w in Reconciled(z, n, key, reconcile).1 <==> exists y :: y in n && key(y) == key(z) && w in reconcile(z, y).1
  {
    IndexFinds(n, key, key(z));
    var found := IndexOf(n, key, key(z));
    if found.Some? {
      assert n[found.value] in n;
      forall y | y in n && key(y) == key(z) ensures y == n[found.value] {
        var j :| 0 <= j < |n| && n[j] == y;
        IndexIsUnique(n, key, j);
      }
    } else {
      forall y | y in n ensures key(y) != key(z) {
        assert key(y) in Keys(n, key);
      }
    }
  }

  ghost predicate Warned<T(!new), K>(w: Warning, existing: seq<T>, incoming: seq<T>, key: T -> K, reconcile: Reconciler<T>) {
    exists z, y :: Meets(existing, incoming, key, z, y) && w in reconcile(z, y).1
  }

  /** A collection's warnings are exactly those of its reconciled pairs. */
  lemma {:induction false} WarningsExactly<T(!new), K>(existing: seq<T>, incoming: seq<T>, key: T -> K, reconcile: Reconciler<T>, w: Warning)
    ensures w in MergedWarnings(existing, incoming, key, reconcile) <==> Warned(w, existing, incoming, key, reconcile)
  {
    var e, n := ByName(existing, key), ByName(incoming, key);
    SameNames(existing, key);
    SameNames(incoming, key);
    AllWarningsExactly(e, n, key, reconcile, w);
    if i :| 0 <= i < |e| && w in Reconciled(e[i], n, key, reconcile).1 {
      ReconciledWarns(n, key, reconcile, e[i], w);
      var y :| y in n && key(y) == key(e[i]) && w in reconcile(e[i], y).1;
      assert Meets(existing, incoming, key, e[i], y);
    }
    if z, y :| Meets(existing, incoming, key, z, y) && w in reconcile(z, y).1 {
      var i :| 0 <= i < |e| && e[i] == z;
      ReconciledWarns(n, key, reconcile, z, w);
    }
  }

  /** The merged program warns of nothing else. */
  lemma {:induction false} ProgramWarningsExactly(e: Program, n: Program, w: Warning)
    ensures w in ProgramWarnings(e, n) <==>
            || Warned(w, e.functions, n.functions, FunctionName, ReconcileFunctions(""))
            || Warned(w, e.structured, n.structured, FunctionName, ReconcileFunctions("structured "))
            || Warned(w, e.externs, n.externs, ExternName, ReconcileExterns())
  {
    WarningsExactly(e.functions, n.functions, FunctionName, ReconcileFunctions(""), w);
    WarningsExactly(e.structured, n.structured, FunctionName, ReconcileFunctions("structured "), w);
    WarningsExactly(e.externs, n.externs, ExternName, ReconcileExterns(), w);
  }

  lemma {:induction false} KeysAreUnique<T(!new), K>(existing: seq<T>, incoming: seq<T>, key: T -> K, reconcile: Reconciler<T>)
    requires KeepsKey(key, reconcile)
    ensures Distinct(MergedItems(existing, incoming, key, reconcile), 0, key)
  {
    MergedKeyOrder(existing, incoming, key, reconcile);
    DistinctByKeys(MergedItems(existing, incoming, key, reconcile), KeySeq(existing, key) + KeySeq(incoming, key), key);
  }

  /** No two functions, structured functions or externs of the merged program have one name. */
  lemma {:induction false} CallableNamesAreUnique(e: Program, n: Program)
    ensures var m := Merged(e, n);
            && (forall i, j :: 0 <= i < j < |m.functions| ==> m.functions[i].name != m.functions[j].name)
            && (forall i, j :: 0 <= i < j < |m.structured| ==> m.structured[i].name != m.structured[j].name)
            && (forall i, j :: 0 <= i < j < |m.externs| ==> m.externs[i].name != m.externs[j].name)
  {
    FunctionsSettle("");
    FunctionsSettle("structured ");
    ExternsSettle();
    KeysAreUnique(e.functions, n.functions, FunctionName, ReconcileFunctions(""));
    KeysAreUnique(e.structured, n.structured, FunctionName, ReconcileFunctions("structured "));
    KeysAreUnique(e.externs, n.externs, ExternName, ReconcileExterns());
  }

  /** Nor do two constants, structs or enums, and no two units have one path. */
  lemma {:induction false} OtherNamesAreUnique(e: Program, n: Program)
    ensures var m := Merged(e, n);
            && (forall i, j :: 0 <= i < j < |m.constants| ==> m.constants[i].name != m.constants[j].name)
            && (forall i, j :: 0 <= i < j < |m.structs| ==> m.structs[i].name != m.structs[j].name)
            && (forall i, j :: 0 <= i < j < |m.enums| ==> m.enums[i].name != m.enums[j].name)
            && (forall i, j :: 0 <= i < j < |m.sourceUnits| ==> m.sourceUnits[i].path != m.sourceUnits[j].path)
            && (forall i, j :: 0 <= i < j < |m.binaryUnits| ==> m.binaryUnits[i].path != m.binaryUnits[j].path)
  {
    KeysAreUnique(e.constants, n.constants, ConstantName, TakeNew());
    KeysAreUnique(e.structs, n.structs, StructName, TakeNew());
    KeysAreUnique(e.enums, n.enums, EnumName, TakeNew());
    KeysAreUnique(e.sourceUnits, n.sourceUnits, UnitPath, TakeNew());
    KeysAreUnique(e.binaryUnits, n.binaryUnits, UnitPath, TakeNew());
  }

  /** Edges are kept whole; a binding stands for all that join the same functions over the same interface. */
  lemma {:induction false} RelationsAreKept(e: Program, n: Program)
    ensures var m := Merged(e, n);
            && (forall x :: x in m.edges <==> x in e.edges || x in n.edges)
            && (forall x :: x in e.bindings || x in n.bindings ==>
                  exists y :: y in m.bindings && y.binFn == x.binFn && y.srcFn == x.srcFn && y.abi == x.abi)
            && (forall i, j :: 0 <= i < j < |m.bindings| ==>
                  m.bindings[i].binFn != m.bindings[j].binFn || m.bindings[i].srcFn != m.bindings[j].srcFn
                  || m.bindings[i].abi != m.bindings[j].abi)
  {
    AddNewKeys([], e.edges + n.edges, EdgeKey);
    AddNewKeys([], e.bindings + n.bindings, BindingKey);
    AddNewDistinct([], e.bindings + n.bindings, BindingKey, 0);
    var m := Merged(e, n);
    forall x | x in e.edges + n.edges ensures x in m.edges {
      assert EdgeKey(x) in Keys(e.edges + n.edges, EdgeKey);
    }
    forall x | x in e.bindings + n.bindings
      ensures exists y :: y in m.bindings && y.binFn == x.binFn && y.srcFn == x.srcFn && y.abi == x.abi {
      assert BindingKey(x) in Keys(m.bindings, BindingKey);
      var y :| y in m.bindings && BindingKey(y) == BindingKey(x);
    }
  }
}
