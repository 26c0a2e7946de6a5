/**
 * Upgrading A-to-B equivalences: the claims of one pair are collapsed into one, the pair
 * is walked by the lift checker and its claim pinned to the hash of the walk's record.
 */
module ProveLifts {
  import opened Wrappers
  import opened QuodTree
  import opened CTree
  import opened Relations
  import opened FirstWins
  import opened Dictionary
  import opened LiftCheck

  /** The program's C functions and quod functions by id, and the hash of the record of a pair. */
  datatype Endpoints = Endpoints(
    cfns: map<string, CFn>,
    fns: map<string, Function>,
    constants: Constants,
    prefix: string,
    artifactHash: (CFn, Function) -> string)

  datatype LiftError = Rejected(a: string, b: string)

  predicate IsWitness(e: Equivalence) {
    e.justification.Some? && e.justification.value.LiftEquivalence?
  }

  /** A claim of the ingester, or the witnessed form of one. */
  predicate IsLift(e: Equivalence) {
    || IsWitness(e)
    || (e.justification.Some? && e.justification.value.Manual?
        && StartsWith(e.justification.value.signedBy, "quod.ingest"))
  }

  function PairOf(e: Equivalence): (string, string) {
    (e.a, e.b)
  }

  function Others(es: seq<Equivalence>): seq<Equivalence> {
    if es == [] then []
    else
      var last := es[|es| - 1];
      Others(es[..|es| - 1]) + (if IsLift(last) then [] else [last])
  }

  /** A witness replaces a claim of the ingester, anything else stays. */
  function Collect(pairs: seq<Equivalence>, e: Equivalence): seq<Equivalence> {
    match IndexOf(pairs, PairOf, PairOf(e))
    case None => pairs + [e]
    case Some(i) => if IsWitness(e) && !IsWitness(pairs[i]) then pairs[i := e] else pairs
  }

  function Pairs(es: seq<Equivalence>): seq<Equivalence> {
    if es == [] then []
    else
      var before, last := Pairs(es[..|es| - 1]), es[|es| - 1];
      if IsLift(last) then Collect(before, last) else before
  }

  predicate Present(ends: Endpoints, e: Equivalence) {
    e.a in ends.cfns && e.b in ends.fns
  }

  function CurrentHash(ends: Endpoints, e: Equivalence): string
    requires Present(ends, e)
  {
    ends.artifactHash(ends.cfns[e.a], ends.fns[e.b])
  }

  predicate IsCurrent(ends: Endpoints, e: Equivalence)
    requires Present(ends, e)
  {
    IsWitness(e) && e.justification.value.artifactHash == CurrentHash(ends, e)
  }

  /** A pair with a missing endpoint passes through; a rejected pair stops everything. */
  function Pinned(ends: Endpoints, e: Equivalence): Result<Equivalence, LiftError> {
    if !Present(ends, e) then Ok(e)
    else if !AcceptsFn(ends.cfns[e.a], ends.fns[e.b], ends.constants) then Err(Rejected(e.a, e.b))
    else if IsCurrent(ends, e) then Ok(e)
    else
      var path := ends.prefix + "/" + ends.fns[e.b].name + ".txt";
      Ok(Equivalence(e.a, e.b, "witness", "trust", Some(LiftEquivalence(path, CurrentHash(ends, e), None))))
  }

  function PinnedAll(ends: Endpoints, es: seq<Equivalence>): (r: Result<seq<Equivalence>, LiftError>)
    ensures r.Ok? ==> |r.value| == |es|
  {
    if es == [] then Ok([]) else
      var before :- PinnedAll(ends, es[..|es| - 1]);
      var last :- Pinned(ends, es[|es| - 1]);
      Ok(before + [last])
  }

  function Proved(ends: Endpoints, es: seq<Equivalence>): Result<seq<Equivalence>, LiftError> {
    var pinned :- PinnedAll(ends, Pairs(es));
    Ok(Others(es) + pinned)
  }

  method ProveAll(ends: Endpoints, es: seq<Equivalence>) returns (r: Result<seq<Equivalence>, LiftError>)
    ensures r == Proved(ends, es)
  {
    var pairs, others: seq<Equivalence> := [], [];
    for i := 0 to |es|
      invariant pairs == Pairs(es[..i]) && others == Others(es[..i])
    {
      assert es[..i + 1][..i] == es[..i];
      if !IsLift(es[i]) {
        others := others + [es[i]];
        continue;
      }
      var existing := IndexOf(pairs, PairOf, PairOf(es[i]));
      if existing.None? {
        pairs := pairs + [es[i]];
      } else if IsWitness(es[i]) && !IsWitness(pairs[existing.value]) {
        pairs := pairs[existing.value := es[i]];
      }
    }
    assert es[..|es|] == es;
    var claims := PinPairs(ends, pairs);
    if claims.Err? {
      return Err(claims.error);
    }
    r := Ok(others + claims.value);
  }

  method PinPairs(ends: Endpoints, pairs: seq<Equivalence>) returns (r: Result<seq<Equivalence>, LiftError>)
    ensures r == PinnedAll(ends, pairs)
  {
    var claims: seq<Equivalence> := [];
    for i := 0 to |pairs|
      invariant PinnedAll(ends, pairs[..i]) == Ok(claims)
    {
      assert pairs[..i + 1][..i] == pairs[..i];
      var claim := Pinned(ends, pairs[i]);
      if claim.Err? {
        FirstRejection(ends, pairs, i);
        return Err(claim.error);
      }
      claims := claims + [claim.value];
    }
    assert pairs[..|pairs|] == pairs;
    r := Ok(claims);
  }

  /** The first rejected pair decides the error. */
  lemma {:induction false} FirstRejection(ends: Endpoints, es: seq<Equivalence>, i: nat)
    requires i < |es| && PinnedAll(ends, es[..i]).Ok? && Pinned(ends, es[i]).Err?
    ensures PinnedAll(ends, es) == Err(Pinned(ends, es[i]).error)
    decreases |es|
  {
    var init := es[..|es| - 1];
    if i < |init| {
      assert init[..i] == es[..i];
      FirstRejection(ends, init, i);
    } else {
      assert init == es[..i];
    }
  }

  // ---------- One claim per pair ----------

  lemma {:induction false} CollectKeepsDistinct(pairs: seq<Equivalence>, e: Equivalence)
    requires Distinct(pairs, 0, PairOf)
    ensures Distinct(Collect(pairs, e), 0, PairOf)
    ensures Keys(Collect(pairs, e), PairOf) == Keys(pairs, PairOf) + {PairOf(e)}
  {
    IndexFinds(pairs, PairOf, PairOf(e));
    var r := Collect(pairs, e);
    forall k ensures k in Keys(r, PairOf) <==> k in Keys(pairs, PairOf) || k == PairOf(e) {
      if k in Keys(pairs, PairOf) {
        var i :| 0 <= i < |pairs| && PairOf(pairs[i]) == k;
        assert PairOf(r[i]) == k && r[i] in r;
      }
      if k == PairOf(e) && IndexOf(pairs, PairOf, k).None? {
        assert r[|pairs|] == e;
      }
    }
  }

  /** The lift claims of the list. */
  function Lifts(es: seq<Equivalence>): seq<Equivalence> {
    if es == [] then []
    else
      var last := es[|es| - 1];
      Lifts(es[..|es| - 1]) + (if IsLift(last) then [last] else [])
  }

  lemma {:induction false} PairsAre(es: seq<Equivalence>)
    ensures Distinct(Pairs(es), 0, PairOf) && Keys(Pairs(es), PairOf) == Keys(Lifts(es), PairOf)
    ensures forall i :: 0 <= i < |Pairs(es)| ==> IsLift(Pairs(es)[i])
    decreases |es|
  {
    if es != [] {
      var init, last := es[..|es| - 1], es[|es| - 1];
      PairsAre(init);
      if IsLift(last) {
        CollectKeepsDistinct(Pairs(init), last);
        assert Keys(Lifts(init) + [last], PairOf) == Keys(Lifts(init), PairOf) + {PairOf(last)};
      }
    }
  }

  /** Only a pair's own witness can have been chosen over a claim of the ingester. */
  predicate Prefers(x: Equivalence, es: seq<Equivalence>) {
    x in es && (!IsWitness(x) ==> forall y :: y in es && IsLift(y) && PairOf(y) == PairOf(x) ==> !IsWitness(y))
  }

  lemma {:induction false} WitnessIsPreferred(es: seq<Equivalence>, i: nat)
    requires i < |Pairs(es)|
    ensures Prefers(Pairs(es)[i], es)
    decreases |es|
  {
    var init, last := es[..|es| - 1], es[|es| - 1];
    assert es == init + [last];
    var before := Pairs(init);
    if i < |before| {
      WitnessIsPreferred(init, i);
    }
    if IsLift(last) && PairOf(last) == PairOf(Pairs(es)[i]) {
      PairsAre(init);
      var found := IndexOf(before, PairOf, PairOf(last));
      if i < |before| {
        IndexIsUnique(before, PairOf, i);
      } else if found.None? {
        PairsAreComplete(init, last);
      }
    }
  }

  lemma {:induction false} PairsAreComplete(es: seq<Equivalence>, e: Equivalence)
    requires IndexOf(Pairs(es), PairOf, PairOf(e)).None?
    ensures forall y :: y in es && IsLift(y) ==> PairOf(y) != PairOf(e)
  {
    PairsAre(es);
    IndexFinds(Pairs(es), PairOf, PairOf(e));
    forall y | y in es && IsLift(y) ensures PairOf(y) != PairOf(e) {
      LiftsHas(es, y);
    }
  }

  lemma {:induction false} LiftsHas(es: seq<Equivalence>, y: Equivalence)
    ensures y in Lifts(es) <==> y in es && IsLift(y)
    decreases |es|
  {
    if es != [] {
      LiftsHas(es[..|es| - 1], y);
      assert es == es[..|es| - 1] + [es[|es| - 1]];
    }
  }

  // ---------- Splitting the result again ----------

  lemma {:induction false} SplitOthers(es: seq<Equivalence>)
    ensures Others(Others(es)) == Others(es) && Lifts(Others(es)) == [] && Pairs(Others(es)) == []
    decreases |es|
  {
    if es != [] {
      var init, last := es[..|es| - 1], es[|es| - 1];
      SplitOthers(init);
      assert (Others(init) + [last])[..|Others(init)|] == Others(init);
      assert Others(init) + [] == Others(init);
    }
  }

  lemma {:induction false} AppendOthers(es: seq<Equivalence>, pins: seq<Equivalence>)
    requires forall i :: 0 <= i < |pins| ==> IsLift(pins[i])
    ensures Others(es + pins) == Others(es)
    decreases |pins|
  {
    if pins == [] {
      assert es + pins == es;
    } else {
      assert (es + pins)[..|es + pins| - 1] == es + pins[..|pins| - 1];
      AppendOthers(es, pins[..|pins| - 1]);
    }
  }

  lemma {:induction false} AppendLifts(es: seq<Equivalence>, pins: seq<Equivalence>)
    requires forall i :: 0 <= i < |pins| ==> IsLift(pins[i])
    ensures Lifts(es + pins) == Lifts(es) + pins
    decreases |pins|
  {
    if pins == [] {
      assert es + pins == es;
    } else {
      assert (es + pins)[..|es + pins| - 1] == es + pins[..|pins| - 1];
      AppendLifts(es, pins[..|pins| - 1]);
      assert pins == pins[..|pins| - 1] + [pins[|pins| - 1]];
    }
  }

  lemma {:induction false} AppendPairs(es: seq<Equivalence>, pins: seq<Equivalence>)
    requires Pairs(es) == []
    requires Distinct(pins, 0, PairOf) && forall i :: 0 <= i < |pins| ==> IsLift(pins[i])
    ensures Pairs(es + pins) == pins
    decreases |pins|
  {
    if pins == [] {
      assert es + pins == es;
    } else {
      var init, last := pins[..|pins| - 1], pins[|pins| - 1];
      assert (es + pins)[..|es + pins| - 1] == es + init;
      AppendPairs(es, init);
      assert pins == init + [last];
      assert IndexOf(init, PairOf, PairOf(last)).None?;
    }
  }

  /** Appending lift claims of new pairs leaves the others alone and adds those pairs. */
  lemma {:induction false} SplitAppended(es: seq<Equivalence>, pins: seq<Equivalence>)
    requires Others(es) == es && Lifts(es) == [] && Pairs(es) == []
    requires Distinct(pins, 0, PairOf) && forall i :: 0 <= i < |pins| ==> IsLift(pins[i])
    ensures Others(es + pins) == es && Lifts(es + pins) == pins && Pairs(es + pins) == pins
  {
    AppendOthers(es, pins);
    AppendLifts(es, pins);
    AppendPairs(es, pins);
  }

  lemma {:induction false} PinnedAt(ends: Endpoints, es: seq<Equivalence>, i: nat)
    requires PinnedAll(ends, es).Ok? && i < |es|
    ensures Pinned(ends, es[i]) == Ok(PinnedAll(ends, es).value[i])
    decreases |es|
  {
    if i < |es| - 1 {
      PinnedAt(ends, es[..|es| - 1], i);
    }
  }

  lemma {:induction false} PinningKeepsPairs(ends: Endpoints, es: seq<Equivalence>)
    requires PinnedAll(ends, es).Ok? && Distinct(es, 0, PairOf) && forall i :: 0 <= i < |es| ==> IsLift(es[i])
    ensures var pins := PinnedAll(ends, es).value;
            && Distinct(pins, 0, PairOf)
            && (forall i :: 0 <= i < |pins| ==> IsLift(pins[i]) && PairOf(pins[i]) == PairOf(es[i]))
  {
    var pins := PinnedAll(ends, es).value;
    forall i | 0 <= i < |pins| ensures IsLift(pins[i]) && PairOf(pins[i]) == PairOf(es[i]) {
      PinnedAt(ends, es, i);
    }
  }

  lemma {:induction false} PinnedOnce(ends: Endpoints, e: Equivalence)
    requires Pinned(ends, e).Ok?
    ensures Pinned(ends, Pinned(ends, e).value) == Pinned(ends, e)
  {}

  lemma {:induction false} PinnedStay(ends: Endpoints, es: seq<Equivalence>)
    requires PinnedAll(ends, es).Ok?
    ensures PinnedAll(ends, PinnedAll(ends, es).value) == PinnedAll(ends, es)
    decreases |es|
  {
    if es != [] {
      var init := es[..|es| - 1];
      PinnedStay(ends, init);
      PinnedOnce(ends, es[|es| - 1]);
      var before, last := PinnedAll(ends, init).value, Pinned(ends, es[|es| - 1]).value;
      assert (before + [last])[..|before|] == before;
    }
  }

  // ---------- Results ----------

  lemma {:induction false} PinnedAreCurrent(ends: Endpoints, es: seq<Equivalence>)
    requires PinnedAll(ends, es).Ok?
    ensures forall i :: 0 <= i < |es| ==>
              var e := PinnedAll(ends, es).value[i];
              Present(ends, e) ==> IsCurrent(ends, e) && AcceptsFn(ends.cfns[e.a], ends.fns[e.b], ends.constants)
  {
    forall i | 0 <= i < |es| && Present(ends, PinnedAll(ends, es).value[i])
      ensures var e := PinnedAll(ends, es).value[i];
              IsCurrent(ends, e) && AcceptsFn(ends.cfns[e.a], ends.fns[e.b], ends.constants) {
      PinnedAt(ends, es, i);
    }
  }

  /**
   * On success the unrelated equivalences are kept in order, each pair that had a lift
   * claim has exactly one, and a pair with both endpoints present was accepted by the
   * walk and is pinned to the hash of its current record.
   */
  lemma {:induction false} ProvedIs(ends: Endpoints, es: seq<Equivalence>)
    requires Proved(ends, es).Ok?
    ensures var r := Proved(ends, es).value;
            && Others(r) == Others(es)
            && Distinct(Lifts(r), 0, PairOf)
            && Keys(Lifts(r), PairOf) == Keys(Lifts(es), PairOf)
            && (forall i :: 0 <= i < |Lifts(r)| && Present(ends, Lifts(r)[i]) ==>
                  var e := Lifts(r)[i];
                  IsCurrent(ends, e) && AcceptsFn(ends.cfns[e.a], ends.fns[e.b], ends.constants))
  {
    var pairs := Pairs(es);
    var pins := PinnedAll(ends, pairs).value;
    PairsAre(es);
    PinningKeepsPairs(ends, pairs);
    SplitOthers(es);
    SplitAppended(Others(es), pins);
    PinnedAreCurrent(ends, pairs);
    forall k ensures k in Keys(pins, PairOf) <==> k in Keys(pairs, PairOf) {
      if k in Keys(pins, PairOf) {
        var i :| 0 <= i < |pins| && PairOf(pins[i]) == k;
        assert pairs[i] in pairs;
      }
      if k in Keys(pairs, PairOf) {
        var i :| 0 <= i < |pairs| && PairOf(pairs[i]) == k;
        assert pins[i] in pins;
      }
    }
  }

  /** Running it again changes nothing. */
  lemma {:induction false} ProvingAgainChangesNothing(ends: Endpoints, es: seq<Equivalence>)
    requires Proved(ends, es).Ok?
    ensures Proved(ends, Proved(ends, es).value) == Proved(ends, es)
  {
    var pairs := Pairs(es);
    var pins := PinnedAll(ends, pairs).value;
    PairsAre(es);
    PinningKeepsPairs(ends, pairs);
    SplitOthers(es);
    SplitAppended(Others(es), pins);
    PinnedStay(ends, pairs);
  }

  lemma {:induction false} PinnedFails(ends: Endpoints, es: seq<Equivalence>)
    ensures PinnedAll(ends, es).Err? <==>
            exists e :: e in es && Present(ends, e) && !AcceptsFn(ends.cfns[e.a], ends.fns[e.b], ends.constants)
    decreases |es|
  {
    if es != [] {
      PinnedFails(ends, es[..|es| - 1]);
      assert es == es[..|es| - 1] + [es[|es| - 1]];
    }
  }

  // ---------- The same, by justification and position ----------

  /** A lift record, or a claim that a human or the ingester signed as part of an ingestion. */
  ghost predicate IsClaim(e: Equivalence) {
    match e.justification
    case Some(LiftEquivalence(_, _, _)) => true
    case Some(Manual(signer, _)) => exists rest :: signer == "quod.ingest" + rest
    case _ => false
  }

  lemma {:induction false} LiftsAreClaims(e: Equivalence)
    ensures IsLift(e) <==> IsClaim(e)
  {
    if e.justification.Some? && e.justification.value.Manual? {
      var signer, prefix := e.justification.value.signedBy, "quod.ingest";
      if StartsWith(signer, prefix) {
        assert signer == prefix + signer[|prefix|..];
      }
      if rest :| signer == prefix + rest {
        assert signer[..|prefix|] == prefix;
      }
    }
  }

  ghost predicate HasRecord(e: Equivalence) {
    e.justification.Some? && e.justification.value.LiftEquivalence?
  }

  /** The list holds, in order, exactly what stands at positions where there is no claim. */
  ghost predicate AreOthers(others: seq<Equivalence>, es: seq<Equivalence>, at: seq<nat>) {
    && |at| == |others| && Increasing(at, |es|)
    && (forall i :: 0 <= i < |at| ==> others[i] == es[at[i]])
    && (forall j :: 0 <= j < |es| ==> (j in at <==> !IsClaim(es[j])))
  }

  lemma {:induction false} OthersStep(others: seq<Equivalence>, init: seq<Equivalence>, last: Equivalence, at: seq<nat>)
    requires AreOthers(others, init, at)
    ensures IsClaim(last) ==> AreOthers(others, init + [last], at)
    ensures !IsClaim(last) ==> AreOthers(others + [last], init + [last], at + [|init|])
  {
    var es, at' := init + [last], at + [|init|];
    assert forall j :: 0 <= j < |init| ==> es[j] == init[j] && (j in at' <==> j in at);
    assert at'[|at|] == |init|;
  }

  lemma {:induction false} OthersAt(es: seq<Equivalence>) returns (at: seq<nat>)
    ensures AreOthers(Others(es), es, at)
    decreases |es|
  {
    at := [];
    if es != [] {
      var init, last := es[..|es| - 1], es[|es| - 1];
      at := OthersAt(init);
      LiftsAreClaims(last);
      OthersStep(Others(init), init, last, at);
      assert es == init + [last];
      if !IsLift(last) {
        at := at + [|init|];
      }
    }
  }

  /** No claim of the pair stands before this one. */
  ghost predicate IsFirst(es: seq<Equivalence>, j: nat) {
    && j < |es| && IsClaim(es[j])
    && forall h :: 0 <= h < j && IsClaim(es[h]) ==> PairOf(es[h]) != PairOf(es[j])
  }

  /** The claim that speaks for its pair: the first with a record, else the first. */
  ghost predicate Speaks(es: seq<Equivalence>, j: nat) {
    && j < |es| && IsClaim(es[j])
    && if HasRecord(es[j]) then forall h :: 0 <= h < j && HasRecord(es[h]) ==> PairOf(es[h]) != PairOf(es[j])
       else IsFirst(es, j) && forall h :: 0 <= h < |es| && HasRecord(es[h]) ==> PairOf(es[h]) != PairOf(es[j])
  }

  /** One claim for each pair that has any, ordered by the pairs' first claims. */
  ghost predicate ArePairs(pairs: seq<Equivalence>, es: seq<Equivalence>, first: seq<nat>, chosen: seq<nat>) {
    && |first| == |chosen| == |pairs| && Increasing(first, |es|)
    && (forall i :: 0 <= i < |pairs| ==> IsFirst(es, first[i]) && PairOf(es[first[i]]) == PairOf(pairs[i]))
    && (forall i :: 0 <= i < |pairs| ==> Speaks(es, chosen[i]) && pairs[i] == es[chosen[i]])
    && (forall j :: 0 <= j < |es| && IsFirst(es, j) ==> j in first)
  }

  lemma {:induction false} FirstStays(init: seq<Equivalence>, last: Equivalence, j: nat)
    requires j < |init|
    ensures IsFirst(init, j) <==> IsFirst(init + [last], j)
  {
    var es := init + [last];
    assert forall h :: 0 <= h < |init| ==> es[h] == init[h];
  }

  lemma {:induction false} SpeakerStays(init: seq<Equivalence>, last: Equivalence, j: nat)
    requires Speaks(init, j)
    requires HasRecord(init[j]) || !HasRecord(last) || PairOf(last) != PairOf(init[j])
    ensures Speaks(init + [last], j)
  {
    var es := init + [last];
    assert forall h :: 0 <= h < |init| ==> es[h] == init[h];
    FirstStays(init, last, j);
  }

  /** A record replaces the first claim of its pair. */
  lemma {:induction false} RecordSpeaks(init: seq<Equivalence>, last: Equivalence, j: nat)
    requires Speaks(init, j) && !HasRecord(init[j]) && HasRecord(last) && PairOf(last) == PairOf(init[j])
    ensures Speaks(init + [last], |init|)
  {
    var es := init + [last];
    assert forall h :: 0 <= h < |init| ==> es[h] == init[h];
  }

  lemma {:induction false} NewPairSpeaks(init: seq<Equivalence>, last: Equivalence)
    requires IsClaim(last) && forall h :: 0 <= h < |init| && IsClaim(init[h]) ==> PairOf(init[h]) != PairOf(last)
    ensures IsFirst(init + [last], |init|) && Speaks(init + [last], |init|)
  {
    var es := init + [last];
    assert forall h :: 0 <= h < |init| ==> es[h] == init[h];
  }

  /** Each claim belongs to a pair of the list. */
  lemma {:induction false} ClaimHasPair(pairs: seq<Equivalence>, es: seq<Equivalence>, first: seq<nat>, chosen: seq<nat>, j: nat)
    requires ArePairs(pairs, es, first, chosen) && j < |es| && IsClaim(es[j])
    ensures exists i :: 0 <= i < |pairs| && PairOf(pairs[i]) == PairOf(es[j])
    decreases j
  {
    if IsFirst(es, j) {
      var i :| 0 <= i < |first| && first[i] == j;
      assert PairOf(pairs[i]) == PairOf(es[j]);
    } else {
      var h :| 0 <= h < j && IsClaim(es[h]) && PairOf(es[h]) == PairOf(es[j]);
      ClaimHasPair(pairs, es, first, chosen, h);
    }
  }

  lemma {:induction false} LastIsNotFirst(init: seq<Equivalence>, last: Equivalence, h: nat)
    requires h < |init| && IsClaim(init[h]) && PairOf(init[h]) == PairOf(last)
    ensures !IsFirst(init + [last], |init|)
  {
    assert (init + [last])[h] == init[h];
  }

  lemma {:induction false} PairsStay(pairs: seq<Equivalence>, init: seq<Equivalence>, last: Equivalence,
                                     first: seq<nat>, chosen: seq<nat>)
    requires ArePairs(pairs, init, first, chosen)
    requires IsClaim(last) ==> exists i :: 0 <= i < |pairs| && PairOf(pairs[i]) == PairOf(last)
    requires forall i :: 0 <= i < |pairs| ==> HasRecord(pairs[i]) || !HasRecord(last) || PairOf(last) != PairOf(pairs[i])
    ensures ArePairs(pairs, init + [last], first, chosen)
  {
    var es := init + [last];
    forall i | 0 <= i < |pairs|
      ensures IsFirst(es, first[i]) && PairOf(es[first[i]]) == PairOf(pairs[i]) && Speaks(es, chosen[i]) && pairs[i] == es[chosen[i]] {
      FirstStays(init, last, first[i]);
      SpeakerStays(init, last, chosen[i]);
    }
    if IsClaim(last) {
      var i :| 0 <= i < |pairs| && PairOf(pairs[i]) == PairOf(last);
      LastIsNotFirst(init, last, first[i]);
    }
    forall j | 0 <= j < |init| && IsFirst(es, j) ensures j in first {
      FirstStays(init, last, j);
    }
  }

  lemma {:induction false} PairIsReplaced(pairs: seq<Equivalence>, init: seq<Equivalence>, last: Equivalence,
                                          first: seq<nat>, chosen: seq<nat>, k: nat)
    requires ArePairs(pairs, init, first, chosen) && Distinct(pairs, 0, PairOf)
    requires k < |pairs| && HasRecord(last) && !HasRecord(pairs[k]) && PairOf(last) == PairOf(pairs[k])
    ensures ArePairs(pairs[k := last], init + [last], first, chosen[k := |init|])
  {
    var es, pairs', chosen' := init + [last], pairs[k := last], chosen[k := |init|];
    RecordSpeaks(init, last, chosen[k]);
    forall i | 0 <= i < |pairs|
      ensures IsFirst(es, first[i]) && PairOf(es[first[i]]) == PairOf(pairs'[i]) && Speaks(es, chosen'[i]) && pairs'[i] == es[chosen'[i]] {
      FirstStays(init, last, first[i]);
      if i != k {
        assert PairOf(pairs[i]) != PairOf(pairs[k]);
        SpeakerStays(init, last, chosen[i]);
      }
    }
    LastIsNotFirst(init, last, first[k]);
    forall j | 0 <= j < |init| && IsFirst(es, j) ensures j in first {
      FirstStays(init, last, j);
    }
  }

  lemma {:induction false} PairIsAdded(pairs: seq<Equivalence>, init: seq<Equivalence>, last: Equivalence,
                                       first: seq<nat>, chosen: seq<nat>)
    requires ArePairs(pairs, init, first, chosen) && IsClaim(last)
    requires forall i :: 0 <= i < |pairs| ==> PairOf(pairs[i]) != PairOf(last)
    ensures ArePairs(pairs + [last], init + [last], first + [|init|], chosen + [|init|])
  {
    var es, pairs', first', chosen' := init + [last], pairs + [last], first + [|init|], chosen + [|init|];
    forall h | 0 <= h < |init| && IsClaim(init[h]) ensures PairOf(init[h]) != PairOf(last) {
      ClaimHasPair(pairs, init, first, chosen, h);
    }
    NewPairSpeaks(init, last);
    forall i | 0 <= i < |pairs'|
      ensures IsFirst(es, first'[i]) && PairOf(es[first'[i]]) == PairOf(pairs'[i]) && Speaks(es, chosen'[i]) && pairs'[i] == es[chosen'[i]] {
      if i < |pairs| {
        FirstStays(init, last, first[i]);
        SpeakerStays(init, last, chosen[i]);
      }
    }
    forall j | 0 <= j < |es| && IsFirst(es, j) ensures j in first' {
      if j < |init| {
        FirstStays(init, last, j);
        var i :| 0 <= i < |first| && first[i] == j;
        assert first'[i] == j;
      } else {
        assert first'[|first|] == j;
      }
    }
  }

  lemma {:induction false} PairsAt(es: seq<Equivalence>) returns (first: seq<nat>, chosen: seq<nat>)
    ensures ArePairs(Pairs(es), es, first, chosen)
    decreases |es|
  {
    first, chosen := [], [];
    if es != [] {
      var init, last := es[..|es| - 1], es[|es| - 1];
      assert es == init + [last];
      first, chosen := PairsAt(init);
      LiftsAreClaims(last);
      PairsAre(init);
      var pairs := Pairs(init);
      var found := IndexOf(pairs, PairOf, PairOf(last));
      IndexFinds(pairs, PairOf, PairOf(last));
      if !IsLift(last) {
        PairsStay(pairs, init, last, first, chosen);
      } else if found.None? {
        PairIsAdded(pairs, init, last, first, chosen);
        first, chosen := first + [|init|], chosen + [|init|];
      } else if IsWitness(last) && !IsWitness(pairs[found.value]) {
        PairIsReplaced(pairs, init, last, first, chosen, found.value);
        chosen := chosen[found.value := |init|];
      } else {
        forall i | 0 <= i < |pairs| && i != found.value ensures PairOf(pairs[i]) != PairOf(last) {
          IndexIsUnique(pairs, PairOf, i);
        }
        PairsStay(pairs, init, last, first, chosen);
      }
    }
  }

  /** What becomes of the claim that speaks for its pair. */
  ghost predicate IsProof(ends: Endpoints, claim: Equivalence, proof: Equivalence) {
    if claim.a !in ends.cfns || claim.b !in ends.fns then proof == claim
    else
      var cfn, fn := ends.cfns[claim.a], ends.fns[claim.b];
      var hash := ends.artifactHash(cfn, fn);
      && AcceptsFn(cfn, fn, ends.constants)
      && if HasRecord(claim) && claim.justification.value.artifactHash == hash then proof == claim
         else proof == Equivalence(claim.a, claim.b, "witness", "trust",
                                   Some(LiftEquivalence(ends.prefix + "/" + fn.name + ".txt", hash, None)))
  }

  /** One proof for each pair that has a claim, in the order of the pairs' first claims. */
  ghost predicate AreProofs(ends: Endpoints, es: seq<Equivalence>, proofs: seq<Equivalence>, first: seq<nat>, chosen: seq<nat>) {
    && |first| == |chosen| == |proofs|
    && Increasing(first, |es|) && (forall j: nat :: j in first <==> IsFirst(es, j))
    && (forall i :: 0 <= i < |first| ==> Speaks(es, chosen[i]) && PairOf(es[chosen[i]]) == PairOf(es[first[i]]))
    && (forall i :: 0 <= i < |first| ==> IsProof(ends, es[chosen[i]], proofs[i]))
  }

  /**
   * The whole result: first every equivalence that is no claim, in order, then one proof for each
   * pair that has a claim, in the order of the pairs' first claims, made from the first claim with
   * a record if there is one and else from the first.
   */
  lemma {:induction false} ProvedExactly(ends: Endpoints, es: seq<Equivalence>)
    returns (others: seq<nat>, first: seq<nat>, chosen: seq<nat>)
    requires Proved(ends, es).Ok?
    ensures var r := Proved(ends, es).value;
            && |others| + |first| == |r|
            && AreOthers(r[..|others|], es, others)
            && AreProofs(ends, es, r[|others|..], first, chosen)
  {
    others := OthersAt(es);
    first, chosen := PairsAt(es);
    var r, pins := Proved(ends, es).value, PinnedAll(ends, Pairs(es)).value;
    assert r[..|others|] == Others(es) && r[|others|..] == pins;
    PinsAreProofs(ends, es, first, chosen);
  }

  lemma {:induction false} PinsAreProofs(ends: Endpoints, es: seq<Equivalence>, first: seq<nat>, chosen: seq<nat>)
    requires PinnedAll(ends, Pairs(es)).Ok? && ArePairs(Pairs(es), es, first, chosen)
    ensures AreProofs(ends, es, PinnedAll(ends, Pairs(es)).value, first, chosen)
  {
    var pins := PinnedAll(ends, Pairs(es)).value;
    forall i | 0 <= i < |first| ensures IsProof(ends, es[chosen[i]], pins[i]) {
      PinnedAt(ends, Pairs(es), i);
    }
    forall j: nat ensures j in first <==> IsFirst(es, j) {
    }
  }

  ghost predicate IsRejected(ends: Endpoints, e: Equivalence) {
    e.a in ends.cfns && e.b in ends.fns && !AcceptsFn(ends.cfns[e.a], ends.fns[e.b], ends.constants)
  }

  /** It fails exactly when a claim's pair has both ends and is rejected; the first claim of such a pair is named. */
  lemma {:induction false} FailsExactly(ends: Endpoints, es: seq<Equivalence>)
    ensures Proved(ends, es).Err? <==> exists j :: 0 <= j < |es| && IsClaim(es[j]) && IsRejected(ends, es[j])
    ensures forall j :: 0 <= j < |es| && IsClaim(es[j]) && IsRejected(ends, es[j])
                        && (forall h :: 0 <= h < j && IsClaim(es[h]) ==> !IsRejected(ends, es[h])) ==>
                        Proved(ends, es) == Err(Rejected(es[j].a, es[j].b))
  {
    var first, chosen := PairsAt(es);
    var pairs := Pairs(es);
    if Proved(ends, es).Err? {
      var i := FailureOf(ends, pairs);
      assert es[first[i]].a == pairs[i].a && es[first[i]].b == pairs[i].b;
      assert IsClaim(es[first[i]]) && IsRejected(ends, es[first[i]]);
    }
    forall j | 0 <= j < |es| && IsClaim(es[j]) && IsRejected(ends, es[j])
               && (forall h :: 0 <= h < j && IsClaim(es[h]) ==> !IsRejected(ends, es[h]))
      ensures Proved(ends, es) == Err(Rejected(es[j].a, es[j].b)) {
      FirstRejectedClaim(ends, es, first, chosen, j);
    }
    forall j | 0 <= j < |es| && IsClaim(es[j]) && IsRejected(ends, es[j]) ensures Proved(ends, es).Err? {
      var h := LeastRejected(ends, es, j);
      FirstRejectedClaim(ends, es, first, chosen, h);
    }
  }

  lemma {:induction false} LeastRejected(ends: Endpoints, es: seq<Equivalence>, j: nat) returns (k: nat)
    requires j < |es| && IsClaim(es[j]) && IsRejected(ends, es[j])
    ensures k <= j && IsClaim(es[k]) && IsRejected(ends, es[k])
    ensures forall h :: 0 <= h < k && IsClaim(es[h]) ==> !IsRejected(ends, es[h])
    decreases j
  {
    k := j;
    if h: nat :| h < j && IsClaim(es[h]) && IsRejected(ends, es[h]) {
      k := LeastRejected(ends, es, h);
    }
  }

  lemma {:induction false} FailureOf(ends: Endpoints, pairs: seq<Equivalence>) returns (i: nat)
    requires PinnedAll(ends, pairs).Err?
    ensures i < |pairs| && IsRejected(ends, pairs[i])
    decreases |pairs|
  {
    var init := pairs[..|pairs| - 1];
    if PinnedAll(ends, init).Err? {
      i := FailureOf(ends, init);
    } else {
      i := |init|;
    }
  }

  lemma {:induction false} FirstRejectedClaim(ends: Endpoints, es: seq<Equivalence>, first: seq<nat>, chosen: seq<nat>, j: nat)
    requires ArePairs(Pairs(es), es, first, chosen) && j < |es| && IsClaim(es[j]) && IsRejected(ends, es[j])
    requires forall h :: 0 <= h < j && IsClaim(es[h]) ==> !IsRejected(ends, es[h])
    ensures Proved(ends, es) == Err(Rejected(es[j].a, es[j].b))
  {
    var pairs := Pairs(es);
    forall h | 0 <= h < j && IsClaim(es[h]) ensures PairOf(es[h]) != PairOf(es[j]) {
      assert !IsRejected(ends, es[h]);
    }
    assert IsFirst(es, j);
    var i :| 0 <= i < |first| && first[i] == j;
    assert PairOf(pairs[i]) == PairOf(es[j]);
    forall k | 0 <= k < i ensures Pinned(ends, pairs[k]).Ok? {
      assert first[k] < j && IsClaim(es[first[k]]) && PairOf(es[first[k]]) == PairOf(pairs[k]);
      assert !IsRejected(ends, es[first[k]]);
    }
    PinnedUpTo(ends, pairs, i);
    FirstRejection(ends, pairs, i);
  }

  lemma {:induction false} PinnedUpTo(ends: Endpoints, pairs: seq<Equivalence>, n: nat)
    requires n <= |pairs| && forall k :: 0 <= k < n ==> Pinned(ends, pairs[k]).Ok?
    ensures PinnedAll(ends, pairs[..n]).Ok?
    decreases n
  {
    if n > 0 {
      PinnedUpTo(ends, pairs, n - 1);
      assert pairs[..n][..n - 1] == pairs[..n - 1];
    }
  }
}
