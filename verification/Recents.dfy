/** Recently opened anchors, newest first, without duplicates and at most `CAP` of them. */
module Recents {
  import opened Wrappers
  import opened Dictionary

  const CAP: nat := 20

  datatype AnchorKind = Project | Program

  datatype Anchor = Anchor(kind: AnchorKind, path: string, lastOpened: int, lastActive: Option<string>)

  type Key = (AnchorKind, string)

  /** One call of `note`, with the time at which it was made. */
  datatype Visit = Visit(kind: AnchorKind, path: string, active: Option<string>, time: int)

  function KeyOf(a: Anchor): Key {
    (a.kind, a.path)
  }

  function VisitKey(v: Visit): Key {
    (v.kind, v.path)
  }

  // ---------- The untruncated list ----------

  function Find(anchors: seq<Anchor>, k: Key): Option<Anchor> {
    if anchors == [] then None
    else if KeyOf(anchors[0]) == k then Some(anchors[0])
    else Find(anchors[1..], k)
  }

  function Without(anchors: seq<Anchor>, k: Key): seq<Anchor> {
    if anchors == [] then []
    else
      var last := anchors[|anchors| - 1];
      Without(anchors[..|anchors| - 1], k) + (if KeyOf(last) == k then [] else [last])
  }

  /** The anchor that a visit leaves: it keeps the program of the previous one if it names none. */
  function Opened(anchors: seq<Anchor>, v: Visit): Anchor {
    var prior := match Find(anchors, VisitKey(v)) { case None => None case Some(a) => a.lastActive };
    Anchor(v.kind, v.path, v.time, if v.active.Some? then v.active else prior)
  }

  function Bumped(anchors: seq<Anchor>, v: Visit): seq<Anchor> {
    [Opened(anchors, v)] + Without(anchors, VisitKey(v))
  }

  /** Every anchor ever visited, newest first, if nothing were ever cut off. */
  function Full(visits: seq<Visit>): seq<Anchor> {
    if visits == [] then [] else Bumped(Full(visits[..|visits| - 1]), visits[|visits| - 1])
  }

  function Cut<T>(s: seq<T>, n: nat): seq<T> {
    if |s| <= n then s else s[..n]
  }

  // ---------- The store ----------

  class Recents {
    var anchors: seq<Anchor>

    constructor ()
      ensures anchors == []
    {
      anchors := [];
    }

    /** Moves an anchor to the front, or inserts it there, and cuts the list off. */
    method Note(v: Visit)
      modifies this
      ensures anchors == Cut(Bumped(old(anchors), v), CAP)
    {
      var prior: Option<string> := None;
      var found := false;
      for i := 0 to |anchors|
        invariant anchors == old(anchors)
        invariant !found ==> Find(anchors, VisitKey(v)) == Find(anchors[i..], VisitKey(v)) && prior == None
        invariant found ==> Find(anchors, VisitKey(v)).Some? && prior == Find(anchors, VisitKey(v)).value.lastActive
      {
        assert anchors[i..][1..] == anchors[i + 1..];
        if !found && KeyOf(anchors[i]) == VisitKey(v) {
          found := true;
          prior := anchors[i].lastActive;
        }
      }
      var kept: seq<Anchor> := [];
      for i := 0 to |anchors|
        invariant anchors == old(anchors) && kept == Without(anchors[..i], VisitKey(v))
      {
        assert anchors[..i + 1][..i] == anchors[..i];
        if KeyOf(anchors[i]) != VisitKey(v) {
          kept := kept + [anchors[i]];
        }
      }
      assert anchors[..|anchors|] == anchors;
      anchors := [Anchor(v.kind, v.path, v.time, if v.active.Some? then v.active else prior)] + kept;
      if |anchors| > CAP {
        anchors := anchors[..CAP];
      }
    }
  }

  /** What the store holds after a history of notes from an empty store. */
  function Stored(visits: seq<Visit>): seq<Anchor> {
    if visits == [] then [] else Cut(Bumped(Stored(visits[..|visits| - 1]), visits[|visits| - 1]), CAP)
  }

  method Replay(visits: seq<Visit>) returns (store: Recents)
    ensures fresh(store) && store.anchors == Stored(visits)
  {
    store := new Recents();
    for i := 0 to |visits|
      invariant fresh(store) && store.anchors == Stored(visits[..i])
    {
      assert visits[..i + 1][..i] == visits[..i];
      store.Note(visits[i]);
    }
    assert visits[..|visits|] == visits;
  }

  // ---------- The truncated store refines the full list ----------

  /** All of an anchor but the carried program, which is lost when an anchor is cut off. */
  function Stamps(anchors: seq<Anchor>): (r: seq<(Key, int)>)
    ensures |r| == |anchors|
  {
    if anchors == [] then []
    else Stamps(anchors[..|anchors| - 1]) + [(KeyOf(anchors[|anchors| - 1]), anchors[|anchors| - 1].lastOpened)]
  }

  predicate NoRepeats(anchors: seq<Anchor>) {
    forall i, j :: 0 <= i < j < |anchors| ==> KeyOf(anchors[i]) != KeyOf(anchors[j])
  }

  lemma {:induction false} StampsConcat(a: seq<Anchor>, b: seq<Anchor>)
    ensures Stamps(a + b) == Stamps(a) + Stamps(b)
    decreases |b|
  {
    if b == [] {
      assert a + b == a;
    } else {
      assert (a + b)[..|a + b| - 1] == a + b[..|b| - 1];
      StampsConcat(a, b[..|b| - 1]);
    }
  }

  lemma {:induction false} StampsCut(anchors: seq<Anchor>, n: nat)
    ensures Stamps(Cut(anchors, n)) == Cut(Stamps(anchors), n)
  {
    if n < |anchors| {
      assert anchors == anchors[..n] + anchors[n..];
      StampsConcat(anchors[..n], anchors[n..]);
    }
  }

  lemma {:induction false} WithoutConcat(a: seq<Anchor>, b: seq<Anchor>, k: Key)
    ensures Without(a + b, k) == Without(a, k) + Without(b, k)
    decreases |b|
  {
    if b == [] {
      assert a + b == a;
      assert Without(a, k) + [] == Without(a, k);
    } else {
      assert (a + b)[..|a + b| - 1] == a + b[..|b| - 1];
      WithoutConcat(a, b[..|b| - 1], k);
    }
  }

  lemma {:induction false} WithoutHas(anchors: seq<Anchor>, k: Key, a: Anchor)
    ensures a in Without(anchors, k) <==> a in anchors && KeyOf(a) != k
    decreases |anchors|
  {
    if anchors != [] {
      WithoutHas(anchors[..|anchors| - 1], k, a);
      assert anchors == anchors[..|anchors| - 1] + [anchors[|anchors| - 1]];
    }
  }

  lemma {:induction false} WithoutAbsent(anchors: seq<Anchor>, k: Key)
    requires forall i :: 0 <= i < |anchors| ==> KeyOf(anchors[i]) != k
    ensures Without(anchors, k) == anchors
    decreases |anchors|
  {
    if anchors != [] {
      WithoutAbsent(anchors[..|anchors| - 1], k);
    }
  }

  lemma {:induction false} WithoutDropsOne(anchors: seq<Anchor>, k: Key)
    requires NoRepeats(anchors)
    ensures |anchors| - 1 <= |Without(anchors, k)| <= |anchors|
    decreases |anchors|
  {
    if anchors != [] {
      var init, last := anchors[..|anchors| - 1], anchors[|anchors| - 1];
      if KeyOf(last) == k {
        WithoutAbsent(init, k);
      } else {
        WithoutDropsOne(init, k);
      }
    }
  }

  lemma {:induction false} WithoutHasNoRepeats(anchors: seq<Anchor>, k: Key)
    requires NoRepeats(anchors)
    ensures NoRepeats(Without(anchors, k))
    decreases |anchors|
  {
    if anchors != [] {
      var init, last := anchors[..|anchors| - 1], anchors[|anchors| - 1];
      WithoutHasNoRepeats(init, k);
      var kept := Without(init, k);
      forall i | 0 <= i < |kept| ensures KeyOf(kept[i]) != KeyOf(last) {
        WithoutHas(init, k, kept[i]);
      }
    }
  }

  lemma {:induction false} BumpedHasNoRepeats(anchors: seq<Anchor>, v: Visit)
    requires NoRepeats(anchors)
    ensures NoRepeats(Bumped(anchors, v))
  {
    var kept := Without(anchors, VisitKey(v));
    WithoutHasNoRepeats(anchors, VisitKey(v));
    forall i | 0 <= i < |kept| ensures KeyOf(kept[i]) != VisitKey(v) {
      WithoutHas(anchors, VisitKey(v), kept[i]);
    }
  }

  lemma {:induction false} BumpedStamps(anchors: seq<Anchor>, v: Visit)
    ensures Stamps(Bumped(anchors, v)) == [(VisitKey(v), v.time)] + Stamps(Without(anchors, VisitKey(v)))
  {
    StampsConcat([Opened(anchors, v)], Without(anchors, VisitKey(v)));
    StampOfOne(Opened(anchors, v));
  }

  /** Bumping in the cut list and cutting again is bumping in the whole list and cutting. */
  lemma {:induction false} CutBumps(cut: seq<Anchor>, full: seq<Anchor>, v: Visit, n: nat)
    requires NoRepeats(full) && Stamps(cut) == Cut(Stamps(full), n)
    ensures Stamps(Cut(Bumped(cut, v), n)) == Cut(Stamps(Bumped(full, v)), n)
  {
    var head, tail := full[..|cut|], full[|cut|..];
    assert full == head + tail;
    HeadStamps(cut, head, tail);
    var front := BumpedStamp(cut, head, v);
    var rest := BumpedSplit(head, tail, v);
    StampsCut(Bumped(cut, v), n);
    CutsAgree(front, rest, n);
  }

  lemma {:induction false} BumpedStamp(cut: seq<Anchor>, head: seq<Anchor>, v: Visit) returns (front: seq<(Key, int)>)
    requires Stamps(cut) == Stamps(head) && NoRepeats(head)
    ensures front == Stamps(Bumped(cut, v)) == [(VisitKey(v), v.time)] + Stamps(Without(head, VisitKey(v)))
    ensures |front| >= |cut|
  {
    SameStampsWithout(cut, head, VisitKey(v));
    BumpedStamps(cut, v);
    WithoutDropsOne(head, VisitKey(v));
    front := Stamps(Bumped(cut, v));
  }

  lemma {:induction false} BumpedSplit(head: seq<Anchor>, tail: seq<Anchor>, v: Visit) returns (rest: seq<(Key, int)>)
    ensures Stamps(Bumped(head + tail, v)) == [(VisitKey(v), v.time)] + Stamps(Without(head, VisitKey(v))) + rest
    ensures tail == [] ==> rest == []
  {
    var k := VisitKey(v);
    WithoutConcat(head, tail, k);
    StampsConcat(Without(head, k), Without(tail, k));
    BumpedStamps(head + tail, v);
    rest := Stamps(Without(tail, k));
  }

  lemma {:induction false} HeadStamps(cut: seq<Anchor>, head: seq<Anchor>, tail: seq<Anchor>)
    requires |head| == |cut| && Stamps(cut) == Stamps(head + tail)[..|cut|]
    ensures Stamps(cut) == Stamps(head)
  {
    StampsConcat(head, tail);
  }

  /** A part that is long enough, or the whole, decides the first `n`. */
  lemma {:induction false} CutsAgree<T>(front: seq<T>, rest: seq<T>, n: nat)
    requires |front| >= n || rest == []
    ensures Cut(front, n) == Cut(front + rest, n)
  {
    if rest == [] {
      assert front + rest == front;
    }
  }

  lemma {:induction false} StampOfOne(a: Anchor)
    ensures Stamps([a]) == [(KeyOf(a), a.lastOpened)]
  {
    assert [a][..0] == [];
  }

  lemma {:induction false} SameStampsWithout(a: seq<Anchor>, b: seq<Anchor>, k: Key)
    requires Stamps(a) == Stamps(b)
    ensures Stamps(Without(a, k)) == Stamps(Without(b, k))
    decreases |a|
  {
    if a != [] {
      assert Stamps(a)[..|a| - 1] == Stamps(a[..|a| - 1]);
      assert Stamps(b)[..|b| - 1] == Stamps(b[..|b| - 1]);
      assert Stamps(a)[|a| - 1] == Stamps(b)[|b| - 1];
      SameStampsWithout(a[..|a| - 1], b[..|b| - 1], k);
      var x, y := a[|a| - 1], b[|b| - 1];
      StampsConcat(Without(a[..|a| - 1], k), if KeyOf(x) == k then [] else [x]);
      StampsConcat(Without(b[..|b| - 1], k), if KeyOf(y) == k then [] else [y]);
      StampOfOne(x);
      StampOfOne(y);
    }
  }

  /** After any history the store shows the first `CAP` of all anchors ever visited, with their times. */
  lemma {:induction false} StoredIsCutOfFull(visits: seq<Visit>)
    ensures NoRepeats(Full(visits)) && Stamps(Stored(visits)) == Cut(Stamps(Full(visits)), CAP)
    decreases |visits|
  {
    if visits != [] {
      var init, last := visits[..|visits| - 1], visits[|visits| - 1];
      StoredIsCutOfFull(init);
      BumpedHasNoRepeats(Full(init), last);
      CutBumps(Stored(init), Full(init), last, CAP);
    }
  }

  /** While no anchor has been cut off, the carried programs agree too. */
  lemma {:induction false} StoredIsFull(visits: seq<Visit>)
    requires |Full(visits)| <= CAP
    ensures Stored(visits) == Full(visits)
    decreases |visits|
  {
    if visits != [] {
      var init, last := visits[..|visits| - 1], visits[|visits| - 1];
      StoredIsCutOfFull(init);
      WithoutDropsOne(Full(init), VisitKey(last));
      StoredIsFull(init);
    }
  }

  // ---------- Newest first, each once ----------

  function Keys(anchors: seq<Anchor>): (r: seq<Key>)
    ensures |r| == |anchors| && forall i :: 0 <= i < |anchors| ==> r[i] == KeyOf(anchors[i])
  {
    if anchors == [] then [] else [KeyOf(anchors[0])] + Keys(anchors[1..])
  }

  /** The keys of a history, newest first. */
  function Reversed(visits: seq<Visit>): seq<Key> {
    if visits == [] then [] else [VisitKey(visits[|visits| - 1])] + Reversed(visits[..|visits| - 1])
  }

  function WithoutKey(keys: seq<Key>, k: Key): seq<Key> {
    if keys == [] then []
    else
      var last := keys[|keys| - 1];
      WithoutKey(keys[..|keys| - 1], k) + (if last == k then [] else [last])
  }

  lemma {:induction false} KeysConcat(a: seq<Anchor>, b: seq<Anchor>)
    ensures Keys(a + b) == Keys(a) + Keys(b)
  {}

  lemma {:induction false} KeysWithout(anchors: seq<Anchor>, k: Key)
    ensures Keys(Without(anchors, k)) == WithoutKey(Keys(anchors), k)
    decreases |anchors|
  {
    if anchors != [] {
      var init, last := anchors[..|anchors| - 1], anchors[|anchors| - 1];
      KeysWithout(init, k);
      assert anchors == init + [last];
      KeysConcat(init, [last]);
      KeysConcat(Without(init, k), if KeyOf(last) == k then [] else [last]);
      WithoutKeyLast(Keys(init), KeyOf(last), k);
    }
  }

  lemma {:induction false} WithoutKeyLast(keys: seq<Key>, last: Key, k: Key)
    ensures WithoutKey(keys + [last], k) == WithoutKey(keys, k) + (if last == k then [] else [last])
  {
    assert (keys + [last])[..|keys|] == keys;
  }

  /** Putting a key in front of unique keys and removing it behind is adjoining from it. */
  lemma {:induction false} FrontAdjoins(k: Key, keys: seq<Key>)
    ensures [k] + WithoutKey(Adjoin([], keys), k) == Adjoin([], [k] + keys)
    decreases |keys|
  {
    if keys == [] {
      assert [k] + keys == [] + [k];
      AdjoinLast<Key>([], [], k);
    } else {
      var init, last := keys[..|keys| - 1], keys[|keys| - 1];
      assert keys == init + [last];
      FrontAdjoins(k, init);
      FrontAdjoinsLast(k, init, last);
    }
  }

  lemma {:induction false} FrontAdjoinsLast(k: Key, init: seq<Key>, last: Key)
    requires [k] + WithoutKey(Adjoin([], init), k) == Adjoin([], [k] + init)
    ensures [k] + WithoutKey(Adjoin([], init + [last]), k) == Adjoin([], [k] + (init + [last]))
  {
    var rest := WithoutKey(Adjoin([], init), k);
    FrontAdjoin(k, init, last);
    BackWithout(k, init, last);
    Reassociate(k, rest, last);
  }

  lemma {:induction false} Reassociate(k: Key, rest: seq<Key>, last: Key)
    ensures [k] + (rest + [last]) == ([k] + rest) + [last]
  {}

  lemma {:induction false} FrontAdjoin(k: Key, init: seq<Key>, last: Key)
    ensures Adjoin([], [k] + (init + [last])) ==
            if last == k || last in init then Adjoin([], [k] + init) else Adjoin([], [k] + init) + [last]
  {
    Reassociate(k, init, last);
    AdjoinLast([], [k] + init, last);
  }

  lemma {:induction false} BackWithout(k: Key, init: seq<Key>, last: Key)
    ensures WithoutKey(Adjoin([], init + [last]), k) ==
            if last == k || last in init then WithoutKey(Adjoin([], init), k) else WithoutKey(Adjoin([], init), k) + [last]
  {
    AdjoinLast([], init, last);
    WithoutKeyLast(Adjoin([], init), last, k);
    var rest := WithoutKey(Adjoin([], init), k);
    assert rest + [] == rest;
  }

  lemma {:induction false} FullKeys(visits: seq<Visit>)
    ensures Keys(Full(visits)) == Adjoin([], Reversed(visits))
    decreases |visits|
  {
    if visits != [] {
      var init, last := visits[..|visits| - 1], visits[|visits| - 1];
      FullKeys(init);
      KeysWithout(Full(init), VisitKey(last));
      FrontAdjoins(VisitKey(last), Reversed(init));
      assert Full(visits)[1..] == Without(Full(init), VisitKey(last));
    }
  }

  lemma {:induction false} StampsHaveKeys(anchors: seq<Anchor>, i: nat)
    requires i < |anchors|
    ensures Stamps(anchors)[i] == (KeyOf(anchors[i]), anchors[i].lastOpened)
    decreases |anchors|
  {
    if i < |anchors| - 1 {
      StampsHaveKeys(anchors[..|anchors| - 1], i);
    }
  }

  /** The stored keys are exactly the first `CAP` distinct keys of the history read newest first. */
  lemma {:induction false} StoredKeys(visits: seq<Visit>)
    ensures Keys(Stored(visits)) == Cut(Adjoin([], Reversed(visits)), CAP)
  {
    StoredIsCutOfFull(visits);
    FullKeys(visits);
    var stored, full := Stored(visits), Full(visits);
    forall i | 0 <= i < |stored| ensures KeyOf(stored[i]) == KeyOf(full[i]) {
      StampsHaveKeys(stored, i);
      StampsHaveKeys(full, i);
    }
  }

  /** The store holds at most 20 anchors, and all of them while there are no more. */
  lemma {:induction false} StoredLength(visits: seq<Visit>)
    ensures |Stored(visits)| == if |Full(visits)| < 20 then |Full(visits)| else 20
  {
    StoredIsCutOfFull(visits);
    assert |Stamps(Stored(visits))| == |Stored(visits)| && |Stamps(Full(visits))| == |Full(visits)|;
  }

  // ---------- What an entry carries ----------

  /** No later visit is of this anchor. */
  predicate IsLastVisit(visits: seq<Visit>, k: Key, i: nat) {
    i < |visits| && VisitKey(visits[i]) == k && forall j :: i < j < |visits| ==> VisitKey(visits[j]) != k
  }

  /** The visit names a program, and no later visit of this anchor does. */
  predicate IsLastNaming(visits: seq<Visit>, k: Key, i: nat) {
    && i < |visits| && VisitKey(visits[i]) == k && visits[i].active.Some?
    && forall j :: i < j < |visits| && VisitKey(visits[j]) == k ==> visits[j].active.None?
  }

  /** The time is that of the anchor's last visit, the program the one that was named last. */
  ghost predicate Remembers(a: Anchor, visits: seq<Visit>) {
    && (exists i :: 0 <= i < |visits| && IsLastVisit(visits, KeyOf(a), i) && a.lastOpened == visits[i].time)
    && (a.lastActive.Some? ==> exists i :: 0 <= i < |visits| && IsLastNaming(visits, KeyOf(a), i) && visits[i].active == a.lastActive)
    && (a.lastActive.None? ==> forall i :: 0 <= i < |visits| && VisitKey(visits[i]) == KeyOf(a) ==> visits[i].active.None?)
  }

  lemma {:induction false} FindFinds(anchors: seq<Anchor>, k: Key)
    ensures Find(anchors, k).Some? ==> Find(anchors, k).value in anchors && KeyOf(Find(anchors, k).value) == k
    ensures Find(anchors, k).None? ==> forall a :: a in anchors ==> KeyOf(a) != k
  {
    if anchors != [] {
      FindFinds(anchors[1..], k);
    }
  }

  lemma {:induction false} WithoutKeepsOthers(anchors: seq<Anchor>, k: Key)
    ensures forall a :: a in Without(anchors, k) <==> a in anchors && KeyOf(a) != k
    decreases |anchors|
  {
    if anchors != [] {
      var init := anchors[..|anchors| - 1];
      WithoutKeepsOthers(init, k);
      assert anchors == init + [anchors[|anchors| - 1]];
    }
  }

  lemma {:induction false} VisitedIsListed(visits: seq<Visit>, i: nat)
    requires i < |visits|
    ensures exists a :: a in Full(visits) && KeyOf(a) == VisitKey(visits[i])
    decreases |visits|
  {
    var init, last := visits[..|visits| - 1], visits[|visits| - 1];
    WithoutKeepsOthers(Full(init), VisitKey(last));
    assert Opened(Full(init), last) in Full(visits);
    if VisitKey(visits[i]) != VisitKey(last) {
      VisitedIsListed(init, i);
    }
  }

  lemma {:induction false} OthersRemember(init: seq<Visit>, last: Visit, a: Anchor)
    requires Remembers(a, init) && KeyOf(a) != VisitKey(last)
    ensures Remembers(a, init + [last])
  {
    var visits := init + [last];
    assert forall j :: 0 <= j < |init| ==> visits[j] == init[j];
    var i :| 0 <= i < |init| && IsLastVisit(init, KeyOf(a), i) && a.lastOpened == init[i].time;
    assert IsLastVisit(visits, KeyOf(a), i);
    if a.lastActive.Some? {
      var n :| 0 <= n < |init| && IsLastNaming(init, KeyOf(a), n) && init[n].active == a.lastActive;
      assert IsLastNaming(visits, KeyOf(a), n);
    }
  }

  /** The anchor just visited carries the program named now, or else the one that it carried before. */
  lemma {:induction false} OpenedRemembers(init: seq<Visit>, last: Visit)
    requires forall b :: b in Full(init) ==> Remembers(b, init)
    ensures Remembers(Opened(Full(init), last), init + [last])
  {
    var visits, a, k := init + [last], Opened(Full(init), last), VisitKey(last);
    assert forall j :: 0 <= j < |init| ==> visits[j] == init[j];
    assert IsLastVisit(visits, k, |init|) && a.lastOpened == visits[|init|].time;
    FindFinds(Full(init), k);
    if last.active.Some? {
      assert IsLastNaming(visits, k, |init|);
    } else if Find(Full(init), k).Some? {
      var b := Find(Full(init), k).value;
      assert Remembers(b, init);
      if b.lastActive.Some? {
        var n :| 0 <= n < |init| && IsLastNaming(init, k, n) && init[n].active == b.lastActive;
        assert IsLastNaming(visits, k, n);
      }
    } else {
      forall i | 0 <= i < |init| ensures VisitKey(init[i]) != k {
        VisitedIsListed(init, i);
      }
    }
  }

  /** Every entry of the uncut list has the time of its last visit and the program that was named last, if any was. */
  lemma {:induction false} FullRemembers(visits: seq<Visit>, a: Anchor)
    requires a in Full(visits)
    ensures Remembers(a, visits)
    decreases |visits|
  {
    var init, last := visits[..|visits| - 1], visits[|visits| - 1];
    forall b | b in Full(init) ensures Remembers(b, init) {
      FullRemembers(init, b);
    }
    assert visits == init + [last];
    WithoutKeepsOthers(Full(init), VisitKey(last));
    if a == Opened(Full(init), last) {
      OpenedRemembers(init, last);
    } else {
      OthersRemember(init, last, a);
    }
  }
}
