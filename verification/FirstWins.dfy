/** Merging lists by a key, where the item that comes first wins. */
module FirstWins {

  function Keys<T(==), K(==)>(items: seq<T>, key: T -> K): set<K> {
    set x | x in items :: key(x)
  }

  /** Appends the items whose key is new. */
  function AddNew<T(==), K(==)>(items: seq<T>, more: seq<T>, key: T -> K): seq<T>
    decreases |more|
  {
    if more == [] then items
    else AddNew(if key(more[0]) in Keys(items, key) then items else items + [more[0]], more[1..], key)
  }

  method AddAll<T(==), K(==)>(items: seq<T>, seen: set<K>, more: seq<T>, key: T -> K)
    returns (merged: seq<T>, mergedSeen: set<K>)
    requires seen == Keys(items, key)
    ensures merged == AddNew(items, more, key) && mergedSeen == Keys(merged, key)
  {
    merged, mergedSeen := items, seen;
    for i := 0 to |more|
      invariant mergedSeen == Keys(merged, key)
      invariant AddNew(merged, more[i..], key) == AddNew(items, more, key)
    {
      assert more[i..][0] == more[i] && more[i..][1..] == more[i + 1..];
      if key(more[i]) !in mergedSeen {
        merged := merged + [more[i]];
        mergedSeen := mergedSeen + {key(more[i])};
      }
    }
  }

  lemma {:induction false} AddNewTwice<T, K>(items: seq<T>, a: seq<T>, b: seq<T>, key: T -> K)
    ensures AddNew(AddNew(items, a, key), b, key) == AddNew(items, a + b, key)
    decreases |a|
  {
    if a == [] {
      assert a + b == b;
    } else {
      assert (a + b)[1..] == a[1..] + b;
      AddNewTwice(if key(a[0]) in Keys(items, key) then items else items + [a[0]], a[1..], b, key);
    }
  }

  predicate Distinct<T, K(==)>(items: seq<T>, from: nat, key: T -> K) {
    forall i, j :: from <= i < j < |items| ==> key(items[i]) != key(items[j])
  }

  /** The old list stays as a prefix; every key is there, and an added one is new. */
  lemma {:induction false} AddNewKeys<T, K>(items: seq<T>, more: seq<T>, key: T -> K)
    ensures var r := AddNew(items, more, key);
            && items <= r
            && Keys(r, key) == Keys(items, key) + Keys(more, key)
            && forall i :: |items| <= i < |r| ==> r[i] in more && key(r[i]) !in Keys(items, key)
    decreases |more|
  {
    if more != [] {
      var next := if key(more[0]) in Keys(items, key) then items else items + [more[0]];
      assert Keys(items + [more[0]], key) == Keys(items, key) + {key(more[0])};
      AddNewKeys(next, more[1..], key);
      assert Keys(more, key) == {key(more[0])} + Keys(more[1..], key);
    }
  }

  /** The keys from a position on stay distinct. */
  lemma {:induction false} AddNewDistinct<T, K>(items: seq<T>, more: seq<T>, key: T -> K, from: nat)
    requires from <= |items| && Distinct(items, from, key)
    ensures Distinct(AddNew(items, more, key), from, key)
    decreases |more|
  {
    if more != [] {
      assert forall i :: 0 <= i < |items| ==> items[i] in items && key(items[i]) in Keys(items, key);
      AddNewDistinct(if key(more[0]) in Keys(items, key) then items else items + [more[0]], more[1..], key, from);
    }
  }

  lemma {:induction false} AddNothing<T, K>(items: seq<T>, more: seq<T>, key: T -> K)
    requires Keys(more, key) <= Keys(items, key)
    ensures AddNew(items, more, key) == items
    decreases |more|
  {
    if more != [] {
      assert key(more[0]) in Keys(more, key);
      assert Keys(more[1..], key) <= Keys(more, key);
      AddNothing(items, more[1..], key);
    }
  }

  lemma {:induction false} AddDistinct<T, K>(items: seq<T>, more: seq<T>, key: T -> K)
    requires Distinct(more, 0, key) && Keys(items, key) !! Keys(more, key)
    ensures AddNew(items, more, key) == items + more
    decreases |more|
  {
    if more != [] {
      assert key(more[0]) in Keys(more, key);
      forall x | x in more[1..] ensures key(x) != key(more[0]) && x in more {
        var i :| 0 <= i < |more[1..]| && more[1..][i] == x;
        assert more[i + 1] == x;
      }
      assert Keys(items + [more[0]], key) == Keys(items, key) + {key(more[0])};
      assert Keys(more[1..], key) <= Keys(more, key);
      AddDistinct(items + [more[0]], more[1..], key);
      assert items + [more[0]] + more[1..] == items + more;
    }
  }
}
