/** Dictionaries that remember insertion order, as lists of entries with distinct keys. */
module Dictionary {
  import opened Wrappers
  import opened FirstWins

  function IndexOf<T, K(==)>(items: seq<T>, key: T -> K, k: K): (i: Option<nat>)
    ensures i.Some? ==> i.value < |items| && key(items[i.value]) == k
    ensures i.None? ==> forall j :: 0 <= j < |items| ==> key(items[j]) != k
  {
    if items == [] then None
    else if key(items[0]) == k then Some(0)
    else match IndexOf(items[1..], key, k) {
      case None => None
      case Some(i) => Some(i + 1)
    }
  }

  /** A known key keeps its place and gets the new item. */
  function Put<T, K(==)>(items: seq<T>, x: T, key: T -> K): seq<T> {
    match IndexOf(items, key, key(x))
    case None => items + [x]
    case Some(i) => items[i := x]
  }

  function ByName<T, K(==)>(items: seq<T>, key: T -> K): seq<T> {
    if items == [] then [] else Put(ByName(items[..|items| - 1], key), items[|items| - 1], key)
  }

  method CollectByName<T, K(==)>(items: seq<T>, key: T -> K) returns (entries: seq<T>)
    ensures entries == ByName(items, key)
  {
    entries := [];
    for i := 0 to |items|
      invariant entries == ByName(items[..i], key)
    {
      assert items[..i + 1][..i] == items[..i];
      entries := Put(entries, items[i], key);
    }
    assert items[..|items|] == items;
  }

  // ---------- Laws ----------

  /** The keys of `xs`, then those of `ys` that are new, in the order they come. */
  function Adjoin<K(==)>(xs: seq<K>, ys: seq<K>): seq<K> {
    if ys == [] then xs
    else
      var before, last := Adjoin(xs, ys[..|ys| - 1]), ys[|ys| - 1];
      if last in before then before else before + [last]
  }

  lemma {:induction false} AdjoinHas<K>(xs: seq<K>, ys: seq<K>, k: K)
    ensures k in Adjoin(xs, ys) <==> k in xs || k in ys
    decreases |ys|
  {
    if ys != [] {
      AdjoinHas(xs, ys[..|ys| - 1], k);
      assert ys == ys[..|ys| - 1] + [ys[|ys| - 1]];
    }
  }

  lemma {:induction false} AdjoinLast<K>(xs: seq<K>, ys: seq<K>, k: K)
    ensures Adjoin(xs, ys + [k]) == if k in xs || k in ys then Adjoin(xs, ys) else Adjoin(xs, ys) + [k]
  {
    assert (ys + [k])[..|ys|] == ys;
    AdjoinHas(xs, ys, k);
  }

  lemma {:induction false} AdjoinTwice<K>(xs: seq<K>, ys: seq<K>, zs: seq<K>)
    ensures Adjoin(Adjoin(xs, ys), zs) == Adjoin(xs, ys + zs)
    decreases |zs|
  {
    if zs == [] {
      assert ys + zs == ys;
    } else {
      AdjoinTwice(xs, ys, zs[..|zs| - 1]);
      assert (ys + zs)[..|ys + zs| - 1] == ys + zs[..|zs| - 1];
    }
  }

  /** Adjoining keys that were already made unique is adjoining them. */
  lemma {:induction false} AdjoinOnce<K>(xs: seq<K>, ys: seq<K>)
    ensures Adjoin(xs, Adjoin([], ys)) == Adjoin(xs, ys)
    decreases |ys|
  {
    if ys != [] {
      var init, last := ys[..|ys| - 1], ys[|ys| - 1];
      AdjoinOnce(xs, init);
      assert ys == init + [last];
      AdjoinLast([], init, last);
      AdjoinLast(xs, init, last);
      AdjoinLast(xs, Adjoin([], init), last);
      AdjoinHas([], init, last);
    }
  }

  lemma {:induction false} IndexFinds<T, K>(items: seq<T>, key: T -> K, k: K)
    ensures IndexOf(items, key, k).Some? <==> k in Keys(items, key)
  {
    if i :| 0 <= i < |items| && key(items[i]) == k {
      assert items[i] in items;
    }
  }

  /** In a list with distinct keys an entry is found where it stands. */
  lemma {:induction false} IndexIsUnique<T, K>(items: seq<T>, key: T -> K, i: nat)
    requires Distinct(items, 0, key) && i < |items|
    ensures IndexOf(items, key, key(items[i])) == Some(i)
  {
    assert items[i] in items;
    IndexFinds(items, key, key(items[i]));
    var j := IndexOf(items, key, key(items[i])).value;
    assert j == i;
  }

  function KeySeq<T, K>(items: seq<T>, key: T -> K): (keys: seq<K>)
    ensures |keys| == |items|
  {
    if items == [] then [] else KeySeq(items[..|items| - 1], key) + [key(items[|items| - 1])]
  }

  lemma {:induction false} KeySeqAt<T, K>(items: seq<T>, key: T -> K, i: nat)
    requires i < |items|
    ensures KeySeq(items, key)[i] == key(items[i])
    decreases |items|
  {
    if i < |items| - 1 {
      KeySeqAt(items[..|items| - 1], key, i);
    }
  }

  lemma {:induction false} KeySeqPrepend<T, K>(a: seq<T>, b: seq<T>, key: T -> K)
    ensures KeySeq(a + b, key) == KeySeq(a, key) + KeySeq(b, key)
    decreases |b|
  {
    if b == [] {
      assert a + b == a;
    } else {
      assert (a + b)[..|a + b| - 1] == a + b[..|b| - 1];
      KeySeqPrepend(a, b[..|b| - 1], key);
    }
  }

  lemma {:induction false} KeysAreKeySeq<T, K>(items: seq<T>, key: T -> K, k: K)
    ensures k in Keys(items, key) <==> k in KeySeq(items, key)
    decreases |items|
  {
    if items != [] {
      var init := items[..|items| - 1];
      KeysAreKeySeq(init, key, k);
      assert items == init + [items[|items| - 1]];
    }
  }

  /** Keys stay distinct, and a new key goes to the end. */
  lemma {:induction false} PutIs<T, K>(items: seq<T>, x: T, key: T -> K)
    requires Distinct(items, 0, key)
    ensures var r := Put(items, x, key);
            && Distinct(r, 0, key)
            && Keys(r, key) == Keys(items, key) + {key(x)}
            && KeySeq(r, key) == if key(x) in KeySeq(items, key) then KeySeq(items, key) else KeySeq(items, key) + [key(x)]
  {
    IndexFinds(items, key, key(x));
    KeysAreKeySeq(items, key, key(x));
    var i := IndexOf(items, key, key(x));
    if i.Some? {
      SameKeySeq(items, Put(items, x, key), key);
    } else {
      assert (items + [x])[..|items|] == items;
    }
  }

  lemma {:induction false} SameKeySeq<T, K>(xs: seq<T>, ys: seq<T>, key: T -> K)
    requires |xs| == |ys| && forall i :: 0 <= i < |xs| ==> key(xs[i]) == key(ys[i])
    ensures KeySeq(xs, key) == KeySeq(ys, key)
    decreases |xs|
  {
    if xs != [] {
      SameKeySeq(xs[..|xs| - 1], ys[..|ys| - 1], key);
    }
  }

  lemma {:induction false} ByNameKeys<T, K>(items: seq<T>, key: T -> K)
    ensures Distinct(ByName(items, key), 0, key) && Keys(ByName(items, key), key) == Keys(items, key)
    decreases |items|
  {
    if items != [] {
      ByNameKeys(items[..|items| - 1], key);
      PutIs(ByName(items[..|items| - 1], key), items[|items| - 1], key);
      KeysLast(items, key);
    }
  }

  lemma {:induction false} ByNameKeySeq<T, K>(items: seq<T>, key: T -> K)
    ensures KeySeq(ByName(items, key), key) == Adjoin([], KeySeq(items, key))
    decreases |items|
  {
    if items != [] {
      var init, last := items[..|items| - 1], items[|items| - 1];
      ByNameKeySeq(init, key);
      ByNameKeys(init, key);
      PutIs(ByName(init, key), last, key);
      AdjoinLast([], KeySeq(init, key), key(last));
      AdjoinHas([], KeySeq(init, key), key(last));
    }
  }

  /** The keys in the order of their first occurrence, each once. */
  lemma {:induction false} ByNameOrder<T, K>(items: seq<T>, key: T -> K)
    ensures var r := ByName(items, key);
            && Distinct(r, 0, key)
            && Keys(r, key) == Keys(items, key)
            && KeySeq(r, key) == Adjoin([], KeySeq(items, key))
  {
    ByNameKeys(items, key);
    ByNameKeySeq(items, key);
  }

  lemma {:induction false} KeysLast<T, K>(items: seq<T>, key: T -> K)
    requires items != []
    ensures Keys(items, key) == Keys(items[..|items| - 1], key) + {key(items[|items| - 1])}
  {
    assert items == items[..|items| - 1] + [items[|items| - 1]];
  }

  predicate IsLatest<T, K(==)>(x: T, items: seq<T>, j: nat, key: T -> K)
    requires j < |items|
  {
    key(items[j]) == key(x) && forall l :: j < l < |items| ==> key(items[l]) != key(x)
  }

  /** Each entry is the last item of its key. */
  lemma {:induction false} ByNameTakesLast<T, K>(items: seq<T>, key: T -> K, i: nat) returns (j: nat)
    requires i < |ByName(items, key)|
    ensures j < |items| && items[j] == ByName(items, key)[i] && IsLatest(items[j], items, j, key)
    decreases |items|
  {
    j := 0;
    if items != [] {
      var n := |items| - 1;
      var init := items[..n];
      ByNameOrder(init, key);
      var before := ByName(init, key);
      var at := IndexOf(before, key, key(items[n]));
      if i < |before| && at != Some(i) {
        j := ByNameTakesLast(init, key, i);
        if key(items[n]) == key(before[i]) {
          IndexIsUnique(before, key, i);
        }
      } else {
        j := n;
      }
    }
  }

  lemma {:induction false} ByNameOfDistinct<T, K>(items: seq<T>, key: T -> K)
    requires Distinct(items, 0, key)
    ensures ByName(items, key) == items
    decreases |items|
  {
    if items != [] {
      var init := items[..|items| - 1];
      ByNameOfDistinct(init, key);
      assert items == init + [items[|items| - 1]];
    }
  }

  lemma {:induction false} AdjoinIsDistinct<K>(xs: seq<K>, ys: seq<K>)
    requires forall i, j :: 0 <= i < j < |xs| ==> xs[i] != xs[j]
    ensures forall i, j :: 0 <= i < j < |Adjoin(xs, ys)| ==> Adjoin(xs, ys)[i] != Adjoin(xs, ys)[j]
    decreases |ys|
  {
    if ys != [] {
      AdjoinIsDistinct(xs, ys[..|ys| - 1]);
    }
  }

  lemma {:induction false} DistinctByKeys<T, K>(items: seq<T>, keys: seq<K>, key: T -> K)
    requires KeySeq(items, key) == Adjoin([], keys)
    ensures Distinct(items, 0, key)
  {
    AdjoinIsDistinct([], keys);
    forall i, j | 0 <= i < j < |items| ensures key(items[i]) != key(items[j]) {
      KeySeqAt(items, key, i);
      KeySeqAt(items, key, j);
    }
  }
}
