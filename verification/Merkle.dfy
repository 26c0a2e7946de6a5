/**
 * Content-addressed trees: nodes are found by a prefix of their hash, and replacing a
 * node replaces every occurrence of its content.
 */
module Merkle {
  import opened Wrappers

  /** Any model node: its kind and its fields in order. */
  datatype Node = Node(kind: string, fields: seq<Value>)

  /** A field is a scalar, a nested node or a tuple of values. */
  datatype Value = Scalar(text: string) | Child(node: Node) | Tuple(items: seq<Value>)

  type Hash = Node -> string

  /** No two of the nodes collide. */
  ghost predicate Distinct(hash: Hash, nodes: seq<Node>) {
    forall a, b :: a in nodes && b in nodes && hash(a) == hash(b) ==> a == b
  }

  /** No hash of one of the nodes is a proper prefix of another's. */
  ghost predicate SameLength(hash: Hash, nodes: seq<Node>) {
    forall a, b :: a in nodes && b in nodes ==> |hash(a)| == |hash(b)|
  }

  // ---------- Walking ----------

  /** The node and every node below it, top-down. */
  function Walk(n: Node): seq<Node>
    decreases n
  {
    [n] + WalkValues(n.fields)
  }

  function WalkValues(vs: seq<Value>): seq<Node>
    decreases vs
  {
    if vs == [] then [] else WalkValue(vs[0]) + WalkValues(vs[1..])
  }

  function WalkValue(v: Value): seq<Node>
    decreases v
  {
    match v
    case Scalar(_) => []
    case Child(n) => Walk(n)
    case Tuple(items) => WalkValues(items)
  }

  datatype LookupError = NoMatch | Ambiguous(hashes: set<string>)

  /** Hashes under a node that start with the prefix. */
  function Matching(root: Node, prefix: string, hash: Hash): set<string> {
    set n | n in Walk(root) && StartsWith(hash(n), prefix) :: hash(n)
  }

  /** Occurrences with equal content are one match. */
  method FindByPrefix(root: Node, prefix: string, hash: Hash) returns (r: Result<Node, LookupError>)
    ensures r.Ok? ==> r.value in Walk(root) && Matching(root, prefix, hash) == {hash(r.value)}
    ensures r == Err(NoMatch) <==> Matching(root, prefix, hash) == {}
    ensures r.Err? && r.error.Ambiguous? <==> |Matching(root, prefix, hash)| > 1
    ensures r.Err? && r.error.Ambiguous? ==> r.error.hashes == Matching(root, prefix, hash)
  {
    var nodes := Walk(root);
    var matches: map<string, Node> := map[];
    for i := 0 to |nodes|
      invariant matches.Keys == set n | n in nodes[..i] && StartsWith(hash(n), prefix) :: hash(n)
      invariant forall h :: h in matches ==> matches[h] in nodes && hash(matches[h]) == h
    {
      assert nodes[..i + 1] == nodes[..i] + [nodes[i]];
      if StartsWith(hash(nodes[i]), prefix) && hash(nodes[i]) !in matches {
        matches := matches[hash(nodes[i]) := nodes[i]];
      }
    }
    assert nodes[..|nodes|] == nodes;
    assert matches.Keys == Matching(root, prefix, hash);
    if matches == map[] {
      assert matches.Keys == {};
      return Err(NoMatch);
    }
    if |matches.Keys| > 1 {
      return Err(Ambiguous(matches.Keys));
    }
    var h :| h in matches;
    Singleton(matches.Keys, h);
    r := Ok(matches[h]);
  }

  lemma {:induction false} Singleton(s: set<string>, x: string)
    requires x in s && |s| <= 1
    ensures s == {x}
  {
    assert |s - {x}| == |s| - 1;
  }

  // ---------- Replacing ----------

  /** Every outermost node with the given hash becomes the new node, which is not entered. */
  function Replace(n: Node, target: string, new_: Node, hash: Hash): Node
    decreases n
  {
    if hash(n) == target then new_ else Node(n.kind, ReplaceValues(n.fields, target, new_, hash))
  }

  function ReplaceValues(vs: seq<Value>, target: string, new_: Node, hash: Hash): (r: seq<Value>)
    ensures |r| == |vs|
    decreases vs
  {
    if vs == [] then []
    else [ReplaceValue(vs[0], target, new_, hash)] + ReplaceValues(vs[1..], target, new_, hash)
  }

  function ReplaceValue(v: Value, target: string, new_: Node, hash: Hash): Value
    decreases v
  {
    match v
    case Scalar(_) => v
    case Child(n) => Child(Replace(n, target, new_, hash))
    case Tuple(items) => Tuple(ReplaceValues(items, target, new_, hash))
  }

  /** What replacing is for: every outermost copy of the target becomes the new node. */
  function Put(n: Node, target: Node, new_: Node): Node
    decreases n
  {
    if n == target then new_ else Node(n.kind, PutValues(n.fields, target, new_))
  }

  function PutValues(vs: seq<Value>, target: Node, new_: Node): (r: seq<Value>)
    ensures |r| == |vs|
    decreases vs
  {
    if vs == [] then [] else [PutValue(vs[0], target, new_)] + PutValues(vs[1..], target, new_)
  }

  function PutValue(v: Value, target: Node, new_: Node): Value
    decreases v
  {
    match v
    case Scalar(_) => v
    case Child(n) => Child(Put(n, target, new_))
    case Tuple(items) => Tuple(PutValues(items, target, new_))
  }

  method ReplaceNode(root: Node, ref: string, new_: Node, hash: Hash) returns (r: Result<Node, LookupError>)
    ensures r.Ok? <==> |Matching(root, ref, hash)| == 1
    ensures r.Ok? ==> exists n :: n in Walk(root) && Matching(root, ref, hash) == {hash(n)} &&
                                  r.value == Replace(root, hash(n), new_, hash)
    ensures r.Err? ==> r.error == if Matching(root, ref, hash) == {} then NoMatch else Ambiguous(Matching(root, ref, hash))
  {
    var found := FindByPrefix(root, ref, hash);
    if found.Err? {
      return Err(found.error);
    }
    r := Ok(Replace(root, hash(found.value), new_, hash));
  }

  // ---------- Sizes: a tree does not contain itself below the root ----------

  function Size(n: Node): nat
    decreases n
  {
    1 + SizeOfValues(n.fields)
  }

  function SizeOfValues(vs: seq<Value>): nat
    decreases vs
  {
    if vs == [] then 0 else SizeOfValue(vs[0]) + SizeOfValues(vs[1..])
  }

  function SizeOfValue(v: Value): nat
    decreases v
  {
    match v
    case Scalar(_) => 0
    case Child(n) => Size(n)
    case Tuple(items) => SizeOfValues(items)
  }

  lemma {:induction false} InsideIsSmaller(n: Node, x: Node)
    requires x in Walk(n)
    ensures Size(x) <= Size(n) && (x != n ==> Size(x) < Size(n))
    decreases n
  {
    if x != n {
      ValuesInside(n.fields, x);
    }
  }

  lemma {:induction false} ValuesInside(vs: seq<Value>, x: Node)
    requires x in WalkValues(vs)
    ensures Size(x) <= SizeOfValues(vs)
    decreases vs
  {
    if x in WalkValue(vs[0]) {
      ValueInside(vs[0], x);
    } else {
      ValuesInside(vs[1..], x);
    }
  }

  lemma {:induction false} ValueInside(v: Value, x: Node)
    requires x in WalkValue(v)
    ensures Size(x) <= SizeOfValue(v)
    decreases v
  {
    match v {
      case Child(n) => InsideIsSmaller(n, x);
      case Tuple(items) => ValuesInside(items, x);
    }
  }

  lemma {:induction false} WalkIsTransitive(n: Node, x: Node, y: Node)
    requires x in Walk(n) && y in Walk(x)
    ensures y in Walk(n)
    decreases n
  {
    if x != n {
      ValuesWalkIsTransitive(n.fields, x, y);
    }
  }

  lemma {:induction false} ValuesWalkIsTransitive(vs: seq<Value>, x: Node, y: Node)
    requires x in WalkValues(vs) && y in Walk(x)
    ensures y in WalkValues(vs)
    decreases vs
  {
    if x in WalkValue(vs[0]) {
      ValueWalkIsTransitive(vs[0], x, y);
    } else {
      ValuesWalkIsTransitive(vs[1..], x, y);
    }
  }

  lemma {:induction false} ValueWalkIsTransitive(v: Value, x: Node, y: Node)
    requires x in WalkValue(v) && y in Walk(x)
    ensures y in WalkValue(v)
    decreases v
  {
    match v {
      case Child(n) => WalkIsTransitive(n, x, y);
      case Tuple(items) => ValuesWalkIsTransitive(items, x, y);
    }
  }

  // ---------- Replacing back ----------

  /** Without the target nothing changes; with it the new node appears. */
  lemma {:induction false} PutShows(n: Node, target: Node, new_: Node)
    ensures target !in Walk(n) ==> Put(n, target, new_) == n
    ensures target in Walk(n) ==> new_ in Walk(Put(n, target, new_))
    decreases n
  {
    if n != target {
      PutShowsInValues(n.fields, target, new_);
    }
  }

  lemma {:induction false} PutShowsInValues(vs: seq<Value>, target: Node, new_: Node)
    ensures target !in WalkValues(vs) ==> PutValues(vs, target, new_) == vs
    ensures target in WalkValues(vs) ==> new_ in WalkValues(PutValues(vs, target, new_))
    decreases vs
  {
    if vs != [] {
      PutShowsInValues(vs[1..], target, new_);
      PutShowsInValue(vs[0], target, new_);
      var r := PutValues(vs, target, new_);
      assert r[0] == PutValue(vs[0], target, new_);
      assert r[1..] == PutValues(vs[1..], target, new_);
      assert [vs[0]] + vs[1..] == vs && [r[0]] + r[1..] == r;
    }
  }

  lemma {:induction false} PutShowsInValue(v: Value, target: Node, new_: Node)
    ensures target !in WalkValue(v) ==> PutValue(v, target, new_) == v
    ensures target in WalkValue(v) ==> new_ in WalkValue(PutValue(v, target, new_))
    decreases v
  {
    match v {
      case Scalar(_) =>
      case Child(n) => PutShows(n, target, new_);
      case Tuple(items) => PutShowsInValues(items, target, new_);
    }
  }

  /** Going down without entering the target, a node becomes a fresh one only by being the target. */
  lemma {:induction false} OnlyTheTargetTurns(n: Node, target: Node, new_: Node)
    requires n != target && new_ !in Walk(n)
    ensures Put(n, target, new_) != new_
  {
    var once := Put(n, target, new_);
    PutShows(n, target, new_);
    if once == new_ {
      PutShowsInValues(n.fields, target, new_);
      ValuesInside(once.fields, new_);
    }
  }

  lemma {:induction false} PutIsUndone(n: Node, target: Node, new_: Node)
    requires new_ !in Walk(n)
    ensures Put(Put(n, target, new_), new_, target) == n
    decreases n
  {
    if n != target {
      OnlyTheTargetTurns(n, target, new_);
      ValuesAreUndone(n.fields, target, new_);
    }
  }

  lemma {:induction false} ValuesAreUndone(vs: seq<Value>, target: Node, new_: Node)
    requires new_ !in WalkValues(vs)
    ensures PutValues(PutValues(vs, target, new_), new_, target) == vs
    decreases vs
  {
    if vs != [] {
      ValuesAreUndone(vs[1..], target, new_);
      ValueIsUndone(vs[0], target, new_);
      var r := PutValues(vs, target, new_);
      assert r[1..] == PutValues(vs[1..], target, new_);
      assert [vs[0]] + vs[1..] == vs;
    }
  }

  lemma {:induction false} ValueIsUndone(v: Value, target: Node, new_: Node)
    requires new_ !in WalkValue(v)
    ensures PutValue(PutValue(v, target, new_), new_, target) == v
    decreases v
  {
    match v {
      case Scalar(_) =>
      case Child(n) => PutIsUndone(n, target, new_);
      case Tuple(items) => ValuesAreUndone(items, target, new_);
    }
  }

  // ---------- Nothing is left of the target ----------

  /** Going down from `n` without entering copies of `stop`, `x` is never met. */
  predicate Avoids(n: Node, stop: Node, x: Node)
    decreases n
  {
    n == stop || (n != x && ValuesAvoid(n.fields, stop, x))
  }

  predicate ValuesAvoid(vs: seq<Value>, stop: Node, x: Node)
    decreases vs
  {
    vs == [] || (ValueAvoids(vs[0], stop, x) && ValuesAvoid(vs[1..], stop, x))
  }

  predicate ValueAvoids(v: Value, stop: Node, x: Node)
    decreases v
  {
    match v
    case Scalar(_) => true
    case Child(n) => Avoids(n, stop, x)
    case Tuple(items) => ValuesAvoid(items, stop, x)
  }

  lemma {:induction false} PutLeavesNone(n: Node, target: Node, new_: Node)
    requires new_ !in Walk(n)
    ensures Avoids(Put(n, target, new_), new_, target)
    decreases n
  {
    if n != target {
      PutLeavesNoneInValues(n.fields, target, new_);
      if Put(n, target, new_) == target {
        // The node changed, so it held the target and the target now holds the new node.
        PutShows(n, target, new_);
        WalkIsTransitive(n, target, new_);
      }
    }
  }

  lemma {:induction false} PutLeavesNoneInValues(vs: seq<Value>, target: Node, new_: Node)
    requires new_ !in WalkValues(vs)
    ensures ValuesAvoid(PutValues(vs, target, new_), new_, target)
    decreases vs
  {
    if vs != [] {
      PutLeavesNoneInValues(vs[1..], target, new_);
      PutLeavesNoneInValue(vs[0], target, new_);
      var r := PutValues(vs, target, new_);
      assert r[1..] == PutValues(vs[1..], target, new_);
    }
  }

  lemma {:induction false} PutLeavesNoneInValue(v: Value, target: Node, new_: Node)
    requires new_ !in WalkValue(v)
    ensures ValueAvoids(PutValue(v, target, new_), new_, target)
    decreases v
  {
    match v {
      case Scalar(_) =>
      case Child(n) => PutLeavesNone(n, target, new_);
      case Tuple(items) => PutLeavesNoneInValues(items, target, new_);
    }
  }

  // ---------- Hashes instead of content ----------

  /** Going down without entering copies of the target, no other node has its hash. */
  predicate Unmistaken(n: Node, target: Node, hash: Hash)
    decreases n
  {
    n == target || (hash(n) != hash(target) && ValuesUnmistaken(n.fields, target, hash))
  }

  predicate ValuesUnmistaken(vs: seq<Value>, target: Node, hash: Hash)
    decreases vs
  {
    vs == [] || (ValueUnmistaken(vs[0], target, hash) && ValuesUnmistaken(vs[1..], target, hash))
  }

  predicate ValueUnmistaken(v: Value, target: Node, hash: Hash)
    decreases v
  {
    match v
    case Scalar(_) => true
    case Child(n) => Unmistaken(n, target, hash)
    case Tuple(items) => ValuesUnmistaken(items, target, hash)
  }

  /** Replacing by hash replaces the copies of the target exactly when no visited node collides with it. */
  lemma {:induction false} ReplacesContentExactly(n: Node, target: Node, new_: Node, hash: Hash)
    requires new_ !in Walk(n)
    ensures Replace(n, hash(target), new_, hash) == Put(n, target, new_) <==> Unmistaken(n, target, hash)
    decreases n
  {
    if n != target {
      OnlyTheTargetTurns(n, target, new_);
      ReplacesValuesExactly(n.fields, target, new_, hash);
    }
  }

  lemma {:induction false} ReplacesValuesExactly(vs: seq<Value>, target: Node, new_: Node, hash: Hash)
    requires new_ !in WalkValues(vs)
    ensures ReplaceValues(vs, hash(target), new_, hash) == PutValues(vs, target, new_) <==>
            ValuesUnmistaken(vs, target, hash)
    decreases vs
  {
    if vs != [] {
      ReplacesValueExactly(vs[0], target, new_, hash);
      ReplacesValuesExactly(vs[1..], target, new_, hash);
      var r, p := ReplaceValues(vs, hash(target), new_, hash), PutValues(vs, target, new_);
      assert r[0] == ReplaceValue(vs[0], hash(target), new_, hash) && r[1..] == ReplaceValues(vs[1..], hash(target), new_, hash);
      assert p[0] == PutValue(vs[0], target, new_) && p[1..] == PutValues(vs[1..], target, new_);
      assert [r[0]] + r[1..] == r && [p[0]] + p[1..] == p;
    }
  }

  lemma {:induction false} ReplacesValueExactly(v: Value, target: Node, new_: Node, hash: Hash)
    requires new_ !in WalkValue(v)
    ensures ReplaceValue(v, hash(target), new_, hash) == PutValue(v, target, new_) <==> ValueUnmistaken(v, target, hash)
    decreases v
  {
    match v {
      case Scalar(_) =>
      case Child(n) => ReplacesContentExactly(n, target, new_, hash);
      case Tuple(items) => ReplacesValuesExactly(items, target, new_, hash);
    }
  }

  /** That no visited node collides is enough whatever is put in. */
  lemma {:induction false} ReplacesContent(n: Node, target: Node, new_: Node, hash: Hash)
    requires Unmistaken(n, target, hash)
    ensures Replace(n, hash(target), new_, hash) == Put(n, target, new_)
    decreases n
  {
    if n != target {
      ReplacesContentInValues(n.fields, target, new_, hash);
    }
  }

  lemma {:induction false} ReplacesContentInValues(vs: seq<Value>, target: Node, new_: Node, hash: Hash)
    requires ValuesUnmistaken(vs, target, hash)
    ensures ReplaceValues(vs, hash(target), new_, hash) == PutValues(vs, target, new_)
    decreases vs
  {
    if vs != [] {
      ReplacesContentInValue(vs[0], target, new_, hash);
      ReplacesContentInValues(vs[1..], target, new_, hash);
    }
  }

  lemma {:induction false} ReplacesContentInValue(v: Value, target: Node, new_: Node, hash: Hash)
    requires ValueUnmistaken(v, target, hash)
    ensures ReplaceValue(v, hash(target), new_, hash) == PutValue(v, target, new_)
    decreases v
  {
    match v {
      case Scalar(_) =>
      case Child(n) => ReplacesContent(n, target, new_, hash);
      case Tuple(items) => ReplacesContentInValues(items, target, new_, hash);
    }
  }

  /** Nodes that do not collide are not mistaken for one another. */
  lemma {:induction false} DistinctIsUnmistaken(n: Node, target: Node, hash: Hash, nodes: seq<Node>)
    requires Distinct(hash, nodes) && target in nodes && Among(Walk(n), nodes)
    ensures Unmistaken(n, target, hash)
    decreases n
  {
    assert n in Walk(n);
    AmongParts([n], WalkValues(n.fields), nodes);
    DistinctValuesAreUnmistaken(n.fields, target, hash, nodes);
  }

  lemma {:induction false} DistinctValuesAreUnmistaken(vs: seq<Value>, target: Node, hash: Hash, nodes: seq<Node>)
    requires Distinct(hash, nodes) && target in nodes && Among(WalkValues(vs), nodes)
    ensures ValuesUnmistaken(vs, target, hash)
    decreases vs
  {
    if vs != [] {
      AmongParts(WalkValue(vs[0]), WalkValues(vs[1..]), nodes);
      DistinctValueIsUnmistaken(vs[0], target, hash, nodes);
      DistinctValuesAreUnmistaken(vs[1..], target, hash, nodes);
    }
  }

  lemma {:induction false} DistinctValueIsUnmistaken(v: Value, target: Node, hash: Hash, nodes: seq<Node>)
    requires Distinct(hash, nodes) && target in nodes && Among(WalkValue(v), nodes)
    ensures ValueUnmistaken(v, target, hash)
    decreases v
  {
    match v {
      case Scalar(_) =>
      case Child(n) => DistinctIsUnmistaken(n, target, hash, nodes);
      case Tuple(items) => DistinctValuesAreUnmistaken(items, target, hash, nodes);
    }
  }

  predicate Among(xs: seq<Node>, nodes: seq<Node>) {
    forall i :: 0 <= i < |xs| ==> xs[i] in nodes
  }

  lemma {:induction false} AmongParts(xs: seq<Node>, ys: seq<Node>, nodes: seq<Node>)
    requires Among(xs + ys, nodes)
    ensures Among(xs, nodes) && Among(ys, nodes)
  {
    assert forall i :: 0 <= i < |xs| ==> xs[i] == (xs + ys)[i];
    assert forall i :: 0 <= i < |ys| ==> ys[i] == (xs + ys)[|xs| + i];
  }

  /**
   * Replacing the target by a node that is not in the tree, then that node by the target, is the
   * identity, if neither is mistaken for another node.
   */
  lemma {:induction false} ReplaceIsUndone(n: Node, target: Node, new_: Node, hash: Hash)
    requires new_ !in Walk(n) && Unmistaken(n, target, hash) && Unmistaken(Put(n, target, new_), new_, hash)
    ensures Replace(Replace(n, hash(target), new_, hash), hash(new_), target, hash) == n
  {
    ReplacesContent(n, target, new_, hash);
    PutIsUndone(n, target, new_);
    ReplacesContent(Put(n, target, new_), new_, target, hash);
  }

  /** After a replacement the target occurs only inside the inserted copies. */
  lemma {:induction false} TargetIsGone(n: Node, target: Node, new_: Node, hash: Hash)
    requires new_ !in Walk(n) && Unmistaken(n, target, hash)
    ensures Avoids(Replace(n, hash(target), new_, hash), new_, target)
  {
    ReplacesContentExactly(n, target, new_, hash);
    PutLeavesNone(n, target, new_);
  }

  // ---------- By reference ----------

  /** The full hash of a node in the tree is a reference to it. */
  lemma {:induction false} FullHashFinds(root: Node, n: Node, hash: Hash)
    requires SameLength(hash, Walk(root)) && n in Walk(root)
    ensures Matching(root, hash(n), hash) == {hash(n)}
  {
    forall x | x in Walk(root) && StartsWith(hash(x), hash(n)) ensures hash(x) == hash(n) {
      assert hash(x)[..|hash(x)|] == hash(x);
    }
  }

  /** The nodes that a replacement and its undoing look at. */
  function Concerned(root: Node, target: Node, new_: Node): seq<Node> {
    Walk(root) + Walk(new_) + Walk(Put(root, target, new_))
  }

  /**
   * Replacing a node of the tree by one that does not occur in it, and then the new node
   * by its full hash, restores the tree; in between the root has another hash and the
   * target is left only inside the inserted copies.
   */
  lemma {:induction false} ReplacementRoundTrip(root: Node, target: Node, new_: Node, hash: Hash)
    requires new_ !in Walk(root) && target in Walk(root)
    requires Distinct(hash, Concerned(root, target, new_)) && SameLength(hash, Concerned(root, target, new_))
    ensures var edited := Replace(root, hash(target), new_, hash);
            && edited == Put(root, target, new_)
            && Matching(root, hash(target), hash) == {hash(target)}
            && Matching(edited, hash(new_), hash) == {hash(new_)}
            && Replace(edited, hash(new_), target, hash) == root
            && hash(edited) != hash(root)
            && Avoids(edited, new_, target)
  {
    var nodes, edited := Concerned(root, target, new_), Put(root, target, new_);
    assert root in Walk(root) && edited in Walk(edited) && new_ in Walk(new_);
    assert forall x :: x in Walk(root) || x in Walk(new_) || x in Walk(edited) ==> x in nodes;
    assert Among(Walk(root), nodes) && Among(Walk(edited), nodes);
    DistinctIsUnmistaken(root, target, hash, nodes);
    DistinctIsUnmistaken(edited, new_, hash, nodes);
    PutShows(root, target, new_);
    ReplacesContentExactly(root, target, new_, hash);
    FullHashFinds(root, target, hash);
    FullHashFinds(edited, new_, hash);
    ReplaceIsUndone(root, target, new_, hash);
    TargetIsGone(root, target, new_, hash);
  }

  /** One mark for every listed node that is the given one. */
  function Marks(nodes: seq<Node>, n: Node): (marks: string)
    ensures |marks| == |nodes|
    ensures forall i :: 0 <= i < |nodes| ==> (marks[i] == '1' <==> nodes[i] == n)
  {
    if nodes == [] then "" else [if nodes[0] == n then '1' else '0'] + Marks(nodes[1..], n)
  }

  /** What is asked of a hash can be had for any nodes there are finitely many of. */
  lemma {:induction false} SomeHashTells(nodes: seq<Node>)
    ensures exists hash: Hash :: Distinct(hash, nodes) && SameLength(hash, nodes)
  {
    var hash: Hash := n => Marks(nodes, n);
    forall a, b | a in nodes && b in nodes && hash(a) == hash(b) ensures a == b {
      var i :| 0 <= i < |nodes| && nodes[i] == a;
      assert Marks(nodes, a)[i] == '1';
    }
    assert Distinct(hash, nodes) && SameLength(hash, nodes);
  }
}
