/**
 * Literal range analysis: a parameter whose every call site passes a literal of its
 * type gets the range of those literals as a claim.
 */
module LiteralRange {
  import opened Wrappers
  import opened QuodTree

  // ---------- The call walkers ----------

  /** Calls in an expression; field loads through pointers, `?` and trait calls are not looked into. */
  function CallsInExpr(e: Expr): seq<Expr> {
    match e
    case Leaf(_) => []
    case Unary(op, x) => if op.LoadField? || op.Try? then [] else CallsInExpr(x)
    case Binary(_, l, r) => CallsInExpr(l) + CallsInExpr(r)
    case Nary(op, args) =>
      if op.TraitCall? then [] else (if op.Call? then [e] else []) + CallsInExprs(args)
    case IfExpr(c, x, y) => CallsInExpr(c) + CallsInExpr(x) + CallsInExpr(y)
  }

  function CallsInExprs(es: seq<Expr>): seq<Expr> {
    if es == [] then [] else CallsInExpr(es[0]) + CallsInExprs(es[1..])
  }

  /** Field stores through pointers and C-style for loops are not looked into. */
  function CallsInStmt(s: Stmt): seq<Expr>
    decreases s
  {
    match s
    case ReturnExpr(e) => CallsInExpr(e)
    case ExprStmt(e) => CallsInExpr(e)
    case If(c, x, y) => CallsInExpr(c) + Calls(x) + Calls(y)
    case Let(_, _, init) => if init.Some? then CallsInExpr(init.value) else []
    case Assign(_, e) => CallsInExpr(e)
    case FieldSet(_, _, e) => CallsInExpr(e)
    case Store(p, e) => CallsInExpr(p) + CallsInExpr(e)
    case While(c, body) => CallsInExpr(c) + Calls(body)
    case DoWhile(body, c) => CallsInExpr(c) + Calls(body)
    case For(_, _, lo, hi, body) => CallsInExpr(lo) + CallsInExpr(hi) + Calls(body)
    case WithArena(_, capacity, body) => CallsInExpr(capacity) + Calls(body)
    case Match(scrutinee, _, arms) => CallsInExpr(scrutinee) + CallsInArms(arms)
    case _ => []
  }

  function Calls(ss: seq<Stmt>): seq<Expr>
    decreases ss
  {
    if ss == [] then [] else CallsInStmt(ss[0]) + Calls(ss[1..])
  }

  function CallsInArms(arms: seq<MatchArm>): seq<Expr>
    decreases arms
  {
    if arms == [] then [] else Calls(arms[0].body) + CallsInArms(arms[1..])
  }

  function ProgramCalls(program: seq<Function>): seq<Expr> {
    if program == [] then [] else Calls(program[0].body) + ProgramCalls(program[1..])
  }

  // ---------- Buckets ----------

  /** A literal that a call passes, and the hash of the call. */
  datatype Entry = Entry(value: int, source: string)

  /** The literals seen for one parameter, or `None` once another kind of argument was seen. */
  type Bucket = Option<seq<Entry>>

  type Hash = Expr -> string

  predicate IsCallOf(c: Expr, name: string) {
    c.Nary? && c.nop.Call? && c.nop.function_ == name
  }

  /** The literal that a call passes at a position, if it has the parameter's type. */
  function LiteralAt(c: Expr, i: nat, ty: Type): Option<int>
    requires c.Nary? && i < |c.args|
  {
    match c.args[i]
    case Leaf(IntLit(t, n)) => if t == ty then Some(n) else None
    case _ => None
  }

  function Feed(b: Bucket, c: Expr, fn: Function, i: nat, hash: Hash): Bucket
    requires i < |fn.params|
  {
    if b.None? || !IsCallOf(c, fn.name) || i >= |c.args| then b
    else match LiteralAt(c, i, fn.params[i].ty) {
      case None => None
      case Some(n) => Some(b.value + [Entry(n, hash(c))])
    }
  }

  /** What a parameter's bucket holds after the given calls. */
  function Bucketed(calls: seq<Expr>, fn: Function, i: nat, hash: Hash): Bucket
    requires i < |fn.params|
  {
    if calls == [] then Some([])
    else Feed(Bucketed(calls[..|calls| - 1], fn, i, hash), calls[|calls| - 1], fn, i, hash)
  }

  // ---------- Ranges ----------

  datatype Range = Range(lo: int, hi: int)

  datatype RangeClaim = RangeClaim(param: string, ty: Type, range: Range, inputs: seq<string>)

  function MinOf(entries: seq<Entry>): int
    requires entries != []
  {
    if |entries| == 1 then entries[0].value
    else
      var rest := MinOf(entries[1..]);
      if entries[0].value <= rest then entries[0].value else rest
  }

  function MaxOf(entries: seq<Entry>): int
    requires entries != []
  {
    if |entries| == 1 then entries[0].value
    else
      var rest := MaxOf(entries[1..]);
      if entries[0].value >= rest then entries[0].value else rest
  }

  function RangeOf(b: Bucket): Option<Range> {
    if b.None? || b.value == [] then None else Some(Range(MinOf(b.value), MaxOf(b.value)))
  }

  /** The derived range of a parameter. */
  function Derived(calls: seq<Expr>, fn: Function, i: nat, hash: Hash): Option<Range>
    requires i < |fn.params|
  {
    RangeOf(Bucketed(calls, fn, i, hash))
  }

  function Sources(entries: seq<Entry>): (r: seq<string>)
    ensures |r| == |entries|
  {
    if entries == [] then [] else [entries[0].source] + Sources(entries[1..])
  }

  function ClaimAt(calls: seq<Expr>, fn: Function, i: nat, hash: Hash): seq<RangeClaim>
    requires i < |fn.params|
  {
    var b := Bucketed(calls, fn, i, hash);
    match RangeOf(b)
    case None => []
    case Some(range) => [RangeClaim(fn.params[i].name, fn.params[i].ty, range, Sources(b.value))]
  }

  function ClaimsOf(calls: seq<Expr>, fn: Function, n: nat, hash: Hash): seq<RangeClaim>
    requires n <= |fn.params|
  {
    if n == 0 then [] else ClaimsOf(calls, fn, n - 1, hash) + ClaimAt(calls, fn, n - 1, hash)
  }

  // ---------- The analysis as it runs ----------

  predicate UniqueNames(program: seq<Function>) {
    forall i, j :: 0 <= i < j < |program| ==> program[i].name != program[j].name
  }

  type Buckets = map<string, seq<Bucket>>

  /** The buckets hold what the given calls put there. */
  ghost predicate Holds(buckets: Buckets, program: seq<Function>, calls: seq<Expr>, hash: Hash) {
    forall fn :: fn in program ==>
      && fn.name in buckets
      && |buckets[fn.name]| == |fn.params|
      && forall i :: 0 <= i < |fn.params| ==> buckets[fn.name][i] == Bucketed(calls, fn, i, hash)
  }

  method EmptyBuckets(program: seq<Function>, hash: Hash) returns (buckets: Buckets)
    requires UniqueNames(program)
    ensures Holds(buckets, program, [], hash)
  {
    buckets := map[];
    for k := 0 to |program|
      invariant forall j :: 0 <= j < k ==>
                  program[j].name in buckets && buckets[program[j].name] == seq(|program[j].params|, i => Some([]))
    {
      buckets := buckets[program[k].name := seq(|program[k].params|, i => Some([]))];
    }
    forall fn | fn in program ensures fn.name in buckets && buckets[fn.name] == seq(|fn.params|, i => Some([])) {
      var j :| 0 <= j < |program| && program[j] == fn;
    }
  }

  /** One call: each argument goes to the bucket at its position, extra arguments nowhere. */
  method FeedCall(buckets: Buckets, program: seq<Function>, ghost calls: seq<Expr>, c: Expr, hash: Hash)
    returns (fed: Buckets)
    requires UniqueNames(program) && Holds(buckets, program, calls, hash) && c.Nary? && c.nop.Call?
    ensures Holds(fed, program, calls + [c], hash)
  {
    assert (calls + [c])[..|calls|] == calls;
    var defined := FindFunction(program, c.nop.function_);
    if defined.None? {
      return buckets;
    }
    var fn := defined.value;
    var row := buckets[fn.name];
    for i := 0 to |c.args|
      invariant |row| == |fn.params|
      invariant forall j :: 0 <= j < |row| ==>
                  row[j] == if j < i then Bucketed(calls + [c], fn, j, hash) else Bucketed(calls, fn, j, hash)
    {
      if i < |row| && row[i].Some? {
        var literal := LiteralAt(c, i, fn.params[i].ty);
        row := row[i := if literal.Some? then Some(row[i].value + [Entry(literal.value, hash(c))]) else None];
      }
    }
    fed := buckets[fn.name := row];
    forall f | f in program
      ensures f.name in fed && |fed[f.name]| == |f.params|
              && forall i :: 0 <= i < |f.params| ==> fed[f.name][i] == Bucketed(calls + [c], f, i, hash)
    {
      if f.name == fn.name {
        SameName(program, f, fn);
      }
    }
  }

  function FindFunction(program: seq<Function>, name: string): (r: Option<Function>)
    ensures r.Some? ==> r.value in program && r.value.name == name
    ensures r.None? ==> forall fn :: fn in program ==> fn.name != name
  {
    if program == [] then None
    else if program[0].name == name then Some(program[0])
    else FindFunction(program[1..], name)
  }

  lemma {:induction false} SameName(program: seq<Function>, f: Function, g: Function)
    requires UniqueNames(program) && f in program && g in program && f.name == g.name
    ensures f == g
  {
    var i :| 0 <= i < |program| && program[i] == f;
    var j :| 0 <= j < |program| && program[j] == g;
    assert i == j;
  }

  lemma {:induction false} CallsAreCallsInExpr(e: Expr)
    ensures forall c :: c in CallsInExpr(e) ==> c.Nary? && c.nop.Call?
  {
    match e {
      case Leaf(_) =>
      case Unary(_, x) => CallsAreCallsInExpr(x);
      case Binary(_, l, r) =>
        CallsAreCallsInExpr(l);
        CallsAreCallsInExpr(r);
      case Nary(_, args) => CallsAreCallsInExprs(args);
      case IfExpr(c, x, y) =>
        CallsAreCallsInExpr(c);
        CallsAreCallsInExpr(x);
        CallsAreCallsInExpr(y);
    }
  }

  lemma {:induction false} CallsAreCallsInExprs(es: seq<Expr>)
    ensures forall c :: c in CallsInExprs(es) ==> c.Nary? && c.nop.Call?
  {
    if es != [] {
      CallsAreCallsInExpr(es[0]);
      CallsAreCallsInExprs(es[1..]);
    }
  }

  lemma {:induction false} CallsAreCallsInStmt(s: Stmt)
    ensures forall c :: c in CallsInStmt(s) ==> c.Nary? && c.nop.Call?
    decreases s
  {
    match s {
      case ReturnExpr(e) => CallsAreCallsInExpr(e);
      case ExprStmt(e) => CallsAreCallsInExpr(e);
      case If(c, x, y) =>
        CallsAreCallsInExpr(c);
        CallsAreCalls(x);
        CallsAreCalls(y);
      case Let(_, _, Some(e)) => CallsAreCallsInExpr(e);
      case Assign(_, e) => CallsAreCallsInExpr(e);
      case FieldSet(_, _, e) => CallsAreCallsInExpr(e);
      case Store(p, e) =>
        CallsAreCallsInExpr(p);
        CallsAreCallsInExpr(e);
      case While(c, body) =>
        CallsAreCallsInExpr(c);
        CallsAreCalls(body);
      case DoWhile(body, c) =>
        CallsAreCallsInExpr(c);
        CallsAreCalls(body);
      case For(_, _, lo, hi, body) =>
        CallsAreCallsInExpr(lo);
        CallsAreCallsInExpr(hi);
        CallsAreCalls(body);
      case WithArena(_, capacity, body) =>
        CallsAreCallsInExpr(capacity);
        CallsAreCalls(body);
      case Match(scrutinee, _, arms) =>
        CallsAreCallsInExpr(scrutinee);
        CallsAreCallsInArms(arms);
      case _ =>
    }
  }

  lemma {:induction false} CallsAreCalls(ss: seq<Stmt>)
    ensures forall c :: c in Calls(ss) ==> c.Nary? && c.nop.Call?
    decreases ss
  {
    if ss != [] {
      CallsAreCallsInStmt(ss[0]);
      CallsAreCalls(ss[1..]);
    }
  }

  lemma {:induction false} CallsAreCallsInArms(arms: seq<MatchArm>)
    ensures forall c :: c in CallsInArms(arms) ==> c.Nary? && c.nop.Call?
    decreases arms
  {
    if arms != [] {
      CallsAreCalls(arms[0].body);
      CallsAreCallsInArms(arms[1..]);
    }
  }

  method FeedStmt(buckets: Buckets, program: seq<Function>, ghost calls: seq<Expr>, s: Stmt, hash: Hash)
    returns (fed: Buckets)
    requires UniqueNames(program) && Holds(buckets, program, calls, hash)
    ensures Holds(fed, program, calls + CallsInStmt(s), hash)
  {
    fed := buckets;
    var found := CallsInStmt(s);
    CallsAreCallsInStmt(s);
    assert calls + found[..0] == calls;
    for k := 0 to |found|
      invariant Holds(fed, program, calls + found[..k], hash)
    {
      assert found[k] in found;
      fed := FeedCall(fed, program, calls + found[..k], found[k], hash);
      assert calls + found[..k] + [found[k]] == calls + found[..k + 1];
    }
    assert found[..|found|] == found;
  }

  method FeedCaller(buckets: Buckets, program: seq<Function>, ghost calls: seq<Expr>, caller: Function, hash: Hash)
    returns (fed: Buckets)
    requires UniqueNames(program) && Holds(buckets, program, calls, hash)
    ensures Holds(fed, program, calls + Calls(caller.body), hash)
  {
    fed := buckets;
    var ss := caller.body;
    ghost var done := calls;
    for k := 0 to |ss|
      invariant Holds(fed, program, done, hash)
      invariant done + Calls(ss[k..]) == calls + Calls(ss)
    {
      assert ss[k..][0] == ss[k] && ss[k..][1..] == ss[k + 1..];
      fed := FeedStmt(fed, program, done, ss[k], hash);
      done := done + CallsInStmt(ss[k]);
    }
    assert done == calls + Calls(ss);
  }

  /** A function without claims has no entry. */
  predicate Recorded(result: map<string, seq<RangeClaim>>, fn: Function, claims: seq<RangeClaim>) {
    (fn.name in result <==> claims != []) && (claims != [] ==> result[fn.name] == claims)
  }

  /** Visits every call of every function, then turns each unpoisoned bucket with an entry into a claim. */
  method DeriveLatticeClaims(program: seq<Function>, hash: Hash) returns (result: map<string, seq<RangeClaim>>)
    requires UniqueNames(program)
    ensures forall fn :: fn in program ==>
              Recorded(result, fn, ClaimsOf(ProgramCalls(program), fn, |fn.params|, hash))
    ensures forall name :: name in result ==> exists fn :: fn in program && fn.name == name
  {
    var buckets := EmptyBuckets(program, hash);
    ghost var calls: seq<Expr> := [];
    for k := 0 to |program|
      invariant Holds(buckets, program, calls, hash)
      invariant calls + ProgramCalls(program[k..]) == ProgramCalls(program)
    {
      assert program[k..][0] == program[k] && program[k..][1..] == program[k + 1..];
      buckets := FeedCaller(buckets, program, calls, program[k], hash);
      calls := calls + Calls(program[k].body);
    }
    assert calls == ProgramCalls(program);
    result := CollectClaims(program, buckets, calls, hash);
  }

  method CollectClaims(program: seq<Function>, buckets: Buckets, ghost calls: seq<Expr>, hash: Hash)
    returns (result: map<string, seq<RangeClaim>>)
    requires UniqueNames(program) && Holds(buckets, program, calls, hash)
    ensures forall fn :: fn in program ==> Recorded(result, fn, ClaimsOf(calls, fn, |fn.params|, hash))
    ensures forall name :: name in result ==> exists fn :: fn in program && fn.name == name
  {
    result := map[];
    for k := 0 to |program|
      invariant RecordedUpTo(result, program, k, calls, hash)
    {
      assert program[k] in program;
      var claims := DeriveFor(program[k], buckets[program[k].name], calls, hash);
      ghost var before := result;
      if claims != [] {
        result := result[program[k].name := claims];
      }
      RecordNext(before, program, k, result, calls, hash);
    }
    forall fn | fn in program ensures Recorded(result, fn, ClaimsOf(calls, fn, |fn.params|, hash)) {
      var j :| 0 <= j < |program| && program[j] == fn;
      assert RecordedAt(result, program, j, calls, hash);
    }
    forall name | name in result ensures exists fn :: fn in program && fn.name == name {
      assert NamedBefore(program, |program|, name);
      var j :| 0 <= j < |program| && program[j].name == name;
      assert program[j] in program;
    }
  }

  /** The entries of the first `k` functions and no others. */
  ghost predicate RecordedUpTo(result: map<string, seq<RangeClaim>>, program: seq<Function>, k: nat, calls: seq<Expr>, hash: Hash)
    requires k <= |program|
  {
    && (forall j :: 0 <= j < k ==> RecordedAt(result, program, j, calls, hash))
    && (forall name :: name in result ==> NamedBefore(program, k, name))
  }

  ghost predicate RecordedAt(result: map<string, seq<RangeClaim>>, program: seq<Function>, j: nat, calls: seq<Expr>, hash: Hash)
    requires j < |program|
  {
    Recorded(result, program[j], ClaimsOf(calls, program[j], |program[j].params|, hash))
  }

  predicate NamedBefore(program: seq<Function>, k: nat, name: string)
    requires k <= |program|
  {
    exists j :: 0 <= j < k && program[j].name == name
  }

  lemma {:induction false} RecordNext(before: map<string, seq<RangeClaim>>, program: seq<Function>, k: nat,
                                      result: map<string, seq<RangeClaim>>, calls: seq<Expr>, hash: Hash)
    requires UniqueNames(program) && k < |program| && RecordedUpTo(before, program, k, calls, hash)
    requires var claims := ClaimsOf(calls, program[k], |program[k].params|, hash);
             result == if claims != [] then before[program[k].name := claims] else before
    ensures RecordedUpTo(result, program, k + 1, calls, hash)
  {
    var claims := ClaimsOf(calls, program[k], |program[k].params|, hash);
    NewName(program, k);
    assert program[k].name !in before;
    assert Recorded(result, program[k], claims);
    forall j | 0 <= j < k + 1 ensures RecordedAt(result, program, j, calls, hash) {
      if j < k {
        assert RecordedAt(before, program, j, calls, hash);
        assert program[j].name != program[k].name;
      }
    }
    forall name | name in result ensures NamedBefore(program, k + 1, name) {
      if name in before {
        assert NamedBefore(program, k, name);
      } else {
        assert program[k].name == name;
      }
    }
  }

  lemma {:induction false} NewName(program: seq<Function>, k: nat)
    requires UniqueNames(program) && k < |program|
    ensures !NamedBefore(program, k, program[k].name)
  {}

  method DeriveFor(fn: Function, row: seq<Bucket>, ghost calls: seq<Expr>, hash: Hash) returns (derived: seq<RangeClaim>)
    requires |row| == |fn.params| && forall i :: 0 <= i < |row| ==> row[i] == Bucketed(calls, fn, i, hash)
    ensures derived == ClaimsOf(calls, fn, |fn.params|, hash)
  {
    derived := [];
    for i := 0 to |fn.params|
      invariant derived == ClaimsOf(calls, fn, i, hash)
    {
      if row[i].Some? && row[i].value != [] {
        var entries := row[i].value;
        derived := derived + [RangeClaim(fn.params[i].name, fn.params[i].ty, Range(MinOf(entries), MaxOf(entries)), Sources(entries))];
      }
    }
  }

  // ---------- What a derived range means ----------

  /** The call passes a literal of the parameter's type within the range. */
  predicate PassesWithin(c: Expr, fn: Function, i: nat, range: Range)
    requires c.Nary? && i < |c.args| && i < |fn.params|
  {
    var literal := LiteralAt(c, i, fn.params[i].ty);
    literal.Some? && range.lo <= literal.value <= range.hi
  }

  predicate AllWithin(calls: seq<Expr>, fn: Function, i: nat, range: Range)
    requires i < |fn.params|
  {
    forall c :: c in calls && IsCallOf(c, fn.name) && i < |c.args| ==> PassesWithin(c, fn, i, range)
  }

  predicate Attained(calls: seq<Expr>, fn: Function, i: nat, n: int)
    requires i < |fn.params|
  {
    exists c :: c in calls && IsCallOf(c, fn.name) && i < |c.args| && LiteralAt(c, i, fn.params[i].ty) == Some(n)
  }

  predicate Holding(b: Bucket, n: int) {
    b.Some? && exists k :: 0 <= k < |b.value| && b.value[k].value == n
  }

  lemma {:induction false} AttainedStep(init: seq<Expr>, last: Expr, fn: Function, i: nat, n: int)
    requires i < |fn.params|
    ensures Attained(init + [last], fn, i, n) <==>
            || Attained(init, fn, i, n)
            || (IsCallOf(last, fn.name) && i < |last.args| && LiteralAt(last, i, fn.params[i].ty) == Some(n))
  {
    assert forall c :: c in init + [last] <==> c in init || c == last;
  }

  lemma {:induction false} FeedStep(b: Bucket, c: Expr, fn: Function, i: nat, hash: Hash, n: int)
    requires i < |fn.params| && Feed(b, c, fn, i, hash).Some?
    ensures Holding(Feed(b, c, fn, i, hash), n) <==>
            || Holding(b, n)
            || (IsCallOf(c, fn.name) && i < |c.args| && LiteralAt(c, i, fn.params[i].ty) == Some(n))
  {
    var fed := Feed(b, c, fn, i, hash).value;
    assert b.value <= fed;
    if |fed| > |b.value| {
      assert fed[|b.value|].value == LiteralAt(c, i, fn.params[i].ty).value;
    }
    if Holding(b, n) {
      var k :| 0 <= k < |b.value| && b.value[k].value == n;
      assert fed[k].value == n;
    }
  }

  /** A bucket is unpoisoned exactly when every call passes a literal ... */
  lemma {:induction false} BucketIsPoisoned(calls: seq<Expr>, fn: Function, i: nat, hash: Hash)
    requires i < |fn.params|
    ensures Bucketed(calls, fn, i, hash).Some? <==>
            forall c :: c in calls && IsCallOf(c, fn.name) && i < |c.args| ==> LiteralAt(c, i, fn.params[i].ty).Some?
    decreases |calls|
  {
    if calls != [] {
      var init, last := calls[..|calls| - 1], calls[|calls| - 1];
      BucketIsPoisoned(init, fn, i, hash);
      assert calls == init + [last];
      assert forall c :: c in calls <==> c in init || c == last;
    }
  }

  /** ... and then its entries are exactly the literals passed. */
  lemma {:induction false} BucketHoldsLiterals(calls: seq<Expr>, fn: Function, i: nat, hash: Hash, n: int)
    requires i < |fn.params| && Bucketed(calls, fn, i, hash).Some?
    ensures Holding(Bucketed(calls, fn, i, hash), n) <==> Attained(calls, fn, i, n)
    decreases |calls|
  {
    if calls != [] {
      var init, last := calls[..|calls| - 1], calls[|calls| - 1];
      BucketHoldsLiterals(init, fn, i, hash, n);
      assert calls == init + [last];
      AttainedStep(init, last, fn, i, n);
      FeedStep(Bucketed(init, fn, i, hash), last, fn, i, hash, n);
    }
  }

  lemma {:induction false} MinIsLeast(entries: seq<Entry>)
    requires entries != []
    ensures forall k :: 0 <= k < |entries| ==> MinOf(entries) <= entries[k].value
    ensures exists k :: 0 <= k < |entries| && entries[k].value == MinOf(entries)
  {
    if |entries| == 1 {
      assert entries[0].value == MinOf(entries);
    } else {
      MinIsLeast(entries[1..]);
      var k :| 0 <= k < |entries[1..]| && entries[1..][k].value == MinOf(entries[1..]);
      assert entries[k + 1].value == MinOf(entries[1..]);
      assert entries[if MinOf(entries) == entries[0].value then 0 else k + 1].value == MinOf(entries);
      assert forall j :: 1 <= j < |entries| ==> entries[j] == entries[1..][j - 1];
    }
  }

  lemma {:induction false} MaxIsGreatest(entries: seq<Entry>)
    requires entries != []
    ensures forall k :: 0 <= k < |entries| ==> entries[k].value <= MaxOf(entries)
    ensures exists k :: 0 <= k < |entries| && entries[k].value == MaxOf(entries)
  {
    if |entries| == 1 {
      assert entries[0].value == MaxOf(entries);
    } else {
      MaxIsGreatest(entries[1..]);
      var k :| 0 <= k < |entries[1..]| && entries[1..][k].value == MaxOf(entries[1..]);
      assert entries[k + 1].value == MaxOf(entries[1..]);
      assert entries[if MaxOf(entries) == entries[0].value then 0 else k + 1].value == MaxOf(entries);
      assert forall j :: 1 <= j < |entries| ==> entries[j] == entries[1..][j - 1];
    }
  }

  /** A range is derived exactly when every call is within it and some call attains each bound. */
  lemma {:induction false} DerivedExactly(calls: seq<Expr>, fn: Function, i: nat, hash: Hash, range: Range)
    requires i < |fn.params|
    ensures Derived(calls, fn, i, hash) == Some(range) <==>
            AllWithin(calls, fn, i, range) && Attained(calls, fn, i, range.lo) && Attained(calls, fn, i, range.hi)
  {
    var b := Bucketed(calls, fn, i, hash);
    BucketIsPoisoned(calls, fn, i, hash);
    if b.Some? {
      forall n ensures Holding(b, n) <==> Attained(calls, fn, i, n) {
        BucketHoldsLiterals(calls, fn, i, hash, n);
      }
    }
    if b.Some? && b.value != [] {
      MinIsLeast(b.value);
      MaxIsGreatest(b.value);
      assert Holding(b, MinOf(b.value)) && Holding(b, MaxOf(b.value));
      forall c | c in calls && IsCallOf(c, fn.name) && i < |c.args|
        ensures PassesWithin(c, fn, i, Range(MinOf(b.value), MaxOf(b.value))) {
        assert Attained(calls, fn, i, LiteralAt(c, i, fn.params[i].ty).value);
      }
    }
  }

  lemma {:induction false} ProgramCallsAre(program: seq<Function>, c: Expr)
    ensures c in ProgramCalls(program) <==> exists fn :: fn in program && c in Calls(fn.body)
  {
    if program != [] {
      ProgramCallsAre(program[1..], c);
      assert forall fn :: fn in program <==> fn == program[0] || fn in program[1..];
    }
  }

  /** The order in which callers are visited does not matter, nor does the hash. */
  lemma {:induction false} OrderDoesNotMatter(p: seq<Function>, q: seq<Function>, fn: Function, i: nat, hp: Hash, hq: Hash)
    requires multiset(p) == multiset(q) && i < |fn.params|
    ensures Derived(ProgramCalls(p), fn, i, hp) == Derived(ProgramCalls(q), fn, i, hq)
  {
    forall c ensures c in ProgramCalls(p) <==> c in ProgramCalls(q) {
      ProgramCallsAre(p, c);
      ProgramCallsAre(q, c);
      assert forall f :: f in p <==> f in multiset(p);
      assert forall f :: f in q <==> f in multiset(q);
    }
    SameCallsSameRange(ProgramCalls(p), ProgramCalls(q), fn, i, hp, hq);
    SameCallsSameRange(ProgramCalls(q), ProgramCalls(p), fn, i, hq, hp);
  }

  lemma {:induction false} SameCallsSameRange(x: seq<Expr>, y: seq<Expr>, fn: Function, i: nat, hx: Hash, hy: Hash)
    requires i < |fn.params| && forall c :: c in x <==> c in y
    ensures Derived(x, fn, i, hx).Some? ==> Derived(y, fn, i, hy) == Derived(x, fn, i, hx)
  {
    var r := Derived(x, fn, i, hx);
    if r.Some? {
      DerivedExactly(x, fn, i, hx, r.value);
      DerivedExactly(y, fn, i, hy, r.value);
    }
  }
}
