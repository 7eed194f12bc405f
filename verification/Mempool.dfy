/**
 The mempool (internal/mempool/mempool.go): a bounded first-in-first-out queue of transactions kept as a
 list of hashes, an index by hash and a cache of hashes seen lately.
 */
module Mempool {
  import opened Text
  import opened Sorting
  import opened Compaction
  import opened Accounts
  import opened Ledger

  // ---------------------------------------------------------------- admission

  predicate SizeOk(t: Tx, maxTxBytes: int) {
    maxTxBytes > 0 ==> |t.from| + |t.to| + |t.signature| <= maxTxBytes
  }

  /** The funds check of `CheckTx` by transaction type. */
  predicate Funded(t: Tx, acc: Account, left: Option<int>) {
    match t.ttype
    case Transfer => acc.balance >= t.amount
    case Stake => acc.balance >= t.amount
    case RequestUnstake => acc.staked >= t.amount
    case ClaimUnstake => acc.pending >= t.amount
    case ClaimMining => left.Some? && t.amount <= left.value
    case Unknown(_) => true
  }

  /** `CheckTx` on the sender's account and what is left for mining. */
  predicate CheckTx(t: Tx, acc: Account, left: Option<int>, checks: Checks, maxTxBytes: int) {
    ValidateBasic(t, checks) && SizeOk(t, maxTxBytes) && t.nonce > acc.nonce && Funded(t, acc, left)
  }

  lemma FundedMeansApplies(b: Books, t: Tx, f: string, g: string)
    requires BucketsOk(b.buckets) && AmountOk(t) && !t.ttype.Unknown? && t.nonce > At(b.accounts, f).nonce
    requires t.ttype == ClaimMining ==> ParseClaim(t).Some?
    ensures Funded(t, At(b.accounts, f), BucketLeft(b.buckets, MINING)) <==> ApplyKeyed(b, t, f, g).Some?
  {
    if t.ttype == ClaimMining {
      DivisionTestIsExact(t.amount);
    }
  }

  /** CHECKING PREDICTS APPLYING. On sound books a transaction passes the check exactly when it is
      basically valid, small enough, numbered, and would be applied right now. */
  lemma CheckPredictsApply(b: Books, t: Tx, checks: Checks, maxTxBytes: int)
    requires Sound(b)
    ensures CheckTx(t, Get(b.accounts, t.from), BucketLeft(b.buckets, MINING), checks, maxTxBytes)
       <==> && ValidateBasic(t, checks) && t.nonce >= 1 && Apply(b, t).Some?
            && (maxTxBytes <= 0 || |t.from| + |t.to| + |t.signature| <= maxTxBytes)
  {
    if ValidateBasic(t, checks) && t.nonce > Get(b.accounts, t.from).nonce {
      FundedMeansApplies(b, t, Norm(t.from), Norm(t.to));
    }
  }

  // ---------------------------------------------------------------- the queue as a value

  /** How many transactions a limit stands for: none or a negative one means all. */
  function Clamp(limit: int, size: nat): nat {
    if limit <= 0 || limit > size then size else limit
  }

  datatype Op = Added(t: Tx) | Taken(limit: int) | Removed(hashes: set<string>)

  /** The queue and everything handed out after some operations. */
  ghost function RunPool(id: Tx -> string, queue: seq<Tx>, ops: seq<Op>): (seq<Tx>, seq<Tx>) {
    if ops == [] then (queue, [])
    else
      var (q, out) := RunPool(id, queue, ops[..|ops| - 1]);
      match ops[|ops| - 1]
      case Added(t) => (q + [t], out)
      case Taken(limit) => (q[Clamp(limit, |q|)..], out + q[..Clamp(limit, |q|)])
      case Removed(hashes) => (Filter(q, t => id(t) !in hashes), out)
  }

  ghost function Offered(ops: seq<Op>): seq<Tx> {
    if ops == [] then []
    else
      var init, last := Offered(ops[..|ops| - 1]), ops[|ops| - 1];
      if last.Added? then init + [last.t] else init
  }

  function KeptBy(id: Tx -> string, removed: set<string>): Tx -> bool {
    t => id(t) !in removed
  }

  lemma StepKeepsOrder(id: Tx -> string, queue: seq<Tx>, ops: seq<Op>, removed: set<string>)
    requires ops != [] && (ops[|ops| - 1].Removed? ==> ops[|ops| - 1].hashes <= removed)
    ensures var (q, out), (q', out') := RunPool(id, queue, ops[..|ops| - 1]), RunPool(id, queue, ops);
            var keep, last := KeptBy(id, removed), ops[|ops| - 1];
            Filter(out' + q', keep) == Filter(out + q, keep) + (if last.Added? && keep(last.t) then [last.t] else [])
  {
    var (q, out) := RunPool(id, queue, ops[..|ops| - 1]);
    var keep := KeptBy(id, removed);
    match ops[|ops| - 1]
    case Added(t) =>
      assert out + (q + [t]) == (out + q) + [t];
      FilterConcat(out + q, [t], keep);
      OneFilter(t, keep);
    case Taken(limit) =>
      var k := Clamp(limit, |q|);
      assert (out + q[..k]) + q[k..] == out + q;
    case Removed(hashes) =>
      FilterConcat(out, q, keep);
      FilterConcat(out, Filter(q, t => id(t) !in hashes), keep);
      FilterTwice(q, t => id(t) !in hashes, keep);
  }

  /** FIRST IN, FIRST OUT. Over any run, what has been handed out followed by what is still queued is what
      was offered, in order, except for transactions removed by hash: nothing else is lost, repeated or
      overtaken. */
  lemma {:induction false} FirstInFirstOut(id: Tx -> string, queue: seq<Tx>, ops: seq<Op>, removed: set<string>)
    requires forall i | 0 <= i < |ops| && ops[i].Removed? :: ops[i].hashes <= removed
    ensures var (q, out) := RunPool(id, queue, ops);
            Filter(out + q, KeptBy(id, removed)) == Filter(queue + Offered(ops), KeptBy(id, removed))
    decreases |ops|
  {
    var keep := KeptBy(id, removed);
    if ops == [] {
      assert [] + queue == queue + [];
    } else {
      var init := ops[..|ops| - 1];
      FirstInFirstOut(id, queue, init, removed);
      StepKeepsOrder(id, queue, ops, removed);
      OfferedNext(queue, ops, keep);
    }
  }

  lemma OfferedNext(queue: seq<Tx>, ops: seq<Op>, keep: Tx -> bool)
    requires ops != []
    ensures var last := ops[|ops| - 1];
            Filter(queue + Offered(ops), keep) ==
              Filter(queue + Offered(ops[..|ops| - 1]), keep) + (if last.Added? && keep(last.t) then [last.t] else [])
  {
    var init, last := Offered(ops[..|ops| - 1]), ops[|ops| - 1];
    if last.Added? {
      assert queue + (init + [last.t]) == (queue + init) + [last.t];
      FilterConcat(queue + init, [last.t], keep);
      OneFilter(last.t, keep);
    }
  }

  // ---------------------------------------------------------------- the seen cache

  /** Oldest first; entries of one time in any order. */
  ghost predicate ByTime(keys: seq<string>, seen: map<string, int>) {
    && (forall k | k in keys :: k in seen)
    && forall i, j | 0 <= i < j < |keys| :: seen[keys[i]] <= seen[keys[j]]
  }

  lemma InsertedByTime(s: seq<string>, p: nat, x: string, seen: map<string, int>)
    requires ByTime(s, seen) && x in seen && p <= |s|
    requires (forall i | 0 <= i < p :: seen[s[i]] <= seen[x]) && (forall i | p <= i < |s| :: seen[x] <= seen[s[i]])
    ensures ByTime(Inserted(s, p, x), seen)
  {
    var r := Inserted(s, p, x);
    forall k | k in r ensures k in seen {
      assert k in s || k == x;
    }
  }

  lemma InsertedDistinct(s: seq<string>, p: nat, x: string)
    requires Distinct(s) && x !in s && p <= |s|
    ensures Distinct(Inserted(s, p, x))
  {
  }

  method InsertByTime(s: seq<string>, x: string, seen: map<string, int>) returns (r: seq<string>)
    requires ByTime(s, seen) && Distinct(s) && x !in s && x in seen
    ensures ByTime(r, seen) && Distinct(r) && Elements(r) == Elements(s) + {x}
  {
    var p := 0;
    while p < |s| && seen[s[p]] < seen[x]
      invariant 0 <= p <= |s|
      invariant forall i | 0 <= i < p :: seen[s[i]] <= seen[x]
    {
      p := p + 1;
    }
    InsertedByTime(s, p, x, seen);
    InsertedDistinct(s, p, x);
    InsertedElements(s, p, x);
    r := Inserted(s, p, x);
  }

  /** The entries of the cache sorted by time. */
  method SortByTime(seen: map<string, int>) returns (r: seq<string>)
    ensures ByTime(r, seen) && Distinct(r) && Elements(r) == seen.Keys
  {
    var keys := AnyOrder(seen.Keys);
    r := [];
    var i := 0;
    while i < |keys|
      invariant 0 <= i <= |keys|
      invariant ByTime(r, seen) && Distinct(r) && Elements(r) == Elements(keys[..i])
    {
      assert keys[i] in Elements(keys);
      assert keys[i] !in Elements(keys[..i]);
      assert Elements(keys[..i + 1]) == Elements(keys[..i]) + {keys[i]};
      r := InsertByTime(r, keys[i], seen);
      i := i + 1;
    }
    assert keys[..i] == keys;
  }

  /** The cache after dropping its oldest entries: a part of what was there, of the given size, with
      nothing kept that is older than something dropped. */
  ghost predicate Newest(kept: map<string, int>, seen: map<string, int>, size: nat) {
    && kept.Keys <= seen.Keys && (forall h | h in kept :: kept[h] == seen[h])
    && |kept| == size
    && forall h, d | h in kept && d in seen && d !in kept :: seen[d] <= seen[h]
  }

  function Restrict(seen: map<string, int>, keys: seq<string>): map<string, int> {
    map h | h in seen && h in keys :: seen[h]
  }

  method DropOldest(seen: map<string, int>, target: nat) returns (kept: map<string, int>)
    requires target <= |seen|
    ensures Newest(kept, seen, target)
  {
    var entries := SortByTime(seen);
    DistinctCount(entries);
    var toDrop := |entries| - target;
    kept := seen;
    assert entries[0..] == entries;
    RestrictAll(seen, entries);
    var i := 0;
    while i < toDrop
      invariant 0 <= i <= toDrop
      invariant kept == Restrict(seen, entries[i..])
    {
      RestrictNext(seen, entries, i);
      kept := kept - {entries[i]};
      i := i + 1;
    }
    SuffixIsNewest(entries, i, seen);
  }

  lemma RestrictAll(seen: map<string, int>, s: seq<string>)
    requires Elements(s) == seen.Keys
    ensures Restrict(seen, s) == seen
  {
    assert forall h | h in seen :: h in Elements(s);
  }

  lemma RestrictNext(seen: map<string, int>, s: seq<string>, i: nat)
    requires i < |s| && Distinct(s)
    ensures Restrict(seen, s[i..]) - {s[i]} == Restrict(seen, s[i + 1..])
  {
    assert s[i..] == [s[i]] + s[i + 1..];
    assert s[i] !in s[i + 1..];
  }

  lemma SuffixIsNewest(s: seq<string>, i: nat, seen: map<string, int>)
    requires ByTime(s, seen) && Distinct(s) && Elements(s) == seen.Keys && i <= |s|
    ensures Newest(Restrict(seen, s[i..]), seen, |s| - i)
  {
    var kept := Restrict(seen, s[i..]);
    SuffixSize(s, i, seen);
    forall h, d | h in kept && d in seen && d !in kept ensures seen[d] <= seen[h] {
      assert d in Elements(s);
      OlderOutside(s, i, seen, h, d);
    }
  }

  lemma SuffixSize(s: seq<string>, i: nat, seen: map<string, int>)
    requires (forall k | k in s :: k in seen) && Distinct(s) && i <= |s|
    ensures |Restrict(seen, s[i..])| == |s| - i
  {
    DistinctCount(s[i..]);
    assert Restrict(seen, s[i..]).Keys == Elements(s[i..]);
  }

  lemma OlderOutside(s: seq<string>, i: nat, seen: map<string, int>, h: string, d: string)
    requires ByTime(s, seen) && i <= |s| && h in s[i..] && d in s && d !in s[i..]
    ensures seen[d] <= seen[h]
  {
    var j :| 0 <= j < |s| && s[j] == d;
    var k :| 0 <= k < |s[i..]| && s[i..][k] == h;
    assert s[i + k] == h;
    assert j < i by {
      assert forall m | i <= m < |s| :: s[i..][m - i] == s[m];
    }
  }

  // ---------------------------------------------------------------- the pool

  datatype AddResult = Rejected | AlreadyQueued | AlreadySeen | Full | Accepted

  /** The transactions of a list of hashes. */
  ghost function Resolve(order: seq<string>, byHash: map<string, Tx>): seq<Tx>
    requires forall h | h in order :: h in byHash
  {
    seq(|order|, i requires 0 <= i < |order| => byHash[order[i]])
  }

  class Mempool {
    const maxTxs: nat
    const maxTxBytes: int
    const cacheSize: nat
    const id: Tx -> string
    var order: seq<string>
    var byHash: map<string, Tx>
    var seen: map<string, int>

    /** The list has no repetitions and lists exactly the index, which is within bounds. */
    ghost predicate Valid()
      reads this
    {
      && Distinct(order)
      && (forall h :: h in order <==> h in byHash)
      && (forall h | h in byHash :: id(byHash[h]) == h)
      && |order| <= maxTxs && |seen| <= cacheSize
    }

    ghost function Queue(): seq<Tx>
      reads this
      requires Valid()
    {
      Resolve(order, byHash)
    }

    constructor (maxTxs: int, maxTxBytes: int, cacheSize: nat, id: Tx -> string)
      ensures Valid() && Queue() == [] && seen == map[] && this.id == id
      ensures this.maxTxs == (if maxTxs <= 0 then 5000 else maxTxs)
      ensures this.maxTxBytes == (if maxTxs <= 0 then 64 * 1024 else maxTxBytes)
      ensures this.cacheSize == (if maxTxs <= 0 then 10000 else cacheSize)
    {
      this.maxTxs := if maxTxs <= 0 then 5000 else maxTxs;
      this.maxTxBytes := if maxTxs <= 0 then 65536 else maxTxBytes;
      this.cacheSize := if maxTxs <= 0 then 10000 else cacheSize;
      this.id := id;
      order, byHash, seen := [], map[], map[];
    }

    lemma SizeOfIndex()
      requires Valid()
      ensures |byHash| == |order|
    {
      DistinctCount(order);
      assert Elements(order) == byHash.Keys;
    }

    /** Appends a transaction that passes the check against the sender's account and the mining bucket and is
        neither queued nor seen, if there is room. */
    method Add(t: Tx, acc: Account, left: Option<int>, checks: Checks, now: int) returns (r: AddResult)
      requires Valid()
      modifies this`order, this`byHash, this`seen
      ensures Valid()
      ensures r == (if !CheckTx(t, acc, left, checks, maxTxBytes) then Rejected
                    else if id(t) in old(byHash) then AlreadyQueued
                    else if id(t) in old(seen) then AlreadySeen
                    else if |old(order)| >= maxTxs then Full
                    else Accepted)
      ensures Queue() == if r == Accepted then old(Queue()) + [t] else old(Queue())
      ensures r == Accepted ==> PrunedTo(old(seen)[id(t) := now], seen)
      ensures r != Accepted ==> seen == old(seen)
    {
      if !CheckTx(t, acc, left, checks, maxTxBytes) {
        return Rejected;
      }
      var h := id(t);
      if h in byHash {
        return AlreadyQueued;
      }
      if h in seen {
        return AlreadySeen;
      }
      SizeOfIndex();
      if |byHash| >= maxTxs {
        return Full;
      }
      Enqueue(h, t);
      seen := PruneSeen(seen[h := now]);
      r := Accepted;
    }

    method Enqueue(h: string, t: Tx)
      requires Valid() && h == id(t) && h !in byHash && |order| < maxTxs
      modifies this`order, this`byHash
      ensures Valid() && Queue() == old(Queue()) + [t]
    {
      byHash := byHash[h := t];
      order := order + [h];
    }

    /** The cache within its size, pruned to the newest three quarters when it had outgrown it. */
    ghost predicate PrunedTo(before: map<string, int>, after: map<string, int>) {
      if |before| <= cacheSize then after == before else Newest(after, before, cacheSize * 3 / 4)
    }

    method PruneSeen(cache: map<string, int>) returns (after: map<string, int>)
      ensures PrunedTo(cache, after) && |after| <= cacheSize
      ensures |cache| <= cacheSize ==> after == cache
      ensures |cache| > cacheSize ==>
                && |after| == cacheSize * 3 / 4 && (forall h | h in after :: h in cache && after[h] == cache[h])
                && forall h, d | h in after && d in cache && d !in after :: cache[d] <= cache[h]
    {
      if |cache| <= cacheSize {
        return cache;
      }
      after := DropOldest(cache, cacheSize * 3 / 4);
    }

    /** The first transactions, left where they are. */
    method Peek(limit: int) returns (out: seq<Tx>)
      requires Valid()
      ensures out == if 0 < limit < |order| then Queue()[..limit] else Queue()
    {
      var n := if limit <= 0 || limit > |order| then |order| else limit;
      out := [];
      var i := 0;
      while i < |order| && |out| < n
        invariant 0 <= i <= |order| && |out| == i <= n
        invariant out == Queue()[..i]
      {
        assert order[i] in order;
        if order[i] in byHash {
          out := out + [byHash[order[i]]];
        }
        i := i + 1;
      }
    }

    /** The same transactions, taken out: what stays is exactly the rest. */
    method Take(limit: int) returns (out: seq<Tx>)
      requires Valid()
      modifies this`order, this`byHash
      ensures Valid()
      ensures out == if 0 < limit < |old(order)| then old(Queue())[..limit] else old(Queue())
      ensures Queue() == if 0 < limit < |old(order)| then old(Queue())[limit..] else []
    {
      ghost var k := Clamp(limit, |order|);
      RestResolves(order, byHash, k);
      out, order, byHash := SplitOff(order, byHash, limit);
    }

    /** Drops transactions by hash; the list is compacted in place. */
    method RemoveByHash(hashes: seq<string>)
      requires Valid()
      modifies this`order, this`byHash
      ensures Valid()
      ensures order == Filter(old(order), h => h !in hashes)
      ensures Queue() == Filter(old(Queue()), t => id(t) !in hashes)
    {
      ghost var before := byHash;
      byHash := DeleteAll(byHash, hashes);
      var index := byHash;
      SameFilter(order, h => h !in hashes && h in index, h => h !in hashes);
      FilteredMembers(order, hashes);
      ResolvedFilter(order, before, index, hashes, id);
      FilterDistinct(order, h => h !in hashes);
      FilterLength(order, h => h !in hashes);
      order := CompactSlice(order, h => h !in hashes && h in index);
    }
  }

  /** The loop of `Take`: transactions out until the limit, the other hashes back into the list. */
  method SplitOff(order: seq<string>, byHash: map<string, Tx>, limit: int) returns (out: seq<Tx>,
      remain: seq<string>, index: map<string, Tx>)
    requires Distinct(order) && forall h | h in order :: h in byHash
    ensures var k := Clamp(limit, |order|);
            out == Resolve(order, byHash)[..k] && remain == order[k..] && index == Without(byHash, order[..k])
  {
    var n := if limit <= 0 then |order| else limit;
    ghost var k := Clamp(limit, |order|);
    ghost var queue := Resolve(order, byHash);
    out, remain, index := [], [], byHash;
    var i := 0;
    while i < |order|
      invariant 0 <= i <= |order|
      invariant out == queue[..if i < k then i else k]
      invariant remain == if i < k then [] else order[k..i]
      invariant index == Without(byHash, order[..if i < k then i else k])
    {
      if |out| < n {
        TakeNext(order, byHash, i);
        out := out + [index[order[i]]];
        index := index - {order[i]};
      } else {
        StaysBehind(order, byHash, k, i);
        if order[i] in index {
          remain := remain + [order[i]];
        }
      }
      i := i + 1;
    }
  }

  /** The index without some hashes. */
  function Without(byHash: map<string, Tx>, hashes: seq<string>): map<string, Tx> {
    map h | h in byHash && h !in hashes :: byHash[h]
  }

  lemma TakeNext(order: seq<string>, byHash: map<string, Tx>, i: nat)
    requires Distinct(order) && i < |order| && forall h | h in order :: h in byHash
    ensures order[i] in Without(byHash, order[..i])
    ensures Resolve(order, byHash)[..i + 1] == Resolve(order, byHash)[..i] + [byHash[order[i]]]
    ensures Without(byHash, order[..i]) - {order[i]} == Without(byHash, order[..i + 1])
  {
    assert order[i] in order && order[i] !in order[..i];
    assert order[..i + 1] == order[..i] + [order[i]];
  }

  lemma StaysBehind(order: seq<string>, byHash: map<string, Tx>, k: nat, i: nat)
    requires Distinct(order) && k <= i < |order| && forall h | h in order :: h in byHash
    ensures order[i] in Without(byHash, order[..k])
    ensures order[k..i + 1] == order[k..i] + [order[i]]
  {
    assert order[i] in order && order[i] !in order[..k];
  }

  lemma RestResolves(order: seq<string>, byHash: map<string, Tx>, k: nat)
    requires Distinct(order) && (forall h :: h in order <==> h in byHash) && k <= |order|
    ensures Distinct(order[k..])
    ensures forall h :: h in order[k..] <==> h in Without(byHash, order[..k])
    ensures Resolve(order[k..], Without(byHash, order[..k])) == Resolve(order, byHash)[k..]
  {
    assert order == order[..k] + order[k..];
    forall h | h in order[k..] ensures h !in order[..k] {
    }
  }

  /** The deletions of `RemoveByHash` in the index. */
  method DeleteAll(byHash: map<string, Tx>, hashes: seq<string>) returns (index: map<string, Tx>)
    ensures index == Without(byHash, hashes)
  {
    index := byHash;
    var i := 0;
    while i < |hashes|
      invariant 0 <= i <= |hashes|
      invariant index == Without(byHash, hashes[..i])
    {
      assert hashes[..i + 1] == hashes[..i] + [hashes[i]];
      index := index - {hashes[i]};
      i := i + 1;
    }
    assert hashes[..i] == hashes;
  }

  lemma FilteredMembers(order: seq<string>, hashes: seq<string>)
    ensures forall h :: h in Filter(order, h => h !in hashes) <==> h in order && h !in hashes
  {
    forall h ensures h in Filter(order, h => h !in hashes) <==> h in order && h !in hashes {
      FilterMembers(order, h => h !in hashes, h);
    }
  }

  /** Filtering the hashes and looking them up is filtering the transactions. */
  lemma {:induction false} ResolvedFilter(order: seq<string>, before: map<string, Tx>, index: map<string, Tx>,
      hashes: seq<string>, id: Tx -> string)
    requires forall h | h in order :: h in before && id(before[h]) == h
    requires forall h | h in order && h !in hashes :: h in index && index[h] == before[h]
    ensures forall h | h in Filter(order, h => h !in hashes) :: h in index
    ensures Resolve(Filter(order, h => h !in hashes), index) == Filter(Resolve(order, before), t => id(t) !in hashes)
    decreases |order|
  {
    FilteredMembers(order, hashes);
    if order != [] {
      var n := |order| - 1;
      ResolvedFilter(order[..n], before, index, hashes, id);
      assert Resolve(order, before)[..n] == Resolve(order[..n], before);
    }
  }
}
