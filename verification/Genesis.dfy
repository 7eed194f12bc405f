/**
 Genesis validation and the books it starts the chain with (internal/genesis/genesis.go,
 internal/state/state.go:70-127).
 */
module Genesis {
  import opened Text
  import opened Accounts
  import opened Ledger

  datatype NamedBucket = NamedBucket(name: string, supply: Bucket)

  datatype Seed = Seed(address: string, balance: int, staked: int)

  datatype Genesis = Genesis(chainId: int, totalMaxSupply: int, buckets: seq<NamedBucket>, seeds: seq<Seed>,
                             minValidatorStake: int, minFullnodeStake: int)

  // ---------------------------------------------------------------- wrapping sums

  const WORD := 0x1_0000_0000_0000_0000

  /** Wrapping takes off whole words. */
  lemma WrapIsModular(x: int) returns (q: int)
    ensures x == Wrap64(x) + WORD * q
  {
    if -0x8000_0000_0000_0000 <= x <= 0x7fff_ffff_ffff_ffff {
      q := 0;
    } else {
      q := (x + 0x8000_0000_0000_0000) / WORD;
    }
  }

  lemma WrapUnique(x: int, r: int, q: int)
    requires x == r + WORD * q && -MAX_INT64 - 1 <= r <= MAX_INT64
    ensures Wrap64(x) == r
  {
    var p := WrapIsModular(x);
    assert Wrap64(x) - r == WORD * (q - p);
  }

  /** Wrapping after every addition or once at the end comes to the same. */
  lemma WrapSum(a: int, b: int)
    ensures Wrap64(Wrap64(a) + b) == Wrap64(a + b)
  {
    var q := WrapIsModular(a);
    var p := WrapIsModular(Wrap64(a) + b);
    assert a + b == Wrap64(Wrap64(a) + b) + WORD * (p + q);
    WrapUnique(a + b, Wrap64(Wrap64(a) + b), p + q);
  }

  // ---------------------------------------------------------------- validation

  /** The true sum of the first k caps. */
  function CapSum(buckets: seq<NamedBucket>, k: nat): int
    requires k <= |buckets|
  {
    if k == 0 then 0 else CapSum(buckets, k - 1) + buckets[k - 1].supply.cap
  }

  function Caps(g: Genesis): int {
    CapSum(g.buckets, |g.buckets|)
  }

  predicate BucketOk(b: Bucket) {
    0 <= b.minted <= b.cap <= MAX_INT64
  }

  ghost predicate AllBucketsOk(buckets: seq<NamedBucket>) {
    forall i | 0 <= i < |buckets| :: BucketOk(buckets[i].supply)
  }

  function AtLeastZero(x: int): int {
    if x < 0 then 0 else x
  }

  /** What validation accepts, with the cap sum as int64 arithmetic has it. */
  ghost predicate Accepted(g: Genesis) {
    && (g.chainId == 0 || g.chainId == CHAIN_ID)
    && AllBucketsOk(g.buckets)
    && Wrap64(Caps(g)) == g.totalMaxSupply == MAX_SUPPLY
    && AtLeastZero(g.minFullnodeStake) <= AtLeastZero(g.minValidatorStake)
  }

  /** The defaults filled in on the way. */
  function Filled(g: Genesis): Genesis {
    g.(chainId := CHAIN_ID, minValidatorStake := AtLeastZero(g.minValidatorStake),
      minFullnodeStake := AtLeastZero(g.minFullnodeStake))
  }

  /** `Validate`; caps are int64, so each is at most MAX_INT64. */
  method Validate(g: Genesis) returns (r: Option<Genesis>)
    requires forall i | 0 <= i < |g.buckets| :: g.buckets[i].supply.cap <= MAX_INT64
    ensures r.Some? <==> Accepted(g)
    ensures r.Some? ==> r.value == Filled(g)
    ensures r.Some? <==>
              && (g.chainId == 0 || g.chainId == 172026)
              && (forall i | 0 <= i < |g.buckets| :: 0 <= g.buckets[i].supply.minted <= g.buckets[i].supply.cap)
              && Wrap64(Caps(g)) == g.totalMaxSupply == 1_000_000_000
              && (g.minFullnodeStake <= 0 || g.minFullnodeStake <= g.minValidatorStake)
    ensures r.Some? ==>
              && r.value.chainId == 172026 && r.value.totalMaxSupply == g.totalMaxSupply
              && r.value.buckets == g.buckets && r.value.seeds == g.seeds
              && r.value.minValidatorStake == (if g.minValidatorStake < 0 then 0 else g.minValidatorStake)
              && r.value.minFullnodeStake == (if g.minFullnodeStake < 0 then 0 else g.minFullnodeStake)
  {
    var h := g;
    if h.chainId == 0 {
      h := h.(chainId := CHAIN_ID);
    }
    if h.chainId != CHAIN_ID {
      return None;
    }
    var sum := 0;
    var i := 0;
    while i < |h.buckets|
      invariant 0 <= i <= |h.buckets|
      invariant sum == Wrap64(CapSum(g.buckets, i))
      invariant forall j | 0 <= j < i :: BucketOk(g.buckets[j].supply)
    {
      var b := h.buckets[i].supply;
      if b.cap < 0 || b.minted < 0 || b.minted > b.cap {
        assert !BucketOk(g.buckets[i].supply);
        return None;
      }
      WrapSum(CapSum(g.buckets, i), b.cap);
      sum := Wrap64(sum + b.cap);
      i := i + 1;
    }
    if sum != h.totalMaxSupply || h.totalMaxSupply != MAX_SUPPLY {
      return None;
    }
    if h.minValidatorStake < 0 {
      h := h.(minValidatorStake := 0);
    }
    if h.minFullnodeStake < 0 {
      h := h.(minFullnodeStake := 0);
    }
    if h.minFullnodeStake > h.minValidatorStake {
      return None;
    }
    r := Some(h);
  }

  /** An accepted genesis caps the supply at a billion exactly when its cap sum fits an int64. */
  lemma CapsAddUpIffNoWrap(g: Genesis)
    requires Accepted(g)
    ensures Caps(g) == MAX_SUPPLY <==> Caps(g) <= MAX_INT64
  {
    CapsNonNegative(g.buckets, |g.buckets|);
  }

  lemma {:induction false} CapsNonNegative(buckets: seq<NamedBucket>, k: nat)
    requires AllBucketsOk(buckets) && k <= |buckets|
    ensures CapSum(buckets, k) >= 0
    decreases k
  {
    if k > 0 {
      assert BucketOk(buckets[k - 1].supply);
      CapsNonNegative(buckets, k - 1);
    }
  }

  /** Three buckets whose caps run once around the int64 range pass as a billion. */
  lemma CapsWrapExample()
    ensures var big := Bucket(MAX_INT64, 0);
            var g := Genesis(CHAIN_ID, MAX_SUPPLY,
              [NamedBucket("a", big), NamedBucket("b", big), NamedBucket("c", Bucket(MAX_SUPPLY + 2, 0))], [], 0, 0);
            Accepted(g) && Caps(g) > MAX_SUPPLY
  {
    var big := Bucket(MAX_INT64, 0);
    var bs := [NamedBucket("a", big), NamedBucket("b", big), NamedBucket("c", Bucket(MAX_SUPPLY + 2, 0))];
    assert CapSum(bs, 1) == MAX_INT64;
    assert CapSum(bs, 2) == 2 * MAX_INT64;
    assert CapSum(bs, 3) == WORD + MAX_SUPPLY;
    WrapUnique(WORD + MAX_SUPPLY, MAX_SUPPLY, 1);
  }

  lemma {:induction false} CapBelowSum(buckets: seq<NamedBucket>, i: nat, k: nat)
    requires AllBucketsOk(buckets) && i < k <= |buckets|
    ensures buckets[i].supply.cap <= CapSum(buckets, k)
    decreases k
  {
    assert BucketOk(buckets[k - 1].supply);
    CapsNonNegative(buckets, k - 1);
    if i < k - 1 {
      CapBelowSum(buckets, i, k - 1);
    }
  }

  // ---------------------------------------------------------------- the first books

  /** Later entries of one name or address replace earlier ones. */
  function BucketTable(buckets: seq<NamedBucket>, k: nat): map<string, Bucket>
    requires k <= |buckets|
  {
    if k == 0 then map[] else BucketTable(buckets, k - 1)[buckets[k - 1].name := buckets[k - 1].supply]
  }

  function Seeded(s: Seed): Account {
    Account(s.balance, s.staked, 0, 0)
  }

  function AccountTable(seeds: seq<Seed>, k: nat): map<string, Account>
    requires k <= |seeds|
  {
    if k == 0 then map[] else AccountTable(seeds, k - 1)[Norm(seeds[k - 1].address) := Seeded(seeds[k - 1])]
  }

  function FirstBooks(g: Genesis): Books {
    Books(AccountTable(g.seeds, |g.seeds|), BucketTable(g.buckets, |g.buckets|))
  }

  /** No later key equals key i. */
  ghost predicate LastAt(keys: seq<string>, i: nat) {
    i < |keys| && forall j | i < j < |keys| :: keys[j] != keys[i]
  }

  /** The table has exactly the keys, each with the last value written under it. */
  ghost predicate HoldsLast<V(!new)>(table: map<string, V>, keys: seq<string>, values: seq<V>)
    requires |keys| == |values|
  {
    && table.Keys == Elements(keys)
    && forall i: nat | LastAt(keys, i) :: keys[i] in table && table[keys[i]] == values[i]
  }

  lemma HoldsNext<V(!new)>(table: map<string, V>, keys: seq<string>, values: seq<V>, k: string, v: V)
    requires |keys| == |values| && HoldsLast(table, keys, values)
    ensures HoldsLast(table[k := v], keys + [k], values + [v])
  {
    var more := keys + [k];
    assert Elements(more) == Elements(keys) + {k};
    forall i: nat | LastAt(more, i) ensures more[i] in table[k := v] && table[k := v][more[i]] == (values + [v])[i] {
      if i < |keys| {
        assert more[|keys|] == k;
        assert forall j | i < j < |keys| :: more[j] == keys[j];
        assert LastAt(keys, i);
      }
    }
  }

  /** The two properties leave no choice. */
  lemma HoldsLastUnique<V(!new)>(a: map<string, V>, b: map<string, V>, keys: seq<string>, values: seq<V>)
    requires |keys| == |values| && HoldsLast(a, keys, values) && HoldsLast(b, keys, values)
    ensures a == b
  {
    forall k | k in a ensures k in b && a[k] == b[k] {
      assert k in Elements(keys) && k in b.Keys;
      var i: nat :| i < |keys| && keys[i] == k;
      var last := LastOf(keys, i);
    }
    assert a.Keys == b.Keys;
  }

  lemma {:induction false} LastOf(keys: seq<string>, i: nat) returns (last: nat)
    requires i < |keys|
    ensures LastAt(keys, last) && keys[last] == keys[i]
    decreases |keys| - i
  {
    if j: nat :| i < j < |keys| && keys[j] == keys[i] {
      last := LastOf(keys, j);
    } else {
      last := i;
    }
  }

  /** WHO IS SEEDED, AND WITH WHAT. The accounts are those of the normalised seed addresses, and each holds the
      balance and the stake of its last seed, with nothing pending and no nonce. */
  ghost predicate HoldsSeeds(accounts: map<string, Account>, seeds: seq<Seed>) {
    HoldsLast(accounts, seq(|seeds|, i requires 0 <= i < |seeds| => Norm(seeds[i].address)),
              seq(|seeds|, i requires 0 <= i < |seeds| =>
                Account(balance := seeds[i].balance, staked := seeds[i].staked, pending := 0, nonce := 0)))
  }

  /** The buckets are those named, each with the cap and the minted amount of the last one of its name. */
  ghost predicate HoldsBuckets(table: map<string, Bucket>, buckets: seq<NamedBucket>) {
    HoldsLast(table, seq(|buckets|, i requires 0 <= i < |buckets| => buckets[i].name),
              seq(|buckets|, i requires 0 <= i < |buckets| =>
                Bucket(cap := buckets[i].supply.cap, minted := buckets[i].supply.minted)))
  }

  lemma SeedNext(accounts: map<string, Account>, seeds: seq<Seed>, s: Seed)
    requires HoldsSeeds(accounts, seeds)
    ensures HoldsSeeds(accounts[Norm(s.address) := Seeded(s)], seeds + [s])
  {
    var more := seeds + [s];
    var keys := seq(|seeds|, i requires 0 <= i < |seeds| => Norm(seeds[i].address));
    var values := seq(|seeds|, i requires 0 <= i < |seeds| => Account(seeds[i].balance, seeds[i].staked, 0, 0));
    HoldsNext(accounts, keys, values, Norm(s.address), Seeded(s));
    assert seq(|more|, i requires 0 <= i < |more| => Norm(more[i].address)) == keys + [Norm(s.address)];
    assert seq(|more|, i requires 0 <= i < |more| => Account(more[i].balance, more[i].staked, 0, 0))
        == values + [Seeded(s)];
  }

  lemma BucketNext(table: map<string, Bucket>, buckets: seq<NamedBucket>, b: NamedBucket)
    requires HoldsBuckets(table, buckets)
    ensures HoldsBuckets(table[b.name := b.supply], buckets + [b])
  {
    var more := buckets + [b];
    var keys := seq(|buckets|, i requires 0 <= i < |buckets| => buckets[i].name);
    var values := seq(|buckets|, i requires 0 <= i < |buckets| =>
                    Bucket(buckets[i].supply.cap, buckets[i].supply.minted));
    HoldsNext(table, keys, values, b.name, b.supply);
    assert seq(|more|, i requires 0 <= i < |more| => more[i].name) == keys + [b.name];
    assert seq(|more|, i requires 0 <= i < |more| => Bucket(more[i].supply.cap, more[i].supply.minted))
        == values + [b.supply];
  }

  lemma {:induction false} TableHoldsSeeds(seeds: seq<Seed>, k: nat)
    requires k <= |seeds|
    ensures HoldsSeeds(AccountTable(seeds, k), seeds[..k])
    decreases k
  {
    if k > 0 {
      TableHoldsSeeds(seeds, k - 1);
      SeedNext(AccountTable(seeds, k - 1), seeds[..k - 1], seeds[k - 1]);
      assert seeds[..k] == seeds[..k - 1] + [seeds[k - 1]];
    }
  }

  lemma {:induction false} TableHoldsBuckets(buckets: seq<NamedBucket>, k: nat)
    requires k <= |buckets|
    ensures HoldsBuckets(BucketTable(buckets, k), buckets[..k])
    decreases k
  {
    if k > 0 {
      TableHoldsBuckets(buckets, k - 1);
      BucketNext(BucketTable(buckets, k - 1), buckets[..k - 1], buckets[k - 1]);
      assert buckets[..k] == buckets[..k - 1] + [buckets[k - 1]];
    }
  }

  /** The tables of a genesis hold its seeds and its buckets. */
  lemma FirstBooksHold(g: Genesis)
    ensures HoldsSeeds(FirstBooks(g).accounts, g.seeds) && HoldsBuckets(FirstBooks(g).buckets, g.buckets)
  {
    TableHoldsSeeds(g.seeds, |g.seeds|);
    TableHoldsBuckets(g.buckets, |g.buckets|);
    assert g.seeds[..|g.seeds|] == g.seeds && g.buckets[..|g.buckets|] == g.buckets;
  }

  /** The writes of `InitGenesis` on a fresh store. */
  method InitGenesis(g: Genesis) returns (accounts: map<string, Account>, buckets: map<string, Bucket>)
    ensures Books(accounts, buckets) == FirstBooks(g)
    ensures HoldsSeeds(accounts, g.seeds) && HoldsBuckets(buckets, g.buckets)
  {
    buckets := WriteBuckets(g.buckets);
    accounts := WriteSeeds(g.seeds);
    FirstBooksHold(g);
  }

  method WriteBuckets(list: seq<NamedBucket>) returns (buckets: map<string, Bucket>)
    ensures buckets == BucketTable(list, |list|)
  {
    buckets := map[];
    var i := 0;
    while i < |list|
      invariant 0 <= i <= |list|
      invariant buckets == BucketTable(list, i)
    {
      buckets := buckets[list[i].name := list[i].supply];
      i := i + 1;
    }
  }

  method WriteSeeds(seeds: seq<Seed>) returns (accounts: map<string, Account>)
    ensures accounts == AccountTable(seeds, |seeds|)
  {
    accounts := map[];
    var i := 0;
    while i < |seeds|
      invariant 0 <= i <= |seeds|
      invariant accounts == AccountTable(seeds, i)
    {
      var a := seeds[i];
      accounts := accounts[Norm(a.address) := Account(a.balance, a.staked, 0, 0)];
      i := i + 1;
    }
  }

  lemma {:induction false} TableBucketsOk(buckets: seq<NamedBucket>, k: nat)
    requires AllBucketsOk(buckets) && k <= |buckets| && CapSum(buckets, |buckets|) == MAX_SUPPLY
    ensures forall n | n in BucketTable(buckets, k) ::
              0 <= BucketTable(buckets, k)[n].minted <= BucketTable(buckets, k)[n].cap <= MAX_SUPPLY
    decreases k
  {
    if k > 0 {
      TableBucketsOk(buckets, k - 1);
      CapBelowSum(buckets, k - 1, |buckets|);
      assert BucketOk(buckets[k - 1].supply);
    }
  }

  ghost predicate SeedsOk(seeds: seq<Seed>) {
    forall i | 0 <= i < |seeds| :: seeds[i].balance >= 0 && seeds[i].staked >= 0
  }

  lemma {:induction false} TableNonNegative(seeds: seq<Seed>, k: nat)
    requires SeedsOk(seeds) && k <= |seeds|
    ensures NonNegative(AccountTable(seeds, k))
    decreases k
  {
    if k > 0 {
      TableNonNegative(seeds, k - 1);
      NonNegativeUpdate(AccountTable(seeds, k - 1), Norm(seeds[k - 1].address), Seeded(seeds[k - 1]));
    }
  }

  /** An accepted genesis without wrapped caps or negative seeds, and with seeds that leave room for the
      billion, starts the chain with sound books. */
  lemma GenesisIsSound(g: Genesis)
    requires Accepted(g) && Caps(g) <= MAX_INT64 && SeedsOk(g.seeds)
    requires Total(FirstBooks(g).accounts) <= MAX_INT64 - InSubunits(MAX_SUPPLY)
    ensures Sound(FirstBooks(g))
  {
    CapsAddUpIffNoWrap(g);
    TableBucketsOk(g.buckets, |g.buckets|);
    TableNonNegative(g.seeds, |g.seeds|);
    assert Remaining(FirstBooks(g).buckets) <= MAX_SUPPLY;
  }

  /** SUPPLY FROM GENESIS. Whatever validated transactions without self-transfers follow such a genesis,
      at every point the accounts hold the seeded total plus a million subunits per EAST minted since, no
      bucket exceeds its cap, and nothing is negative or wraps. */
  lemma SupplyFromGenesis(g: Genesis, txs: seq<Tx>, k: nat)
    requires Accepted(g) && Caps(g) <= MAX_INT64 && SeedsOk(g.seeds) && k <= |txs|
    requires Total(FirstBooks(g).accounts) <= MAX_INT64 - InSubunits(MAX_SUPPLY)
    requires forall i | 0 <= i < |txs| :: Validated(txs[i]) && !SelfTransfer(txs[i])
    ensures var b, b' := FirstBooks(g), BooksAt(FirstBooks(g), txs, k);
            && Sound(b') && Total(b'.accounts) == Total(b.accounts) + InSubunits(MintedBy(b, b'))
            && Total(b'.accounts) <= Total(b.accounts) + InSubunits(MAX_SUPPLY)
  {
    GenesisIsSound(g);
    RunConserves(FirstBooks(g), txs, k);
    MintedAtMostSupply(g, BooksAt(FirstBooks(g), txs, k));
  }

  lemma MintedAtMostSupply(g: Genesis, b': Books)
    requires Accepted(g) && Caps(g) <= MAX_INT64 && BucketsOk(b'.buckets)
    ensures MintedBy(FirstBooks(g), b') <= MAX_SUPPLY
  {
    CapsAddUpIffNoWrap(g);
    TableBucketsOk(g.buckets, |g.buckets|);
    RemainingOk(b'.buckets);
  }
}
