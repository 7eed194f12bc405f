/**
 Accounts, supply buckets and transactions (internal/state/state.go:143-342, internal/tx/tx.go,
 internal/genesis/genesis.go). Amounts are int64: every Go addition, subtraction and product on them is
 written with its wrap-around, and a twin without it says what was meant.
 */
module Ledger {
  import opened Text
  import opened Accounts
  import opened Sums

  const MAX_INT64 := 0x7fff_ffff_ffff_ffff
  const SUBUNITS := 1_000_000
  const MAX_CLAIM := 1_000_000
  const MAX_SUPPLY := 1_000_000_000
  const CHAIN_ID := 172026
  const MINING := "mining"

  /** Human EAST in the 6-decimal subunits of balances. */
  function InSubunits(east: int): int {
    1_000_000 * east
  }

  /** Two's-complement int64 of a mathematical integer. */
  function Wrap64(x: int): (r: int)
    ensures -MAX_INT64 - 1 <= r <= MAX_INT64
    ensures -MAX_INT64 - 1 <= x <= MAX_INT64 ==> r == x
    ensures x > MAX_INT64 ==> r < x
  {
    if -0x8000_0000_0000_0000 <= x <= 0x7fff_ffff_ffff_ffff then x
    else (x + 0x8000_0000_0000_0000) % 0x1_0000_0000_0000_0000 - 0x8000_0000_0000_0000
  }

  /** Go's integer division rounds toward zero. */
  function TruncDiv(a: int, b: int): int
    requires b != 0
  {
    if a >= 0 then a / b else -((-a) / b)
  }

  // ---------------------------------------------------------------- transactions

  datatype TxType = Transfer | RequestUnstake | ClaimUnstake | Stake | ClaimMining | Unknown(name: string)

  datatype Payload = NoPayload | Malformed | Mining(bucket: string, oracleSignature: string)

  datatype Tx = Tx(ttype: TxType, from: string, to: string, amount: int, nonce: nat, timestamp: int,
    signature: string, payload: Payload)

  /** `ParseClaimMiningPayload`: the bucket to mint from, or nothing. */
  function ParseClaim(t: Tx): (r: Option<string>)
    ensures r.Some? ==> r.value == MINING
  {
    match t.payload
    case Mining(bucket, sig) =>
      if (bucket == "" || Lower(bucket) == MINING) && sig != "" then Some(MINING) else None
    case _ => None
  }

  /** The outcomes of the signature checks, which this model does not compute. */
  datatype Checks = Checks(oracleConfigured: bool, oracleSigned: bool, senderSigned: bool)

  /** `ValidateBasic`. */
  predicate ValidateBasic(t: Tx, c: Checks) {
    && t.from != "" && t.amount >= 0
    && (match t.ttype
        case Transfer => t.to != "" && t.amount > 0
        case RequestUnstake => t.amount > 0
        case ClaimUnstake => t.amount > 0
        case Stake => t.amount > 0
        case ClaimMining =>
          0 < t.amount <= MAX_CLAIM && ParseClaim(t).Some? && c.oracleConfigured && c.oracleSigned
        case Unknown(_) => false)
    && t.signature != "" && c.senderSigned
  }

  ghost predicate Validated(t: Tx) {
    exists c :: ValidateBasic(t, c)
  }

  predicate SelfTransfer(t: Tx) {
    t.ttype == Transfer && Norm(t.from) == Norm(t.to)
  }

  // ---------------------------------------------------------------- applying

  datatype Bucket = Bucket(cap: int, minted: int)

  datatype Books = Books(accounts: map<string, Account>, buckets: map<string, Bucket>)

  /** The account under a key; a missing one reads as zeros. */
  ghost function At(m: map<string, Account>, k: string): Account {
    if k in m then m[k] else Zero()
  }

  ghost function Get(m: map<string, Account>, addr: string): Account {
    At(m, Norm(addr))
  }

  function Put(b: Books, k: string, a: Account): Books {
    b.(accounts := b.accounts[k := a])
  }

  /** `mintFromBucketTxn`. */
  function Mint(buckets: map<string, Bucket>, name: string, amount: int): Option<map<string, Bucket>> {
    if amount <= 0 || name !in buckets then None
    else
      var b := buckets[name];
      if Wrap64(b.minted + amount) > b.cap then None
      else Some(buckets[name := b.(minted := Wrap64(b.minted + amount))])
  }

  /** `BucketRemaining`: what a bucket can still hand out, never negative. */
  function BucketLeft(buckets: map<string, Bucket>, name: string): Option<int> {
    if name !in buckets then None
    else
      var left := Wrap64(buckets[name].cap - buckets[name].minted);
      Some(if left < 0 then 0 else left)
  }

  /** `ApplyTx`: the new books, or nothing when the transaction is refused. */
  ghost function Apply(b: Books, t: Tx): Option<Books> {
    ApplyKeyed(b, t, Norm(t.from), Norm(t.to))
  }

  /** `ApplyTx` once the account keys of sender and recipient are known. */
  ghost function ApplyKeyed(b: Books, t: Tx, f: string, g: string): Option<Books> {
    var from := At(b.accounts, f);
    if t.nonce > 0 && t.nonce <= from.nonce then None
    else match t.ttype
      case Transfer =>
        if from.balance < t.amount then None
        else
          var to := At(b.accounts, g);
          Some(Put(Put(b, f, from.(balance := Wrap64(from.balance - t.amount), nonce := t.nonce)),
                   g, to.(balance := Wrap64(to.balance + t.amount))))
      case Stake =>
        if from.balance < t.amount then None
        else Some(Put(b, f, from.(balance := Wrap64(from.balance - t.amount),
          staked := Wrap64(from.staked + t.amount), nonce := t.nonce)))
      case RequestUnstake =>
        if from.staked < t.amount then None
        else Some(Put(b, f, from.(staked := Wrap64(from.staked - t.amount),
          pending := Wrap64(from.pending + t.amount), nonce := t.nonce)))
      case ClaimUnstake =>
        if from.pending < t.amount then None
        else Some(Put(b, f, from.(pending := Wrap64(from.pending - t.amount),
          balance := Wrap64(from.balance + t.amount), nonce := t.nonce)))
      case ClaimMining =>
        var bucket := ParseClaim(t);
        if bucket.None? then None
        else
          var minted := Mint(b.buckets, bucket.value, t.amount);
          if minted.None? then None
          else
            var credit := Wrap64(InSubunits(t.amount));
            if t.amount > 0 && TruncDiv(credit, t.amount) != SUBUNITS then None
            else Some(Put(b.(buckets := minted.value), f,
              from.(balance := Wrap64(from.balance + credit), nonce := t.nonce)))
      case Unknown(_) => None
  }

  /** The division test after the conversion to subunits catches exactly the products that do not fit. */
  lemma DivisionTestIsExact(amount: int)
    requires 0 < amount <= MAX_INT64
    ensures TruncDiv(Wrap64(InSubunits(amount)), amount) == SUBUNITS <==> InSubunits(amount) <= MAX_INT64
  {
    var p := InSubunits(amount);
    var c := Wrap64(p);
    if p <= MAX_INT64 {
      DivExact(p, amount, SUBUNITS);
    } else if c >= 0 {
      assert c < p;
      DivBelow(c, amount, SUBUNITS);
    }
  }

  lemma DivExact(p: int, d: int, q: int)
    requires d > 0 && p == q * d
    ensures p / d == q
  {
    var r := p / d;
    assert (q - r) * d == p % d;
    if q > r {
      MulAtLeast(q - r, d);
    } else if q < r {
      MulAtLeast(r - q, d);
    }
  }

  lemma MulAtLeast(a: int, d: int)
    requires a >= 1 && d > 0
    ensures a * d >= d
  {
  }

  lemma DivBelow(c: int, d: int, q: int)
    requires d > 0 && 0 <= c < q * d
    ensures c / d < q
  {
    assert (q - c / d) * d > 0;
  }

  // ---------------------------------------------------------------- totals

  function Worth(a: Account): int {
    a.balance + a.staked + a.pending
  }

  function Worths(m: map<string, Account>): map<string, int> {
    map k | k in m :: Worth(m[k])
  }

  /** Everything accounts hold: free, staked and pending. */
  ghost function Total(m: map<string, Account>): int {
    Sum(Worths(m))
  }

  /** What the account under a key holds. */
  function WorthAt(m: map<string, Account>, k: string): int {
    if k in m then Worth(m[k]) else 0
  }

  lemma WorthAtIs(m: map<string, Account>, k: string)
    ensures WorthAt(m, k) == Worth(At(m, k))
  {
    ZeroFields();
  }

  lemma WorthsAt(m: map<string, Account>, k: string)
    ensures WeightAt(Worths(m), k) == WorthAt(m, k)
  {
  }

  lemma WorthsUpdate(m: map<string, Account>, k: string, a: Account)
    ensures Worths(m[k := a]) == Worths(m)[k := Worth(a)]
  {
  }

  /** Writing one account changes the total by the difference in worth. */
  lemma TotalUpdate(m: map<string, Account>, k: string, a: Account)
    ensures Total(m[k := a]) == Total(m) - WorthAt(m, k) + Worth(a)
  {
    WorthsAt(m, k);
    var w := Worths(m);
    SumUpdate(w, k, Worth(a));
    WorthsUpdate(m, k, a);
  }

  ghost predicate NonNegative(m: map<string, Account>) {
    forall k | k in m :: m[k].balance >= 0 && m[k].staked >= 0 && m[k].pending >= 0
  }

  lemma TotalBounds(m: map<string, Account>, j: string, k: string)
    requires NonNegative(m)
    ensures 0 <= WorthAt(m, k) <= Total(m)
    ensures j != k ==> WorthAt(m, j) + WorthAt(m, k) <= Total(m)
  {
    WorthsAt(m, j);
    WorthsAt(m, k);
    SumBounds(Worths(m), j, k);
  }

  /** Human EAST the mining bucket can still hand out. */
  function Remaining(buckets: map<string, Bucket>): int {
    if MINING in buckets then buckets[MINING].cap - buckets[MINING].minted else 0
  }

  /** What is in accounts plus what mining may still add, in subunits. */
  ghost function Potential(b: Books): int {
    Total(b.accounts) + InSubunits(Remaining(b.buckets))
  }

  ghost predicate BucketsOk(buckets: map<string, Bucket>) {
    forall n | n in buckets :: 0 <= buckets[n].minted <= buckets[n].cap <= MAX_INT64 - MAX_CLAIM
  }

  /** Books in which nothing is negative, no bucket is over its cap, and everything that exists or can
      still be minted fits an int64. */
  ghost predicate Sound(b: Books) {
    NonNegative(b.accounts) && BucketsOk(b.buckets) && Potential(b) <= MAX_INT64
  }

  // ---------------------------------------------------------------- one transaction

  lemma RemainingOk(buckets: map<string, Bucket>)
    requires BucketsOk(buckets)
    ensures Remaining(buckets) >= 0
  {
  }

  lemma FieldsNonNegative(m: map<string, Account>, k: string)
    requires NonNegative(m)
    ensures At(m, k).balance >= 0 && At(m, k).staked >= 0 && At(m, k).pending >= 0
  {
    ZeroFields();
  }

  lemma AccountBounds(b: Books, j: string, k: string)
    requires Sound(b)
    ensures var a := At(b.accounts, k);
            a.balance >= 0 && a.staked >= 0 && a.pending >= 0
              && Worth(a) + InSubunits(Remaining(b.buckets)) <= MAX_INT64
    ensures Remaining(b.buckets) >= 0
    ensures j != k ==> Worth(At(b.accounts, j)) + Worth(At(b.accounts, k)) <= MAX_INT64
  {
    RemainingOk(b.buckets);
    TotalBounds(b.accounts, j, k);
    WorthAtIs(b.accounts, j);
    WorthAtIs(b.accounts, k);
    FieldsNonNegative(b.accounts, k);
  }

  /** Rewriting an account without changing its worth. */
  lemma MoveWithin(b: Books, k: string, a: Account)
    requires Sound(b) && a.balance >= 0 && a.staked >= 0 && a.pending >= 0
    requires Worth(a) == WorthAt(b.accounts, k)
    ensures Sound(Put(b, k, a)) && Potential(Put(b, k, a)) == Potential(b)
    ensures Total(Put(b, k, a).accounts) == Total(b.accounts)
  {
    TotalUpdate(b.accounts, k, a);
    NonNegativeUpdate(b.accounts, k, a);
    SoundAgain(b, Put(b, k, a));
  }

  lemma NonNegativeUpdate(m: map<string, Account>, k: string, a: Account)
    requires NonNegative(m) && a.balance >= 0 && a.staked >= 0 && a.pending >= 0
    ensures NonNegative(m[k := a])
  {
  }

  /** A transfer between two accounts as plain arithmetic. */
  lemma TransferIsExact(b: Books, t: Tx, f: string, g: string)
    requires t.ttype == Transfer && t.amount > 0 && f != g && ApplyKeyed(b, t, f, g).Some?
    requires 0 <= At(b.accounts, f).balance && 0 <= At(b.accounts, g).balance
    requires At(b.accounts, f).balance + At(b.accounts, g).balance <= MAX_INT64
    ensures var from, to := At(b.accounts, f), At(b.accounts, g);
            && 0 <= from.balance - t.amount && 0 <= to.balance
            && ApplyKeyed(b, t, f, g).value
              == b.(accounts := b.accounts[f := from.(balance := from.balance - t.amount, nonce := t.nonce)]
                                                              [g := to.(balance := to.balance + t.amount)])
  {
  }

  lemma MoveBetween(b: Books, t: Tx, f: string, g: string)
    requires Sound(b) && t.ttype == Transfer && t.amount > 0 && f != g
    requires ApplyKeyed(b, t, f, g).Some?
    ensures var b' := ApplyKeyed(b, t, f, g).value;
            Sound(b') && b'.buckets == b.buckets && Total(b'.accounts) == Total(b.accounts)
  {
    var from, to := At(b.accounts, f), At(b.accounts, g);
    var from' := from.(balance := from.balance - t.amount, nonce := t.nonce);
    var to' := to.(balance := to.balance + t.amount);
    AccountBounds(b, g, f);
    AccountBounds(b, f, g);
    TransferIsExact(b, t, f, g);
    TwoUpdates(b.accounts, f, from', g, to');
    WorthAtIs(b.accounts, f);
    WorthAtIs(b.accounts, g);
    SoundAgain(b, Books(b.accounts[f := from'][g := to'], b.buckets));
  }

  lemma SoundAgain(b: Books, b': Books)
    requires Sound(b) && NonNegative(b'.accounts) && BucketsOk(b'.buckets) && Potential(b') == Potential(b)
    ensures Sound(b')
  {
  }

  lemma TwoUpdates(m: map<string, Account>, f: string, from: Account, g: string, to: Account)
    requires NonNegative(m) && f != g
    requires from.balance >= 0 && from.staked >= 0 && from.pending >= 0 && to.balance >= 0 && to.staked >= 0
      && to.pending >= 0
    ensures NonNegative(m[f := from][g := to])
    ensures Total(m[f := from][g := to]) == Total(m) - WorthAt(m, f) - WorthAt(m, g) + Worth(from) + Worth(to)
  {
    NonNegativeUpdate(m, f, from);
    NonNegativeUpdate(m[f := from], g, to);
    TotalUpdate(m, f, from);
    TotalUpdate(m[f := from], g, to);
  }

  /** A mint of any bucket that goes through stays within the cap and adds exactly its amount, if and only if
      the sum fits an int64; a sum that wraps passes the test as well, and leaves the minted amount negative. */
  lemma MintExactIffNoWrap(buckets: map<string, Bucket>, name: string, amount: int)
    requires name in buckets && 0 <= buckets[name].minted <= buckets[name].cap <= MAX_INT64 && 0 < amount <= MAX_INT64
    ensures var b := buckets[name];
            && (Mint(buckets, name, amount).Some? <==> b.minted + amount <= b.cap || b.minted + amount > MAX_INT64)
            && (Mint(buckets, name, amount).Some? ==>
                  var b' := Mint(buckets, name, amount).value[name];
                  && (b'.minted == b.minted + amount <= b.cap <==> b.minted + amount <= MAX_INT64)
                  && (b'.minted < 0 <==> b.minted + amount > MAX_INT64)
                  && Mint(buckets, name, amount).value == buckets[name := b'])
  {
  }

  /** With caps that leave room for one more claim, no mint wraps. */
  lemma MintIsExact(buckets: map<string, Bucket>, amount: int)
    requires BucketsOk(buckets) && 0 < amount <= MAX_CLAIM && Mint(buckets, MINING, amount).Some?
    ensures MINING in buckets && buckets[MINING].minted + amount <= buckets[MINING].cap
    ensures Mint(buckets, MINING, amount).value
      == buckets[MINING := buckets[MINING].(minted := buckets[MINING].minted + amount)]
  {
    MintExactIffNoWrap(buckets, MINING, amount);
  }

  /** A mining claim as plain arithmetic. */
  lemma ClaimIsExact(b: Books, t: Tx, f: string, g: string)
    requires t.ttype == ClaimMining && 0 < t.amount <= MAX_CLAIM && BucketsOk(b.buckets)
    requires 0 <= At(b.accounts, f).balance && At(b.accounts, f).balance + InSubunits(Remaining(b.buckets)) <= MAX_INT64
    requires ApplyKeyed(b, t, f, g).Some?
    ensures var from := At(b.accounts, f);
            && MINING in b.buckets
            && var bucket := b.buckets[MINING];
            && bucket.minted + t.amount <= bucket.cap
            && ApplyKeyed(b, t, f, g).value
              == Books(b.accounts[f := from.(balance := from.balance + InSubunits(t.amount), nonce := t.nonce)],
                                                     b.buckets[MINING := bucket.(minted := bucket.minted + t.amount)])
  {
    MintIsExact(b.buckets, t.amount);
  }

  lemma MintAndCredit(b: Books, t: Tx, f: string, g: string)
    requires Sound(b) && t.ttype == ClaimMining && 0 < t.amount <= MAX_CLAIM
    requires ApplyKeyed(b, t, f, g).Some?
    ensures var b' := ApplyKeyed(b, t, f, g).value;
            && Sound(b') && Potential(b') == Potential(b)
            && Remaining(b'.buckets) == Remaining(b.buckets) - t.amount
            && Total(b'.accounts) == Total(b.accounts) + InSubunits(t.amount)
  {
    var from := At(b.accounts, f);
    var from' := from.(balance := from.balance + InSubunits(t.amount), nonce := t.nonce);
    AccountBounds(b, f, f);
    ClaimIsExact(b, t, f, g);
    NonNegativeUpdate(b.accounts, f, from');
    TotalUpdate(b.accounts, f, from');
    WorthAtIs(b.accounts, f);
    MintedBuckets(b.buckets, t.amount);
    SoundAgain(b, ApplyKeyed(b, t, f, g).value);
  }

  lemma MintedBuckets(buckets: map<string, Bucket>, amount: int)
    requires BucketsOk(buckets) && MINING in buckets && 0 < amount
      && buckets[MINING].minted + amount <= buckets[MINING].cap
    ensures var after := buckets[MINING := buckets[MINING].(minted := buckets[MINING].minted + amount)];
            BucketsOk(after) && Remaining(after) == Remaining(buckets) - amount
  {
  }

  /** The mining amount minted by a transaction, in human EAST. */
  function MintedBy(b: Books, b': Books): int {
    Remaining(b.buckets) - Remaining(b'.buckets)
  }

  /** CONSERVATION, one step. A validated transaction that is not a self-transfer keeps the books sound
      and the sum of accounts and mintable supply exactly; accounts grow by a million subunits per EAST
      minted and by nothing else. */
  lemma ApplyConserves(b: Books, t: Tx)
    requires Sound(b) && Validated(t) && !SelfTransfer(t) && Apply(b, t).Some?
    ensures var b' := Apply(b, t).value;
            && Sound(b') && Potential(b') == Potential(b)
            && Total(b'.accounts) == Total(b.accounts) + InSubunits(MintedBy(b, b'))
            && MintedBy(b, b') == (if t.ttype == ClaimMining then t.amount else 0)
  {
    ApplyKeyedConserves(b, t, Norm(t.from), Norm(t.to));
  }

  /** The amount rules of `ValidateBasic`. */
  predicate AmountOk(t: Tx) {
    t.amount > 0 && (t.ttype == ClaimMining ==> t.amount <= MAX_CLAIM)
  }

  lemma ApplyKeyedConserves(b: Books, t: Tx, f: string, g: string)
    requires Sound(b) && AmountOk(t) && (t.ttype == Transfer ==> f != g) && ApplyKeyed(b, t, f, g).Some?
    ensures var b' := ApplyKeyed(b, t, f, g).value;
            && Sound(b') && Potential(b') == Potential(b)
            && Total(b'.accounts) == Total(b.accounts) + InSubunits(MintedBy(b, b'))
            && MintedBy(b, b') == (if t.ttype == ClaimMining then t.amount else 0)
  {
    match t.ttype
    case Transfer => MoveBetween(b, t, f, g);
    case ClaimMining => MintAndCredit(b, t, f, g);
    case _ => StakingConserves(b, t, f, g);
  }

  lemma StakingConserves(b: Books, t: Tx, f: string, g: string)
    requires Sound(b) && t.amount > 0 && t.ttype != Transfer && t.ttype != ClaimMining && ApplyKeyed(b, t, f, g).Some?
    ensures var b' := ApplyKeyed(b, t, f, g).value;
            Sound(b') && b'.buckets == b.buckets && Total(b'.accounts) == Total(b.accounts)
  {
    var from := At(b.accounts, f);
    AccountBounds(b, f, f);
    var from' :=
      match t.ttype
      case Stake => from.(balance := from.balance - t.amount, staked := from.staked + t.amount, nonce := t.nonce)
      case RequestUnstake => from.(staked := from.staked - t.amount, pending := from.pending + t.amount,
        nonce := t.nonce)
      case _ => from.(pending := from.pending - t.amount, balance := from.balance + t.amount, nonce := t.nonce);
    assert ApplyKeyed(b, t, f, g).value == Put(b, f, from');
    WorthAtIs(b.accounts, f);
    MoveWithin(b, f, from');
  }

  /** A self-transfer that goes through does not move its amount, it adds it, as int64 has it: the credited
      copy of the account overwrites the debited one, nonce included. */
  lemma SelfTransferMints(b: Books, t: Tx)
    requires Sound(b) && Validated(t) && SelfTransfer(t) && Apply(b, t).Some?
    ensures var b', before := Apply(b, t).value, Get(b.accounts, t.from);
            && Total(b'.accounts) == Total(b.accounts) - before.balance + Wrap64(before.balance + t.amount)
            && Total(b'.accounts) != Total(b.accounts)
            && (before.balance + t.amount <= MAX_INT64 ==> Total(b'.accounts) == Total(b.accounts) + t.amount)
            && Get(b'.accounts, t.from).nonce == before.nonce
  {
    AccountBounds(b, Norm(t.from), Norm(t.from));
    SelfKeyedMints(b, t, Norm(t.from));
  }

  lemma SelfKeyedMints(b: Books, t: Tx, f: string)
    requires t.ttype == Transfer && t.amount > 0 && ApplyKeyed(b, t, f, f).Some?
    requires 0 <= At(b.accounts, f).balance <= MAX_INT64
    ensures var b', before := ApplyKeyed(b, t, f, f).value, At(b.accounts, f);
            && Total(b'.accounts) == Total(b.accounts) - before.balance + Wrap64(before.balance + t.amount)
            && Wrap64(before.balance + t.amount) != before.balance
            && At(b'.accounts, f).nonce == before.nonce
  {
    var from := At(b.accounts, f);
    var credited := from.(balance := Wrap64(from.balance + t.amount));
    TotalUpdate(b.accounts, f, credited);
    WorthAtIs(b.accounts, f);
    assert ApplyKeyed(b, t, f, f).value.accounts == b.accounts[f := credited];
  }

  /** So a transfer conserves the total exactly when its endpoints differ. */
  lemma TransferConservesIffDistinct(b: Books, t: Tx)
    requires Sound(b) && Validated(t) && t.ttype == Transfer && Apply(b, t).Some?
    ensures Total(Apply(b, t).value.accounts) == Total(b.accounts) <==> Norm(t.from) != Norm(t.to)
  {
    if SelfTransfer(t) {
      SelfTransferMints(b, t);
    } else {
      ApplyConserves(b, t);
    }
  }

  // ---------------------------------------------------------------- nonces

  /** A transaction that goes through raises its sender's nonce if and only if it carries one and is not
      a self-transfer; no other nonce changes. */
  lemma NonceRises(b: Books, t: Tx)
    requires Apply(b, t).Some?
    ensures var b' := Apply(b, t).value;
            && (Get(b'.accounts, t.from).nonce > Get(b.accounts, t.from).nonce <==> t.nonce >= 1 && !SelfTransfer(t))
            && (t.nonce >= 1 && !SelfTransfer(t) ==> Get(b'.accounts, t.from).nonce == t.nonce)
            && forall k | k != Norm(t.from) :: At(b'.accounts, k).nonce == At(b.accounts, k).nonce
  {
    NonceRisesKeyed(b, t, Norm(t.from), Norm(t.to));
  }

  lemma NonceRisesKeyed(b: Books, t: Tx, f: string, g: string)
    requires ApplyKeyed(b, t, f, g).Some?
    ensures var b' := ApplyKeyed(b, t, f, g).value;
            && (At(b'.accounts, f).nonce > At(b.accounts, f).nonce
              <==> t.nonce >= 1 && !(t.ttype == Transfer && f == g))
            && (t.nonce >= 1 && !(t.ttype == Transfer && f == g) ==> At(b'.accounts, f).nonce == t.nonce)
            && forall k | k != f :: At(b'.accounts, k).nonce == At(b.accounts, k).nonce
  {
  }

  /** With nonce 0 the check is skipped and the stored nonce falls back to 0, after which an old
      transaction goes through again. */
  lemma NonceZeroReplay()
    ensures var first := Tx(Stake, "a", "", 1, 3, 1, "s", NoPayload);
            var reset := Tx(Stake, "a", "", 1, 0, 1, "s", NoPayload);
            var b := Books(map["a" := Account(10, 0, 0, 0)], map[]);
            && Apply(b, first).Some?
            && Apply(Apply(b, first).value, first).None?
            && Apply(Apply(b, first).value, reset).Some?
            && Apply(Apply(Apply(b, first).value, reset).value, first).Some?
  {
    assert Norm("a") == "a";
  }

  // ---------------------------------------------------------------- runs

  /** A transaction with the account keys of its sender and recipient. */
  datatype Keyed = Keyed(tx: Tx, f: string, g: string)

  function Keys(txs: seq<Tx>): (r: seq<Keyed>)
    ensures |r| == |txs|
  {
    seq(|txs|, i requires 0 <= i < |txs| => Keyed(txs[i], Norm(txs[i].from), Norm(txs[i].to)))
  }

  ghost function ApplyOne(b: Books, x: Keyed): Option<Books> {
    ApplyKeyed(b, x.tx, x.f, x.g)
  }

  /** The books after the first k transactions, refused ones leaving no trace. */
  ghost function BooksAfter(b: Books, xs: seq<Keyed>, k: nat): Books
    requires k <= |xs|
  {
    if k == 0 then b
    else
      var prev := BooksAfter(b, xs, k - 1);
      var next := ApplyOne(prev, xs[k - 1]);
      if next.None? then prev else next.value
  }

  ghost function BooksAt(b: Books, txs: seq<Tx>, k: nat): Books
    requires k <= |txs|
  {
    BooksAfter(b, Keys(txs), k)
  }

  ghost predicate Succeeds(b: Books, txs: seq<Tx>, i: nat)
    requires i < |txs|
  {
    Apply(BooksAt(b, txs, i), txs[i]).Some?
  }

  predicate Endpoints(x: Keyed) {
    x.tx.ttype == Transfer ==> x.f != x.g
  }

  lemma {:induction false} RunKeyedConserves(b: Books, xs: seq<Keyed>, k: nat)
    requires Sound(b) && k <= |xs|
    requires forall i | 0 <= i < |xs| :: AmountOk(xs[i].tx) && Endpoints(xs[i])
    ensures var b' := BooksAfter(b, xs, k);
            && Sound(b') && Potential(b') == Potential(b)
            && Total(b'.accounts) == Total(b.accounts) + InSubunits(MintedBy(b, b'))
    decreases k
  {
    if k > 0 {
      RunKeyedConserves(b, xs, k - 1);
      var prev, x := BooksAfter(b, xs, k - 1), xs[k - 1];
      if ApplyOne(prev, x).Some? {
        ApplyKeyedConserves(prev, x.tx, x.f, x.g);
      }
    }
  }

  /** CONSERVATION, whole runs. Along any run of validated transactions without self-transfers the books
      stay sound, no bucket exceeds its cap, and the total is the initial one plus a million subunits for
      every EAST minted since. */
  lemma RunConserves(b: Books, txs: seq<Tx>, k: nat)
    requires Sound(b) && k <= |txs|
    requires forall i | 0 <= i < |txs| :: Validated(txs[i]) && !SelfTransfer(txs[i])
    ensures var b' := BooksAt(b, txs, k);
            && Sound(b') && Potential(b') == Potential(b)
            && Total(b'.accounts) == Total(b.accounts) + InSubunits(MintedBy(b, b'))
  {
    RunKeyedConserves(b, Keys(txs), k);
  }

  ghost predicate Passes(b: Books, xs: seq<Keyed>, i: nat)
    requires i < |xs|
  {
    ApplyOne(BooksAfter(b, xs, i), xs[i]).Some?
  }

  predicate NumberedOne(x: Keyed) {
    x.tx.nonce >= 1 && Endpoints(x)
  }

  ghost function NonceAt(b: Books, xs: seq<Keyed>, key: string, k: nat): nat
    requires k <= |xs|
  {
    At(BooksAfter(b, xs, k).accounts, key).nonce
  }

  lemma {:induction false} StepsUp(f: nat -> int, i: nat, j: nat)
    requires i <= j && forall k: nat | i <= k < j :: f(k) <= f(k + 1)
    ensures f(i) <= f(j)
    decreases j - i
  {
    if i < j {
      StepsUp(f, i, j - 1);
    }
  }

  lemma NonceGrows(b: Books, xs: seq<Keyed>, i: nat, j: nat, key: string)
    requires i <= j <= |xs| && forall k | 0 <= k < |xs| :: NumberedOne(xs[k])
    ensures NonceAt(b, xs, key, i) <= NonceAt(b, xs, key, j)
  {
    var f: nat -> int := (k: nat) => if k <= |xs| then NonceAt(b, xs, key, k) else 0;
    forall k: nat | i <= k < j ensures f(k) <= f(k + 1) {
      NonceKept(b, xs, k, key);
    }
    StepsUp(f, i, j);
    assert f(i) == NonceAt(b, xs, key, i) && f(j) == NonceAt(b, xs, key, j);
  }

  lemma NonceKept(b: Books, xs: seq<Keyed>, i: nat, key: string)
    requires i < |xs| && NumberedOne(xs[i])
    ensures NonceAt(b, xs, key, i) <= NonceAt(b, xs, key, i + 1)
  {
    var prev, x := BooksAfter(b, xs, i), xs[i];
    if ApplyOne(prev, x).Some? {
      NonceRisesKeyed(prev, x.tx, x.f, x.g);
    }
  }

  lemma NonceBar(b: Books, xs: seq<Keyed>, i: nat)
    requires i < |xs| && NumberedOne(xs[i]) && Passes(b, xs, i)
    ensures NonceAt(b, xs, xs[i].f, i) < xs[i].tx.nonce == NonceAt(b, xs, xs[i].f, i + 1)
  {
    NonceRisesKeyed(BooksAfter(b, xs, i), xs[i].tx, xs[i].f, xs[i].g);
  }

  lemma OnceKeyed(b: Books, xs: seq<Keyed>, i: nat, j: nat)
    requires i < j < |xs| && xs[i].f == xs[j].f && forall k | 0 <= k < |xs| :: NumberedOne(xs[k])
    requires Passes(b, xs, i) && Passes(b, xs, j)
    ensures xs[i].tx.nonce < xs[j].tx.nonce
  {
    NonceBar(b, xs, i);
    NonceBar(b, xs, j);
    NoncesOrdered(b, xs, i, j);
  }

  lemma NoncesOrdered(b: Books, xs: seq<Keyed>, i: nat, j: nat)
    requires i < j < |xs| && xs[i].f == xs[j].f && forall k | 0 <= k < |xs| :: NumberedOne(xs[k])
    requires NonceAt(b, xs, xs[i].f, i + 1) == xs[i].tx.nonce && NonceAt(b, xs, xs[j].f, j) < xs[j].tx.nonce
    ensures xs[i].tx.nonce < xs[j].tx.nonce
  {
    NonceGrows(b, xs, i + 1, j, xs[i].f);
  }

  /** EXACTLY ONCE. In a run of transactions with nonces of at least 1 and no self-transfers, two that
      succeed for one sender carry increasing nonces: no (sender, nonce) pair succeeds twice. */
  lemma ExactlyOnce(b: Books, txs: seq<Tx>, i: nat, j: nat)
    requires i < j < |txs| && Norm(txs[i].from) == Norm(txs[j].from)
    requires forall k | 0 <= k < |txs| :: txs[k].nonce >= 1 && !SelfTransfer(txs[k])
    requires Succeeds(b, txs, i) && Succeeds(b, txs, j)
    ensures txs[i].nonce < txs[j].nonce
  {
    OnceKeyed(b, Keys(txs), i, j);
  }
}
