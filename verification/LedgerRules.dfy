/**
 What validation accepts and what each kind of transaction does to the books, written out on the fields and
 proved of `Ledger.ValidateBasic` and `Ledger.Apply`.
 */
module LedgerRules {
  import opened Text
  import opened Accounts
  import opened Ledger

  // ---------------------------------------------------------------- what is valid

  /** A payload that names the mining bucket, or none, and carries an oracle signature. */
  predicate ClaimsMining(p: Payload) {
    p.Mining? && Lower(p.bucket) in {"", "mining"} && p.oracleSignature != ""
  }

  /** WHAT VALIDATION ACCEPTS: a known type, a sender, a positive amount, the sender's signature; for a transfer a
      recipient; for a mining claim at most a million, a payload for it and the configured oracle's signature. */
  lemma ValidIff(t: Tx, c: Checks)
    ensures ValidateBasic(t, c) <==>
              && !t.ttype.Unknown? && t.from != "" && t.amount > 0 && t.signature != "" && c.senderSigned
              && (t.ttype == Transfer ==> t.to != "")
              && (t.ttype == ClaimMining ==>
                    t.amount <= 1_000_000 && ClaimsMining(t.payload) && c.oracleConfigured && c.oracleSigned)
  {
    ClaimIff(t);
  }

  lemma ClaimIff(t: Tx)
    ensures ParseClaim(t).Some? <==> ClaimsMining(t.payload)
    ensures ParseClaim(t).Some? ==> ParseClaim(t).value == "mining"
  {
    if t.payload.Mining? {
      assert Lower("") == "";
      assert Lower(t.payload.bucket) == "" <==> t.payload.bucket == "";
    }
  }

  // ---------------------------------------------------------------- arithmetic

  /** The int64 that stands for a number: the one in range that differs from it by whole words. */
  lemma WrapIs(x: int)
    ensures -0x8000_0000_0000_0000 <= Wrap64(x) <= 0x7fff_ffff_ffff_ffff
    ensures (x - Wrap64(x)) % 0x1_0000_0000_0000_0000 == 0
  {
    var word := 0x1_0000_0000_0000_0000;
    if x < -0x8000_0000_0000_0000 || x > 0x7fff_ffff_ffff_ffff {
      var q := (x + 0x8000_0000_0000_0000) / word;
      assert x - Wrap64(x) == word * q;
    }
  }

  // ---------------------------------------------------------------- what is applied

  /** The account under an address as the store answers it: zeros if there is none. */
  function Holding(b: Books, addr: string): Account {
    if Norm(addr) in b.accounts then b.accounts[Norm(addr)] else Account(0, 0, 0, 0)
  }

  lemma HoldingIs(b: Books, addr: string)
    ensures Holding(b, addr) == Get(b.accounts, addr)
  {
    AllZeroIsZero(Account(0, 0, 0, 0));
  }

  /** The mining bucket exists and has room, as int64 adds, and the amount fits in subunits. */
  predicate CanMint(b: Books, t: Tx) {
    && ClaimsMining(t.payload) && t.amount > 0
    && "mining" in b.buckets && Wrap64(b.buckets["mining"].minted + t.amount) <= b.buckets["mining"].cap
    && t.amount * 1_000_000 <= 0x7fff_ffff_ffff_ffff
  }

  /** WHAT IS REFUSED: a nonce that is not above the sender's, unless it is 0; more than the sender has free, staked
      or pending, as the type asks; a claim that cannot be minted; an unknown type. Nothing else. */
  lemma RefusedIff(b: Books, t: Tx)
    requires t.amount <= 0x7fff_ffff_ffff_ffff
    ensures var a := Holding(b, t.from);
            Apply(b, t).None? <==>
              || 0 < t.nonce <= a.nonce
              || (t.ttype in {Transfer, Stake} && a.balance < t.amount)
              || (t.ttype == RequestUnstake && a.staked < t.amount)
              || (t.ttype == ClaimUnstake && a.pending < t.amount)
              || (t.ttype == ClaimMining && !CanMint(b, t))
              || t.ttype.Unknown?
  {
    HoldingIs(b, t.from);
    if t.ttype == ClaimMining {
      ClaimIff(t);
      if t.amount > 0 {
        DivisionTestIsExact(t.amount);
      }
    }
  }

  /** A transfer takes from the sender, sets its nonce and gives to the recipient; sent to oneself, only the
      last of it remains. */
  lemma TransferRule(b: Books, t: Tx)
    requires t.ttype == Transfer && Apply(b, t).Some?
    ensures var f, g, from, to := Norm(t.from), Norm(t.to), Holding(b, t.from), Holding(b, t.to);
            && Apply(b, t).value.buckets == b.buckets
            && Apply(b, t).value.accounts ==
                 if f == g then b.accounts[f := from.(balance := Wrap64(from.balance + t.amount))]
                 else b.accounts[f := from.(balance := Wrap64(from.balance - t.amount), nonce := t.nonce)]
                                [g := to.(balance := Wrap64(to.balance + t.amount))]
  {
    HoldingIs(b, t.from);
    HoldingIs(b, t.to);
  }

  /** Staking moves from the balance to the stake, requesting from the stake to the pending amount, claiming from
      there to the balance; each sets the nonce, and nothing else changes. */
  lemma StakingRule(b: Books, t: Tx)
    requires t.ttype in {Stake, RequestUnstake, ClaimUnstake} && Apply(b, t).Some?
    ensures var a := Holding(b, t.from);
            Apply(b, t).value == b.(accounts := b.accounts[Norm(t.from) :=
              if t.ttype == Stake
              then Account(Wrap64(a.balance - t.amount), Wrap64(a.staked + t.amount), a.pending, t.nonce)
              else if t.ttype == RequestUnstake
              then Account(a.balance, Wrap64(a.staked - t.amount), Wrap64(a.pending + t.amount), t.nonce)
              else Account(Wrap64(a.balance + t.amount), a.staked, Wrap64(a.pending - t.amount), t.nonce)])
  {
    HoldingIs(b, t.from);
  }

  /** A claim adds its amount to what the mining bucket has minted and a million times that to the balance. */
  lemma ClaimRule(b: Books, t: Tx)
    requires t.ttype == ClaimMining && Apply(b, t).Some?
    ensures "mining" in b.buckets
    ensures var a, bucket := Holding(b, t.from), b.buckets["mining"];
            && Apply(b, t).value.buckets ==
                 b.buckets["mining" := Bucket(bucket.cap, Wrap64(bucket.minted + t.amount))]
            && Apply(b, t).value.accounts ==
                 b.accounts[Norm(t.from) := a.(balance := Wrap64(a.balance + Wrap64(1_000_000 * t.amount)),
                                               nonce := t.nonce)]
  {
    HoldingIs(b, t.from);
    ClaimIff(t);
  }

  /** What a bucket has left: the cap less what is minted; nothing when that is negative. */
  lemma BucketLeftIs(buckets: map<string, Bucket>, name: string)
    requires name in buckets ==> 0 <= buckets[name].minted <= 0x7fff_ffff_ffff_ffff
                                 && 0 <= buckets[name].cap <= 0x7fff_ffff_ffff_ffff
    ensures BucketLeft(buckets, name).Some? <==> name in buckets
    ensures name in buckets ==>
              var left := BucketLeft(buckets, name).value;
              left >= 0 && (left > 0 || buckets[name].minted >= buckets[name].cap)
                && (left > 0 ==> left + buckets[name].minted == buckets[name].cap)
  {
  }
}
