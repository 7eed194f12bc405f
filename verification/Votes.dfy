/**
 Votes, what a validator signs for them, and the quorum rule (internal/consensus/vote.go).
 Signatures are abstract: a signature by an address covers exactly one message string.
 */
module Votes {
  import opened Text

  datatype VoteType = Prevote | Precommit

  const MAX_INT32 := 0x7fff_ffff
  const MIN_INT32 := -0x8000_0000

  /** Go's int32. */
  type Int32 = x: int | MIN_INT32 <= x <= MAX_INT32

  /** A vote; the empty hash is the nil vote. `voter` keeps the spelling it arrived with. */
  datatype Vote = Vote(vtype: VoteType, height: nat, round: Int32, hash: string, voter: string)

  function TypeName(t: VoteType): (r: string)
    ensures '|' !in r
  {
    if t == Prevote then "prevote" else "precommit"
  }

  /** A nil vote is written NIL on the wire. */
  function WireHash(hash: string): string {
    if hash == "" then "NIL" else hash
  }

  function RoundAndHash(v: Vote): string {
    Decimal(v.round) + "|" + WireHash(v.hash)
  }

  function HeightOn(v: Vote): string {
    Digits(v.height) + "|" + RoundAndHash(v)
  }

  /** EASTCHAIN_VOTE|{type}|{height}|{round}|{blockHash} */
  function BuildVoteMessage(v: Vote): string {
    "EASTCHAIN_VOTE" + "|" + (TypeName(v.vtype) + "|" + HeightOn(v))
  }

  lemma TypeNamesDiffer()
    ensures TypeName(Prevote) != TypeName(Precommit)
  {
    assert TypeName(Prevote)[3] == 'v' && TypeName(Precommit)[3] == 'c';
  }

  lemma HeightOnInjective(u: Vote, v: Vote)
    requires HeightOn(u) == HeightOn(v)
    ensures u.height == v.height && u.round == v.round && WireHash(u.hash) == WireHash(v.hash)
  {
    SplitFront(Digits(u.height), RoundAndHash(u), Digits(v.height), RoundAndHash(v));
    DigitsInjective(u.height, v.height);
    SplitFront(Decimal(u.round), WireHash(u.hash), Decimal(v.round), WireHash(v.hash));
    DecimalInjective(u.round, v.round);
  }

  /** Two votes with one message differ at most in how the nil hash is spelt. */
  lemma MessageInjective(u: Vote, v: Vote)
    requires BuildVoteMessage(u) == BuildVoteMessage(v)
    ensures u.vtype == v.vtype && u.height == v.height && u.round == v.round
    ensures WireHash(u.hash) == WireHash(v.hash)
  {
    var u1, v1 := TypeName(u.vtype) + "|" + HeightOn(u), TypeName(v.vtype) + "|" + HeightOn(v);
    SplitFront("EASTCHAIN_VOTE", u1, "EASTCHAIN_VOTE", v1);
    SplitFront(TypeName(u.vtype), HeightOn(u), TypeName(v.vtype), HeightOn(v));
    TypeNamesDiffer();
    HeightOnInjective(u, v);
  }

  /** The signed message determines the whole vote exactly when neither hash is the literal NIL
      standing in for an empty one. */
  lemma MessageDeterminesHash(u: Vote, v: Vote)
    requires BuildVoteMessage(u) == BuildVoteMessage(v)
    ensures u.hash == v.hash <==> ((u.hash == "NIL") == (v.hash == "NIL"))
  {
    MessageInjective(u, v);
  }

  /** Fewest distinct votes that make a +2/3 majority of n. */
  function QuorumSize(n: int): int {
    if n <= 0 then 0
    else if n == 1 then 1
    else (2 * n) / 3 + 1
  }

  /** The quorum is the least number above two thirds (for n >= 2), it is attainable, and any two
      quorums overlap in more members than a minority of faulty ones can fill. */
  lemma QuorumBounds(n: int, f: nat)
    requires n >= 1 ==> 3 * f < n
    ensures n <= 0 ==> QuorumSize(n) == 0
    ensures n >= 1 ==> 1 <= QuorumSize(n) <= n && 3 * QuorumSize(n) > 2 * n
    ensures n >= 2 ==> 3 * (QuorumSize(n) - 1) <= 2 * n
    ensures n >= 1 ==> 2 * QuorumSize(n) - n > f && QuorumSize(n) > f
  {
  }

  /** Inclusion-exclusion: two large subsets share a member outside a small third one. */
  lemma CommonHonest(members: set<string>, a: set<string>, b: set<string>, faulty: set<string>) returns (x: string)
    requires a <= members && b <= members
    requires |a| + |b| > |members| + |faulty|
    ensures x in a && x in b && x !in faulty
  {
    SubsetCard(a + b, members);
    assert |a + b| + |a * b| == |a| + |b|;
    if a * b <= faulty {
      SubsetCard(a * b, faulty);
    }
    x :| x in a * b && x !in faulty;
  }

  lemma {:induction false} SubsetCard<T>(a: set<T>, b: set<T>)
    requires a <= b
    ensures |a| <= |b|
    decreases a
  {
    if a != {} {
      var x :| x in a;
      SubsetCard(a - {x}, b - {x});
    }
  }
}
