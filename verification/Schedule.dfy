/**
 The validator roster and the leader rotation (internal/consensus/leader.go, internal/state/validators.go:35-80).
 Every way of writing down the same addresses gives the same sorted list, and everyone on it leads in turn.
 */
module Schedule {
  import opened Text
  import opened Sorting
  import opened Compaction

  // ---------------------------------------------------------------- one roster, one list

  /** The addresses meant by a list, whatever their case, spacing, order and repetition. */
  ghost function Roster(addrs: seq<string>): set<string> {
    set a | a in addrs && Norm(a) != "" :: Norm(a)
  }

  /** Every address of xs is in ys, in some spelling. */
  ghost predicate Covers(ys: seq<string>, xs: seq<string>) {
    forall a | a in xs :: exists b :: b in ys && Norm(b) == Norm(a)
  }

  lemma RosterPart(xs: seq<string>, ys: seq<string>)
    requires Covers(ys, xs)
    ensures Roster(xs) <= Roster(ys)
  {
    forall x | x in Roster(xs) ensures x in Roster(ys) {
      var a :| a in xs && Norm(a) == x;
      var b :| b in ys && Norm(b) == Norm(a);
    }
  }

  /** Two lists that spell the same addresses give the same roster and the same sorted list. */
  lemma RosterIgnoresSpelling(xs: seq<string>, ys: seq<string>)
    requires Covers(xs, ys) && Covers(ys, xs)
    ensures Roster(xs) == Roster(ys) && Listing(Roster(xs)) == Listing(Roster(ys))
  {
    RosterPart(xs, ys);
    RosterPart(ys, xs);
    SameSet(Roster(xs), Roster(ys));
  }

  lemma SameSet(a: set<string>, b: set<string>)
    requires a <= b && b <= a
    ensures a == b
  {
  }

  /** Normalising a normalised list changes nothing. */
  lemma RosterOfListing(s: set<string>)
    requires forall a | a in s :: Norm(a) == a != ""
    ensures Roster(Listing(s)) == s
  {
    var l := Listing(s);
    forall a | a in s ensures a in Roster(l) {
      assert a in Elements(l);
    }
    forall x | x in Roster(l) ensures x in s {
      var a :| a in l && Norm(a) == x;
      assert a in Elements(l);
    }
  }

  lemma RosterNext(addrs: seq<string>, i: nat)
    requires i < |addrs|
    ensures Roster(addrs[..i + 1]) == Roster(addrs[..i]) + (if Norm(addrs[i]) == "" then {} else {Norm(addrs[i])})
  {
    assert addrs[..i + 1] == addrs[..i] + [addrs[i]];
    forall x | x in Roster(addrs[..i]) ensures x in Roster(addrs[..i + 1]) {
      var a :| a in addrs[..i] && Norm(a) == x;
      assert a in addrs[..i + 1];
    }
    assert addrs[i] in addrs[..i + 1];
  }

  /** Normalise, drop blanks and repetitions. */
  method Collect(addrs: seq<string>) returns (list: seq<string>)
    ensures Distinct(list) && Elements(list) == Roster(addrs)
  {
    list := [];
    var i := 0;
    while i < |addrs|
      invariant 0 <= i <= |addrs|
      invariant Distinct(list) && Elements(list) == Roster(addrs[..i])
    {
      RosterNext(addrs, i);
      var a := Norm(addrs[i]);
      if a != "" && a !in list {
        assert Elements(list + [a]) == Elements(list) + {a};
        list := list + [a];
      }
      i := i + 1;
    }
    assert addrs[..i] == addrs;
  }

  // ---------------------------------------------------------------- the exchange sort

  lemma SwapKeeps(s: seq<string>, i: nat, j: nat)
    requires i < |s| && j < |s| && Distinct(s)
    ensures Distinct(s[i := s[j]][j := s[i]]) && Elements(s[i := s[j]][j := s[i]]) == Elements(s)
  {
    var r := s[i := s[j]][j := s[i]];
    forall x | x in s ensures x in r {
      var k :| 0 <= k < |s| && s[k] == x;
      assert x == r[if k == i then j else if k == j then i else k];
    }
  }

  ghost predicate SmallestUpTo(s: seq<string>, i: nat, hi: nat)
    requires i < hi <= |s|
  {
    forall q | i < q < hi :: Less(s[i], s[q])
  }

  /** The first i places hold their final elements. */
  ghost predicate Settled(s: seq<string>, i: nat)
    requires i <= |s|
  {
    forall p, q | 0 <= p < i && p < q < |s| :: Less(s[p], s[q])
  }

  /** Exchanging two later places disturbs no settled one. */
  lemma SwapKeepsSettled(s: seq<string>, i: nat, j: nat)
    requires i < j < |s| && Settled(s, i)
    ensures Settled(s[i := s[j]][j := s[i]], i)
  {
  }

  lemma SwapLowers(s: seq<string>, i: nat, j: nat)
    requires i < j < |s| && SmallestUpTo(s, i, j) && Less(s[j], s[i])
    ensures SmallestUpTo(s[i := s[j]][j := s[i]], i, j + 1)
  {
    var r := s[i := s[j]][j := s[i]];
    forall q | i < q < j + 1 ensures Less(r[i], r[q]) {
      if q < j {
        LessTransitive(s[j], s[i], s[q]);
      }
    }
  }

  method ExchangeRow(a: array<string>, i: nat)
    requires i < a.Length && Distinct(a[..]) && Settled(a[..], i)
    modifies a
    ensures Distinct(a[..]) && Elements(a[..]) == old(Elements(a[..])) && Settled(a[..], i + 1)
  {
    var j := i + 1;
    while j < a.Length
      invariant i < j <= a.Length
      invariant Distinct(a[..]) && Elements(a[..]) == old(Elements(a[..]))
      invariant Settled(a[..], i) && SmallestUpTo(a[..], i, j)
    {
      ghost var s := a[..];
      if Less(a[j], a[i]) {
        SwapKeeps(s, i, j);
        SwapKeepsSettled(s, i, j);
        SwapLowers(s, i, j);
        a[i], a[j] := a[j], a[i];
        assert a[..] == s[i := s[j]][j := s[i]];
      } else {
        LessTotal(s[i], s[j]);
      }
      j := j + 1;
    }
  }

  /** The hand-written exchange sort gives the same list as any other sort. */
  method ExchangeSort(a: array<string>)
    requires Distinct(a[..])
    modifies a
    ensures a[..] == Listing(old(Elements(a[..])))
  {
    var i := 0;
    while i < a.Length
      invariant 0 <= i <= a.Length
      invariant Distinct(a[..]) && Elements(a[..]) == old(Elements(a[..])) && Settled(a[..], i)
    {
      ExchangeRow(a, i);
      i := i + 1;
    }
    SortedUnique(a[..], Listing(Elements(a[..])));
  }

  datatype ValidatorSetRecord = ValidatorSetRecord(addresses: seq<string>, updatedAt: int, epoch: nat)

  /** Epochs count saves, as a uint64. */
  function NextEpoch(previous: Option<ValidatorSetRecord>): nat {
    if previous.None? then 1 else (previous.value.epoch + 1) % 0x1_0000_0000_0000_0000
  }

  method CollectSorted(addrs: seq<string>) returns (list: seq<string>)
    ensures list == Listing(Roster(addrs))
  {
    list := Collect(addrs);
    var a := new string[|list|](i requires 0 <= i < |list| => list[i]);
    assert a[..] == list;
    ExchangeSort(a);
    list := a[..];
  }

  /** `SaveValidatorSet`: the canonical list under the next epoch. */
  method SaveValidatorSet(previous: Option<ValidatorSetRecord>, addrs: seq<string>,
      now: int) returns (rec: ValidatorSetRecord)
    ensures rec == ValidatorSetRecord(Listing(Roster(addrs)), now, NextEpoch(previous))
    ensures previous.None? ==> rec.epoch == 1
    ensures previous.Some? ==> rec.epoch == (previous.value.epoch + 1) % 0x1_0000_0000_0000_0000
  {
    var list := CollectSorted(addrs);
    var epoch: nat := 1;
    if previous.Some? {
      epoch := (previous.value.epoch + 1) % 0x1_0000_0000_0000_0000;
    }
    rec := ValidatorSetRecord(list, now, epoch);
  }

  /** Addresses in normal form, none twice, in any order. */
  ghost predicate NormalList(list: seq<string>) {
    Distinct(list) && forall a | a in list :: Norm(a) == a != ""
  }

  // ---------------------------------------------------------------- rotation

  /** What decides eligibility: jail records, stakes, and the minimum stake. */
  datatype Standing = Standing(jailed: set<string>, staked: map<string, int>, minStake: int)

  function StakeOf(st: Standing, addr: string): int {
    if Norm(addr) in st.staked then st.staked[Norm(addr)] else 0
  }

  predicate IsEligible(st: Standing, addr: string) {
    Norm(addr) !in st.jailed && !(st.minStake > 0 && StakeOf(st, addr) < st.minStake)
  }

  /** The rotation: without a store everyone registered, otherwise everyone in good standing. */
  function Eligible(validators: seq<string>, store: Option<Standing>): seq<string> {
    if store.None? then validators else Filter(validators, a => IsEligible(store.value, a))
  }

  /** Eligible validators are the registered ones in good standing, still in order. */
  lemma EligibleFacts(validators: seq<string>, store: Option<Standing>, a: string)
    requires StrictlySorted(validators)
    ensures StrictlySorted(Eligible(validators, store))
    ensures a in Eligible(validators, store) <==>
              a in validators && (store.Some? ==>
                var st := store.value;
                && Norm(a) !in st.jailed
                && (st.minStake <= 0 || (if Norm(a) in st.staked then st.staked[Norm(a)] else 0) >= st.minStake))
  {
    if store.Some? {
      FilterOrder(validators, a => IsEligible(store.value, a), (x, y) => Less(x, y));
      FilterMembers(validators, a => IsEligible(store.value, a), a);
    }
  }

  function LeaderAt(eligible: seq<string>, local: string, height: nat): string {
    if |eligible| == 0 then local else eligible[height % |eligible|]
  }

  predicate LeadsLocally(eligible: seq<string>, local: string, height: nat) {
    if local == "" then |eligible| == 0 else Lower(LeaderAt(eligible, local, height)) == Lower(local)
  }

  /** Within n consecutive heights every residue occurs exactly once. */
  lemma ResidueOnce(n: nat, start: nat, r: nat) returns (h: nat)
    requires r < n
    ensures start <= h < start + n && h % n == r
    ensures forall k: nat | start <= k < start + n && k % n == r :: k == h
  {
    var s := start % n;
    h := if s <= r then start + (r - s) else start + (r + n - s);
    var q := start / n;
    assert start == q * n + s;
    ModOf(h, n, if s <= r then q else q + 1, r);
    forall k: nat | start <= k < start + n && k % n == r ensures k == h {
      SameResidue(k, h, n);
    }
  }

  lemma ModOf(x: nat, n: nat, q: nat, r: nat)
    requires r < n && x == q * n + r
    ensures x % n == r
  {
    var p := x / n;
    assert (p - q) * n == r - x % n;
    if p > q {
      Multiple(p - q, n);
    } else if p < q {
      Multiple(q - p, n);
    }
  }

  lemma Multiple(d: nat, n: nat)
    requires d >= 1
    ensures d * n >= n
  {
  }

  lemma SameResidue(x: nat, y: nat, n: nat)
    requires n > 0 && x % n == y % n && x - y < n && y - x < n
    ensures x == y
  {
    var p, q := x / n, y / n;
    assert (p - q) * n == x - y;
    if p > q {
      Multiple(p - q, n);
    } else if p < q {
      Multiple(q - p, n);
    }
  }

  /** FAIR ROTATION. While the eligible list stays the same, everyone on it leads exactly once in any
      run of as many heights as there are names. */
  lemma EachLeadsOnce(eligible: seq<string>, local: string, v: string, start: nat) returns (h: nat)
    requires StrictlySorted(eligible) && v in eligible
    ensures start <= h < start + |eligible| && LeaderAt(eligible, local, h) == v
    ensures forall k: nat | start <= k < start + |eligible| && LeaderAt(eligible, local, k) == v :: k == h
  {
    var i :| 0 <= i < |eligible| && eligible[i] == v;
    SortedDistinct(eligible);
    h := ResidueOnce(|eligible|, start, i);
    forall k: nat | start <= k < start + |eligible| && LeaderAt(eligible, local, k) == v ensures k == h {
      assert k % |eligible| == i;
    }
  }

  /** ONE LEADER AT A TIME. Two nodes with different addresses and one view of the roster both take
      themselves for the leader of a height if and only if nobody is eligible; then every node does. */
  lemma TwoLeadersIffNobodyEligible(eligible: seq<string>, a: string, b: string, height: nat)
    requires Norm(a) == a != "" && Norm(b) == b != "" && a != b
    ensures LeadsLocally(eligible, a, height) && LeadsLocally(eligible, b, height) <==> eligible == []
  {
    CanonicalIsNormal(a);
    CanonicalIsNormal(b);
  }

  /** A height with eligible validators has exactly one of them as its leader. */
  lemma ExactlyOneLeads(eligible: seq<string>, a: string, height: nat)
    requires eligible != [] && (forall v | v in eligible :: Norm(v) == v != "") && Norm(a) == a
    ensures LeadsLocally(eligible, a, height) <==> a == eligible[height % |eligible|]
  {
    var leader := eligible[height % |eligible|];
    assert leader in eligible;
    CanonicalIsNormal(leader);
    CanonicalIsNormal(a);
  }

  // ---------------------------------------------------------------- the schedule object

  /** WHO TAKES ITSELF FOR THE LEADER: anyone when nobody is eligible; otherwise the one whose turn the height is, up
      to case, and never a node without an address. */
  lemma LeadsIff(eligible: seq<string>, local: string, height: nat)
    ensures LeadsLocally(eligible, local, height) <==>
              eligible == [] || (local != "" && Lower(eligible[height % |eligible|]) == Lower(local))
    ensures LeaderAt(eligible, local, height) == if eligible == [] then local else eligible[height % |eligible|]
  {
  }

  class LeaderSchedule {
    var validators: seq<string>
    var localAddr: string
    var store: Option<Standing>
    var saved: Option<ValidatorSetRecord>   // the set persisted in the wired store

    /** The list is canonical, and what is persisted is in normal form. */
    ghost predicate Valid()
      reads this
    {
      && StrictlySorted(validators) && (forall a | a in validators :: Norm(a) == a != "")
      && Norm(localAddr) == localAddr
      && (saved.Some? ==> NormalList(saved.value.addresses))
    }

    constructor (localAddr: string)
      ensures Valid() && validators == [] && this.localAddr == Norm(localAddr) && store == None && saved == None
    {
      validators, this.localAddr, store, saved := [], Norm(localAddr), None, None;
      NormIdempotent(localAddr);
    }

    method SetStore(s: Standing, rec: Option<ValidatorSetRecord>)
      requires Valid() && (rec.Some? ==> NormalList(rec.value.addresses))
      modifies this`store, this`saved
      ensures Valid() && store == Some(s) && saved == rec
    {
      store, saved := Some(s), rec;
    }

    /** The canonical list takes effect and, when there is a store and anyone to save, is persisted under
        the next epoch. */
    method SetValidators(addrs: seq<string>, now: int)
      requires Valid()
      modifies this`validators, this`saved
      ensures validators == Listing(Roster(addrs))
      ensures saved == if store.Some? && Roster(addrs) != {}
                       then Some(ValidatorSetRecord(Listing(Roster(addrs)), now, NextEpoch(old(saved))))
                       else old(saved)
      ensures Valid()
    {
      var list := Collect(addrs);
      list := SortStrings(list);
      ListingIsNormal(addrs);
      EmptyListing(list);
      SortedDistinct(list);
      validators := list;
      if store.Some? && |list| > 0 {
        var rec := SaveValidatorSet(saved, list, now);
        RosterOfListing(Roster(addrs));
        saved := Some(rec);
      }
    }

    method AddValidator(raw: string)
      requires Valid()
      modifies this`validators
      ensures validators == Listing(old(Elements(validators)) + (if Norm(raw) == "" then {} else {Norm(raw)}))
      ensures Valid()
    {
      var addr := Norm(raw);
      NormIdempotent(raw);
      var i := 0;
      while i < |validators| && validators[i] != addr
        invariant 0 <= i <= |validators|
        invariant forall j | 0 <= j < i :: validators[j] != addr
      {
        i := i + 1;
      }
      if addr == "" || i < |validators| {
        assert Elements(validators) == Elements(validators) + (if addr == "" then {} else {addr});
        SortedUnique(validators, Listing(Elements(validators)));
      } else {
        SortedDistinct(validators);
        assert Elements(validators + [addr]) == Elements(validators) + {addr};
        ghost var before := validators;
        validators := SortStrings(validators + [addr]);
        InListing(Elements(before) + {addr});
      }
    }

    method RemoveValidator(raw: string)
      requires Valid()
      modifies this`validators
      ensures validators == Listing(old(Elements(validators)) - {Norm(raw)})
      ensures Valid()
    {
      var addr := Norm(raw);
      ghost var before := validators;
      validators := CompactSlice(validators, v => v != addr);
      FilterOrder(before, v => v != addr, (x, y) => Less(x, y));
      forall x ensures x in validators <==> x in before && x != addr {
        FilterMembers(before, v => v != addr, x);
      }
      assert Elements(validators) == Elements(before) - {addr};
      SortedUnique(validators, Listing(Elements(before) - {addr}));
    }

    /** `LoadFromStore`: takes over the persisted set, in whatever order it was written. */
    method LoadFromStore() returns (loaded: bool)
      requires Valid()
      modifies this`validators
      ensures loaded <==> store.Some? && saved.Some? && saved.value.addresses != []
      ensures validators == if loaded then Listing(Elements(saved.value.addresses)) else old(validators)
      ensures Valid()
    {
      if store.None? || saved.None? || |saved.value.addresses| == 0 {
        return false;
      }
      validators := SortStrings(saved.value.addresses);
      InListing(Elements(saved.value.addresses));
      loaded := true;
    }

    method EligibleValidators() returns (out: seq<string>)
      ensures out == Eligible(validators, store)
    {
      if store.None? {
        return validators;
      }
      out := [];
      var st := store.value;
      var i := 0;
      while i < |validators|
        invariant 0 <= i <= |validators|
        invariant out == Filter(validators[..i], a => IsEligible(st, a))
      {
        FilterNext(validators, a => IsEligible(st, a), i);
        var addr := validators[i];
        if Norm(addr) !in st.jailed && !(st.minStake > 0 && StakeOf(st, addr) < st.minStake) {
          out := out + [addr];
        }
        i := i + 1;
      }
      assert validators[..i] == validators;
    }

    method LeaderForHeight(height: nat) returns (leader: string)
      ensures leader == LeaderAt(Eligible(validators, store), localAddr, height)
    {
      var eligible := EligibleValidators();
      var n := |eligible|;
      if n == 0 {
        return localAddr;
      }
      if n == 1 {
        return eligible[0];
      }
      leader := eligible[height % n];
    }

    method IsLocalLeader(height: nat) returns (leads: bool)
      ensures leads == LeadsLocally(Eligible(validators, store), localAddr, height)
    {
      var leader := LeaderForHeight(height);
      var eligible := EligibleValidators();
      if localAddr == "" {
        return |eligible| == 0;
      }
      leads := Lower(leader) == Lower(localAddr);
    }
  }

  lemma InListing(s: set<string>)
    ensures forall a | a in Listing(s) :: a in s
  {
    forall a | a in Listing(s) ensures a in s {
      assert a in Elements(Listing(s));
    }
  }

  lemma ListingIsNormal(addrs: seq<string>)
    ensures forall a | a in Roster(addrs) :: Norm(a) == a != ""
    ensures forall a | a in Listing(Roster(addrs)) :: Norm(a) == a != ""
  {
    InListing(Roster(addrs));
    forall a | a in Roster(addrs) ensures Norm(a) == a != "" {
      var b :| b in addrs && Norm(b) == a;
      NormIdempotent(b);
    }
  }
}
