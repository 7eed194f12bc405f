/**
 Snapshots (internal/state/backup.go:45-103, 190-252): the account table, the recent headers and the tip,
 exported from one store and imported into another.
 */
module Snapshot {
  import opened Text
  import opened Accounts
  import opened Merkle
  import opened Ledger
  import opened Chain
  import opened Blocks
  import opened Schedule
  import opened Store

  datatype BackupSnapshot = BackupSnapshot(
    chainId: int, latest: nat, accounts: map<string, Account>, recent: seq<Header>,
      validators: Option<ValidatorSetRecord>)

  // ---------------------------------------------------------------- exporting

  /** The exported accounts: all but one stored under the empty address, whose key is too short for the scan. */
  function Exported(accounts: map<string, Account>): map<string, Account> {
    map k | k in accounts && k != "" :: accounts[k]
  }

  /** The first height of an export of that many blocks. */
  function StartOf(latest: nat, maxBlocks: int): nat {
    var n := if maxBlocks <= 0 then 500 else maxBlocks;
    if latest > n then latest - n + 1 else 1
  }

  /** The retained headers of heights from start to before end, in order. */
  function HeadersBetween(blocks: map<nat, Header>, start: nat, end: nat): seq<Header>
    decreases end
  {
    if end <= start then []
    else HeadersBetween(blocks, start, end - 1) + (if end - 1 in blocks then [blocks[end - 1]] else [])
  }

  function Export(n: Node, validators: Option<ValidatorSetRecord>, chainId: int, maxBlocks: int): BackupSnapshot {
    BackupSnapshot(chainId, n.chain.tip, Exported(n.books.accounts),
                   HeadersBetween(n.chain.blocks, StartOf(n.chain.tip, maxBlocks), n.chain.tip + 1), validators)
  }

  method ExportAccounts(accounts: map<string, Account>) returns (out: map<string, Account>)
    ensures out == Exported(accounts)
  {
    out := map[];
    var left := accounts.Keys;
    while left != {}
      invariant left <= accounts.Keys
      invariant out == map k | k in accounts && k !in left && k != "" :: accounts[k]
      decreases left
    {
      var k :| k in left;
      if |k| > 0 {
        out := out[k := accounts[k]];
      }
      left := left - {k};
    }
  }

  method ExportBackup(s: Store, validators: Option<ValidatorSetRecord>, chainId: int,
      maxBlocks: int) returns (snap: BackupSnapshot)
    ensures snap == Export(s.View(), validators, chainId, maxBlocks)
    ensures snap.chainId == chainId && snap.latest == s.tip && snap.validators == validators
    ensures forall k :: k in snap.accounts <==> k in s.accounts && k != ""
    ensures forall k | k in snap.accounts :: snap.accounts[k] == s.accounts[k]
  {
    var limit := if maxBlocks <= 0 then 500 else maxBlocks;
    var accounts := ExportAccounts(s.accounts);
    var start := 1;
    if s.tip > limit {
      start := s.tip - limit + 1;
    }
    var recent: seq<Header> := [];
    var h := start;
    while h <= s.tip
      invariant start <= h <= s.tip + 1
      invariant recent == HeadersBetween(s.blocks, start, h)
    {
      if h in s.blocks {
        recent := recent + [s.blocks[h]];
      }
      h := h + 1;
    }
    snap := BackupSnapshot(chainId, s.tip, accounts, recent, validators);
  }

  // ---------------------------------------------------------------- importing accounts

  /** What the import takes for an unused account; pending unstakes are not looked at. */
  predicate Blank(a: Account) {
    a.balance == 0 && a.staked == 0 && a.nonce == 0
  }

  /** The import writes to the address, given an account for it. */
  ghost predicate Overwrites(before: map<string, Account>, k: string, force: bool) {
    force || Blank(At(before, k))
  }

  /** The table when the snapshot entries in done have been dealt with. */
  ghost function RestoredSome(before: map<string, Account>, snap: map<string, Account>, done: set<string>,
      force: bool): map<string, Account> {
    map k | k in before.Keys + (done * snap.Keys) && (k in before || Overwrites(before, k, force)) ::
      if k in done && k in snap && Overwrites(before, k, force) then snap[k] else before[k]
  }

  ghost function Restored(before: map<string, Account>, snap: map<string, Account>, force: bool): map<string, Account> {
    RestoredSome(before, snap, snap.Keys, force)
  }

  lemma MissingIsBlank(m: map<string, Account>, k: string)
    requires k !in m
    ensures Blank(At(m, k))
  {
    ZeroFields();
  }

  lemma RestoreNext(before: map<string, Account>, snap: map<string, Account>, done: set<string>, k: string, force: bool)
    requires k in snap && k !in done
    ensures var some := RestoredSome(before, snap, done, force);
            && At(some, k) == At(before, k)
            && RestoredSome(before, snap, done + {k}, force)
              == if Overwrites(before, k, force) then some[k := snap[k]] else some
  {
    if k !in before {
      MissingIsBlank(before, k);
    }
  }

  lemma RestoreNothing(before: map<string, Account>, snap: map<string, Account>, force: bool)
    ensures RestoredSome(before, snap, {}, force) == before
  {
  }

  /** What the restore does to a table when it takes the snapshot's addresses in the given order. */
  ghost function RestoreInOrder(before: map<string, Account>, snap: map<string, Account>, order: seq<string>,
      force: bool): map<string, Account>
    requires forall k | k in order :: k in snap
  {
    if order == [] then before
    else
      var n := |order| - 1;
      var m := RestoreInOrder(before, snap, order[..n], force);
      var key := Norm(order[n]);
      if force || Blank(At(m, key)) then m[key := snap[order[n]]] else m
  }

  /** What one address of a snapshot does: forced, or when the account there has no balance, stake and nonce, the
      snapshot's account replaces it; otherwise nothing happens. */
  lemma RestoreRule(before: map<string, Account>, snap: map<string, Account>, order: seq<string>, addr: string,
      force: bool)
    requires (forall k | k in order :: k in snap) && addr in snap
    ensures var m, k := RestoreInOrder(before, snap, order, force), Norm(addr);
            RestoreInOrder(before, snap, order + [addr], force) ==
              if !force && k in m && (m[k].balance != 0 || m[k].staked != 0 || m[k].nonce != 0) then m
              else m[k := Account(snap[addr].balance, snap[addr].staked, snap[addr].pending, snap[addr].nonce)]
  {
    var m := RestoreInOrder(before, snap, order, force);
    RestoreBack(before, snap, order, addr, force);
    if Norm(addr) !in m {
      MissingIsBlank(m, Norm(addr));
    }
  }

  /** THE ORDER DOES NOT MATTER when the snapshot's addresses are in normal form, as every export's are. */
  lemma {:induction false} AnyOrderRestores(before: map<string, Account>, snap: map<string, Account>,
      order: seq<string>, force: bool)
    requires NormalKeys(snap) && Distinct(order) && forall k | k in order :: k in snap
    ensures RestoreInOrder(before, snap, order, force) == RestoredSome(before, snap, Elements(order), force)
    decreases |order|
  {
    if order == [] {
      RestoreNothing(before, snap, force);
    } else {
      var init, last := order[..|order| - 1], order[|order| - 1];
      AnyOrderRestores(before, snap, init, force);
      assert order == init + [last];
      RestoreBack(before, snap, init, last, force);
      OneMoreRestored(before, snap, init, last, force);
    }
  }

  lemma OneMoreRestored(before: map<string, Account>, snap: map<string, Account>, init: seq<string>, last: string,
      force: bool)
    requires last in snap && Distinct(init + [last])
    ensures var some := RestoredSome(before, snap, Elements(init), force);
            && At(some, last) == At(before, last)
            && RestoredSome(before, snap, Elements(init + [last]), force)
              == if Overwrites(before, last, force) then some[last := snap[last]] else some
  {
    assert last !in init by {
      assert forall i | 0 <= i < |init| :: (init + [last])[i] == init[i];
      assert (init + [last])[|init|] == last;
    }
    assert Elements(init + [last]) == Elements(init) + {last};
    RestoreNext(before, snap, Elements(init), last, force);
  }

  /** It does with two spellings of one address: the last one taken wins. */
  lemma SpellingsRace(x: Account, y: Account)
    ensures var snap := map["A" := x, "a" := y];
            && RestoreInOrder(map[], snap, ["A", "a"], true) == map["a" := y]
            && RestoreInOrder(map[], snap, ["a", "A"], true) == map["a" := x]
  {
    var snap := map["A" := x, "a" := y];
    assert Norm("A") == "a" && Norm("a") == "a";
    LastWins(snap, "A", "a");
    LastWins(snap, "a", "A");
  }

  lemma LastWins(snap: map<string, Account>, first: string, last: string)
    requires first in snap && last in snap && Norm(first) == Norm(last)
    ensures RestoreInOrder(map[], snap, [first, last], true) == map[Norm(last) := snap[last]]
  {
    RestoreBack(map[], snap, [], first, true);
    RestoreBack(map[], snap, [first], last, true);
    assert [] + [first] == [first] && [first] + [last] == [first, last];
    var k := Norm(last);
    assert map[][k := snap[first]][k := snap[last]] == map[k := snap[last]];
  }

  lemma RestoreBack(before: map<string, Account>, snap: map<string, Account>, order: seq<string>, addr: string,
      force: bool)
    requires (forall k | k in order :: k in snap) && addr in snap
    ensures RestoreInOrder(before, snap, order + [addr], force) ==
              var m := RestoreInOrder(before, snap, order, force);
              if force || Blank(At(m, Norm(addr))) then m[Norm(addr) := snap[addr]] else m
  {
    assert (order + [addr])[..|order|] == order;
  }

  /** Without force, no order of any snapshot touches an account with balance, stake or nonce. */
  lemma {:induction false} UsedAccountsStay(before: map<string, Account>, snap: map<string, Account>,
      order: seq<string>, k: string)
    requires (forall a | a in order :: a in snap) && !Blank(At(before, k))
    ensures At(RestoreInOrder(before, snap, order, false), k) == At(before, k)
    decreases |order|
  {
    if order != [] {
      UsedAccountsStay(before, snap, order[..|order| - 1], k);
    }
  }

  // ---------------------------------------------------------------- when the order matters

  /** Some order in which all of the snapshot's addresses are taken once. */
  ghost predicate IsOrder(order: seq<string>, snap: map<string, Account>) {
    Distinct(order) && Elements(order) == snap.Keys && forall k | k in order :: k in snap
  }

  /** The import gives one table, in whatever order the addresses are taken. */
  ghost predicate OrderFree(before: map<string, Account>, snap: map<string, Account>, force: bool) {
    forall o1, o2 | IsOrder(o1, snap) && IsOrder(o2, snap) ::
      RestoreInOrder(before, snap, o1, force) == RestoreInOrder(before, snap, o2, force)
  }

  /** A spelling that can be the one that stays. Forced, every spelling can. Otherwise one in use can, and if
      none of the address is, every one can. */
  ghost predicate CanStay(snap: map<string, Account>, j: string, force: bool)
    requires j in snap
  {
    force || !Blank(snap[j]) || forall m | m in snap && Norm(m) == Norm(j) :: Blank(snap[m])
  }

  /** Any two spellings of one address that can stay, where the import writes, carry the same account. */
  ghost predicate SpellingsAgree(before: map<string, Account>, snap: map<string, Account>, force: bool) {
    forall j, k | j in snap && k in snap && Norm(j) == Norm(k) && Overwrites(before, Norm(j), force)
                  && CanStay(snap, j, force) && CanStay(snap, k, force) :: snap[j] == snap[k]
  }

  /** What an address holds after the given part of an order: as before, if none of its spellings was taken or it
      is in use; otherwise the account of a spelling taken, one in use if there was one. */
  ghost predicate Holds(before: map<string, Account>, snap: map<string, Account>, taken: seq<string>, force: bool,
      k: string, m: map<string, Account>)
    requires forall a | a in taken :: a in snap
  {
    if !Overwrites(before, k, force) || (forall a | a in taken :: Norm(a) != k)
    then (k in m <==> k in before) && (k in m ==> m[k] == before[k])
    else
      && k in m
      && exists j | j in taken ::
           && Norm(j) == k && m[k] == snap[j]
           && (force || !Blank(snap[j]) || forall a | a in taken && Norm(a) == k :: Blank(snap[a]))
  }

  lemma HoldsNext(before: map<string, Account>, snap: map<string, Account>, taken: seq<string>, addr: string,
      force: bool, k: string, m: map<string, Account>)
    requires (forall a | a in taken :: a in snap) && addr in snap && Holds(before, snap, taken, force, k, m)
    ensures var m' := if force || Blank(At(m, Norm(addr))) then m[Norm(addr) := snap[addr]] else m;
            Holds(before, snap, taken + [addr], force, k, m')
  {
    var m' := if force || Blank(At(m, Norm(addr))) then m[Norm(addr) := snap[addr]] else m;
    assert addr in taken + [addr];
    assert forall a | a in taken + [addr] :: a in taken || a == addr;
    assert forall a | a in taken :: a in taken + [addr];
    if Norm(addr) == k && Overwrites(before, k, force) && exists a | a in taken :: Norm(a) == k {
      var j :| j in taken && Norm(j) == k && m[k] == snap[j]
               && (force || !Blank(snap[j]) || forall a | a in taken && Norm(a) == k :: Blank(snap[a]));
      assert j in taken + [addr];
    }
  }

  lemma {:induction false} HoldsAfter(before: map<string, Account>, snap: map<string, Account>, order: seq<string>,
      force: bool, k: string)
    requires forall a | a in order :: a in snap
    ensures Holds(before, snap, order, force, k, RestoreInOrder(before, snap, order, force))
    decreases |order|
  {
    if order != [] {
      var init, last := order[..|order| - 1], order[|order| - 1];
      HoldsAfter(before, snap, init, force, k);
      assert order == init + [last];
      RestoreBack(before, snap, init, last, force);
      HoldsNext(before, snap, init, last, force, k, RestoreInOrder(before, snap, init, force));
    }
  }

  lemma TakenIsSnap(order: seq<string>, snap: map<string, Account>, a: string)
    requires IsOrder(order, snap)
    ensures a in order <==> a in snap
  {
    assert a in Elements(order) <==> a in order;
  }

  /** Where something was written, a spelling that can stay did stay. */
  lemma StaysAfter(before: map<string, Account>, snap: map<string, Account>, order: seq<string>, force: bool, k: string)
    requires IsOrder(order, snap)
    ensures var m := RestoreInOrder(before, snap, order, force);
            if !Overwrites(before, k, force) || (forall a | a in snap :: Norm(a) != k)
            then (k in m <==> k in before) && (k in m ==> m[k] == before[k])
            else k in m && exists j | j in snap :: Norm(j) == k && CanStay(snap, j, force) && m[k] == snap[j]
  {
    HoldsAfter(before, snap, order, force, k);
    forall a ensures a in order <==> a in snap {
      TakenIsSnap(order, snap, a);
    }
  }

  lemma SameAt(before: map<string, Account>, snap: map<string, Account>, o1: seq<string>, o2: seq<string>,
      force: bool, k: string)
    requires SpellingsAgree(before, snap, force) && IsOrder(o1, snap) && IsOrder(o2, snap)
    ensures SameEntry(RestoreInOrder(before, snap, o1, force), RestoreInOrder(before, snap, o2, force), k)
  {
    var m1, m2 := RestoreInOrder(before, snap, o1, force), RestoreInOrder(before, snap, o2, force);
    StaysAfter(before, snap, o1, force, k);
    StaysAfter(before, snap, o2, force, k);
    if Overwrites(before, k, force) && exists a | a in snap :: Norm(a) == k {
      var i :| i in snap && Norm(i) == k && CanStay(snap, i, force) && m1[k] == snap[i];
      var j :| j in snap && Norm(j) == k && CanStay(snap, j, force) && m2[k] == snap[j];
      assert snap[i] == snap[j];
    }
  }

  predicate SameEntry(m1: map<string, Account>, m2: map<string, Account>, k: string) {
    (k in m1 <==> k in m2) && (k in m1 && k in m2 ==> m1[k] == m2[k])
  }

  lemma SameTables(m1: map<string, Account>, m2: map<string, Account>)
    requires forall k :: SameEntry(m1, m2, k)
    ensures m1 == m2
  {
    assert forall k | k in m1 :: SameEntry(m1, m2, k);
    assert forall k | k in m2 :: SameEntry(m1, m2, k);
  }

  lemma AgreeingIsOrderFree(before: map<string, Account>, snap: map<string, Account>, force: bool)
    requires SpellingsAgree(before, snap, force)
    ensures OrderFree(before, snap, force)
  {
    forall o1, o2 | IsOrder(o1, snap) && IsOrder(o2, snap)
      ensures RestoreInOrder(before, snap, o1, force) == RestoreInOrder(before, snap, o2, force)
    {
      forall k ensures SameEntry(RestoreInOrder(before, snap, o1, force), RestoreInOrder(before, snap, o2, force), k) {
        SameAt(before, snap, o1, o2, force, k);
      }
      SameTables(RestoreInOrder(before, snap, o1, force), RestoreInOrder(before, snap, o2, force));
    }
  }

  /** An order that takes j first, and one that takes it last. */
  lemma FirstOrLast(snap: map<string, Account>, j: string) returns (rest: seq<string>)
    requires j in snap
    ensures IsOrder([j] + rest, snap) && IsOrder(rest + [j], snap) && j !in rest
  {
    rest := Listing(snap.Keys - {j});
    SortedDistinct(rest);
    InListing(snap.Keys - {j});
    assert Elements([j] + rest) == {j} + Elements(rest) == snap.Keys;
    assert Elements(rest + [j]) == Elements(rest) + {j} == snap.Keys;
  }

  lemma {:induction false} RestoreFront(before: map<string, Account>, snap: map<string, Account>, j: string,
      rest: seq<string>, force: bool)
    requires j in snap && forall a | a in rest :: a in snap
    ensures RestoreInOrder(before, snap, [j] + rest, force)
         == RestoreInOrder(RestoreInOrder(before, snap, [j], force), snap, rest, force)
    decreases |rest|
  {
    if rest == [] {
      assert [j] + rest == [j];
    } else {
      var init, last := rest[..|rest| - 1], rest[|rest| - 1];
      RestoreFront(before, snap, j, init, force);
      assert [j] + rest == ([j] + init) + [last] && rest == init + [last];
      RestoreBack(before, snap, [j] + init, last, force);
      RestoreBack(RestoreInOrder(before, snap, [j], force), snap, init, last, force);
    }
  }

  /** Every spelling that can stay does stay in some order. */
  lemma SomeOrderKeeps(before: map<string, Account>, snap: map<string, Account>, j: string,
      force: bool) returns (order: seq<string>)
    requires j in snap && CanStay(snap, j, force) && Overwrites(before, Norm(j), force)
    ensures IsOrder(order, snap)
    ensures var m := RestoreInOrder(before, snap, order, force); Norm(j) in m && m[Norm(j)] == snap[j]
  {
    var rest := FirstOrLast(snap, j);
    if !force && !Blank(snap[j]) {
      order := [j] + rest;
      UsedFirst(before, snap, j, rest);
    } else {
      order := rest + [j];
      RestoreBack(before, snap, rest, j, force);
      if !force {
        StillBlank(before, snap, rest, j);
      }
    }
  }

  lemma UsedFirst(before: map<string, Account>, snap: map<string, Account>, j: string, rest: seq<string>)
    requires j in snap && (forall a | a in rest :: a in snap) && !Blank(snap[j]) && Blank(At(before, Norm(j)))
    ensures var m := RestoreInOrder(before, snap, [j] + rest, false); Norm(j) in m && m[Norm(j)] == snap[j]
  {
    RestoreBack(before, snap, [], j, false);
    assert [] + [j] == [j];
    var m1 := RestoreInOrder(before, snap, [j], false);
    RestoreFront(before, snap, j, rest, false);
    UsedAccountsStay(m1, snap, rest, Norm(j));
    InUseIsThere(RestoreInOrder(m1, snap, rest, false), Norm(j));
  }

  lemma InUseIsThere(m: map<string, Account>, k: string)
    ensures !Blank(At(m, k)) ==> k in m
  {
    ZeroFields();
  }

  lemma StillBlank(before: map<string, Account>, snap: map<string, Account>, rest: seq<string>, j: string)
    requires (forall a | a in rest :: a in snap) && j in snap && Blank(At(before, Norm(j)))
    requires forall m | m in snap && Norm(m) == Norm(j) :: Blank(snap[m])
    ensures Blank(At(RestoreInOrder(before, snap, rest, false), Norm(j)))
  {
    HoldsAfter(before, snap, rest, false, Norm(j));
  }

  /** WHEN THE ORDER DOES NOT MATTER. An import gives the same table in every order if and only if any two
      spellings of one address that can be the one to stay carry the same account: forced, all spellings;
      without force, only where the target is unused, the ones in use, or all if none is. */
  lemma OrderFreeIff(before: map<string, Account>, snap: map<string, Account>, force: bool)
    ensures OrderFree(before, snap, force) <==> SpellingsAgree(before, snap, force)
  {
    if SpellingsAgree(before, snap, force) {
      AgreeingIsOrderFree(before, snap, force);
    }
    if OrderFree(before, snap, force) {
      forall j, k | j in snap && k in snap && Norm(j) == Norm(k) && Overwrites(before, Norm(j), force)
                    && CanStay(snap, j, force) && CanStay(snap, k, force)
        ensures snap[j] == snap[k]
      {
        var o1 := SomeOrderKeeps(before, snap, j, force);
        var o2 := SomeOrderKeeps(before, snap, k, force);
      }
    }
  }

  /** The restore loop, in whatever order the snapshot's accounts come. */
  method RestoreAccounts(before: map<string, Account>, snap: map<string, Account>, force: bool)
    returns (after: map<string, Account>, applied: nat, ghost order: seq<string>)
    ensures IsOrder(order, snap)
    ensures after == RestoreInOrder(before, snap, order, force)
    ensures NormalKeys(snap) ==> after == Restored(before, snap, force)
    ensures !force ==> forall k | !Blank(At(before, k)) :: At(after, k) == At(before, k)
  {
    after, applied, order := before, 0, [];
    var left := snap.Keys;
    while left != {}
      invariant left <= snap.Keys
      invariant Distinct(order) && Elements(order) == snap.Keys - left && (forall k | k in order :: k in snap)
      invariant after == RestoreInOrder(before, snap, order, force)
      decreases left
    {
      var addr :| addr in left;
      RestoreBack(before, snap, order, addr, force);
      OrderNext(order, addr, snap.Keys - left);
      var did;
      after, did := RestoreOne(after, addr, snap[addr], force);
      if did {
        applied := applied + 1;
      }
      order := order + [addr];
      left := left - {addr};
    }
    RestoredFacts(before, snap, order, force);
  }

  lemma RestoredFacts(before: map<string, Account>, snap: map<string, Account>, order: seq<string>, force: bool)
    requires IsOrder(order, snap)
    ensures NormalKeys(snap) ==> RestoreInOrder(before, snap, order, force) == Restored(before, snap, force)
    ensures !force ==>
              forall k | !Blank(At(before, k)) :: At(RestoreInOrder(before, snap, order, force), k) == At(before, k)
  {
    if NormalKeys(snap) {
      AnyOrderRestores(before, snap, order, force);
    }
    if !force {
      forall k | !Blank(At(before, k)) ensures At(RestoreInOrder(before, snap, order, false), k) == At(before, k) {
        UsedAccountsStay(before, snap, order, k);
      }
    }
  }

  lemma OrderNext(order: seq<string>, addr: string, done: set<string>)
    requires Distinct(order) && Elements(order) == done && addr !in done
    ensures Distinct(order + [addr]) && Elements(order + [addr]) == done + {addr}
    ensures forall k | k in order + [addr] :: k in order || k == addr
  {
    assert forall k | k in order :: k in Elements(order);
  }

  method RestoreOne(table: map<string, Account>, addr: string, acc: Account,
      force: bool) returns (after: map<string, Account>, did: bool)
    ensures did <==> force || Blank(At(table, Norm(addr)))
    ensures after == if did then table[Norm(addr) := acc] else table
  {
    var key := Norm(addr);
    var cur := NewAccount();
    if key in table {
      cur := table[key];
    }
    if !force && (cur.balance != 0 || cur.staked != 0 || cur.nonce != 0) {
      return table, false;
    }
    return table[key := acc], true;
  }

  /** SNAPSHOT ROUND TRIP, exactly. A forced import of an export reproduces the exporting store's accounts
      if and only if the importing store has no account of its own beyond them and already agrees on the
      one under the empty address, should there be one. */
  lemma RoundTripIff(src: map<string, Account>, dst: map<string, Account>)
    ensures Restored(dst, Exported(src), true) == src
       <==> Fits(dst, src)
  {
    var r := Restored(dst, Exported(src), true);
    if r == src {
      assert dst.Keys <= r.Keys;
      if "" in src {
        assert "" in r;
      }
    }
  }

  /** Without force an existing account is replaced exactly when it looks blank and some spelling of its
      address is in the snapshot: one that holds nothing but a pending unstake does look blank. It is then
      replaced by the account of a spelling that can stay. */
  lemma KeptWithoutForceIff(dst: map<string, Account>, snap: map<string, Account>, order: seq<string>, k: string)
    requires k in dst && IsOrder(order, snap)
    ensures var m := RestoreInOrder(dst, snap, order, false);
            && k in m
            && (!Blank(dst[k]) || (forall j | j in snap :: Norm(j) != k) ==> m[k] == dst[k])
            && (Blank(dst[k]) && (exists j | j in snap :: Norm(j) == k) ==>
                  exists j | j in snap :: Norm(j) == k && CanStay(snap, j, false) && m[k] == snap[j])
  {
    StaysAfter(dst, snap, order, false, k);
  }

  /** For a snapshot in normal form that is an if and only if. */
  lemma KeptIffNormal(dst: map<string, Account>, snap: map<string, Account>, order: seq<string>, k: string)
    requires k in dst && IsOrder(order, snap) && NormalKeys(snap)
    ensures var m := RestoreInOrder(dst, snap, order, false);
            k in m && (m[k] == dst[k] <==> k !in snap || !Blank(dst[k]) || snap[k] == dst[k])
  {
    KeptWithoutForceIff(dst, snap, order, k);
  }

  lemma PendingOnlyIsOverwritten()
    ensures RestoreInOrder(map["a" := Account(0, 0, 7, 0)], map["a" := Account(1, 2, 3, 4)], ["a"], false)
         == map["a" := Account(1, 2, 3, 4)]
  {
    var snap := map["a" := Account(1, 2, 3, 4)];
    var dst := map["a" := Account(0, 0, 7, 0)];
    assert Norm("a") == "a" && Blank(Account(0, 0, 7, 0));
    RestoreBack(dst, snap, [], "a", false);
    assert [] + ["a"] == ["a"] && dst["a" := snap["a"]] == snap;
  }

  // ---------------------------------------------------------------- importing headers and tip

  function SaveAll(c: Chain, headers: seq<Header>): Chain {
    if headers == [] then c else Append(SaveAll(c, headers[..|headers| - 1]), headers[|headers| - 1])
  }

  /** The chain after an import; the tip is forced to the snapshot's. */
  function ImportedChain(c: Chain, snap: BackupSnapshot): Chain {
    var saved := SaveAll(c, snap.recent);
    if snap.latest > 0 then saved.(tip := snap.latest) else saved
  }

  method ImportFullSnapshot(s: Store, chainId: int, snap: BackupSnapshot, force: bool,
      previous: Option<ValidatorSetRecord>, now: int)
    returns (ok: bool, validators: Option<ValidatorSetRecord>, ghost order: seq<string>)
    modifies s`accounts, s`blocks, s`tip
    ensures ok <==> snap.chainId == 0 || chainId == 0 || snap.chainId == chainId
    ensures IsOrder(order, snap.accounts)
    ensures s.accounts == if ok then RestoreInOrder(old(s.accounts), snap.accounts, order, force) else old(s.accounts)
    ensures s.View().chain == if ok then ImportedChain(old(s.View().chain), snap) else old(s.View().chain)
    ensures ok && snap.validators.Some? && snap.validators.value.addresses != [] ==>
              && validators.Some? && validators.value.updatedAt == now
              && validators.value.addresses == Listing(Roster(snap.validators.value.addresses))
              && validators.value.epoch == if previous.None? then 1
                                           else (previous.value.epoch + 1) % 0x1_0000_0000_0000_0000
    ensures !ok || snap.validators.None? || snap.validators.value.addresses == [] ==> validators == previous
  {
    validators := previous;
    if snap.chainId != 0 && chainId != 0 && snap.chainId != chainId {
      order := Listing(snap.accounts.Keys);
      SortedDistinct(order);
      InListing(snap.accounts.Keys);
      return false, previous, order;
    }
    var applied;
    s.accounts, applied, order := RestoreAccounts(s.accounts, snap.accounts, force);
    if snap.validators.Some? && |snap.validators.value.addresses| > 0 {
      var rec := SaveValidatorSet(previous, snap.validators.value.addresses, now);
      validators := Some(rec);
    }
    SaveHeaders(s, snap.recent);
    if snap.latest > 0 {
      s.tip := snap.latest;
    }
    ok := true;
  }

  method SaveHeaders(s: Store, headers: seq<Header>)
    modifies s`blocks, s`tip
    ensures s.View().chain == SaveAll(old(s.View().chain), headers)
  {
    var i := 0;
    while i < |headers|
      invariant 0 <= i <= |headers|
      invariant s.View().chain == SaveAll(old(s.View().chain), headers[..i])
    {
      assert headers[..i + 1][..i] == headers[..i];
      s.SaveBlock(headers[i]);
      i := i + 1;
    }
    assert headers[..i] == headers;
  }

  /** The tip after an import is the exporter's, unless the exporter is at height 0 and the importer is not. */
  lemma TipRoundTripIff(src: Node, validators: Option<ValidatorSetRecord>, dst: Chain, chainId: int, maxBlocks: int)
    ensures ImportedChain(dst, Export(src, validators, chainId, maxBlocks)).tip == src.chain.tip
      <==> src.chain.tip > 0 || dst.tip == 0
  {
  }

  /** Under a height: the last header of the list for it, else what was there before. */
  ghost predicate LatestAt(before: map<nat, Header>, hs: seq<Header>, after: map<nat, Header>, k: nat) {
    if forall i | 0 <= i < |hs| :: hs[i].height != k
    then (k in after <==> k in before) && (k in after ==> after[k] == before[k])
    else k in after && exists i | 0 <= i < |hs| ::
           hs[i].height == k && after[k] == hs[i] && forall j | i < j < |hs| :: hs[j].height != k
  }

  lemma LatestNext(before: map<nat, Header>, hs: seq<Header>, after: map<nat, Header>, h: Header, k: nat)
    requires LatestAt(before, hs, after, k)
    ensures LatestAt(before, hs + [h], after[h.height := h], k)
  {
    var more := hs + [h];
    assert more[|hs|] == h && forall i | 0 <= i < |hs| :: more[i] == hs[i];
    if h.height == k {
      assert more[|hs|].height == k;
    } else if exists i | 0 <= i < |hs| :: hs[i].height == k {
      var i :| 0 <= i < |hs| && hs[i].height == k && after[k] == hs[i] && forall j | i < j < |hs| :: hs[j].height != k;
      assert more[i].height == k;
    }
  }

  lemma {:induction false} SavedAt(c: Chain, hs: seq<Header>, k: nat)
    ensures LatestAt(c.blocks, hs, SaveAll(c, hs).blocks, k)
    decreases |hs|
  {
    if hs != [] {
      var n := |hs| - 1;
      SavedAt(c, hs[..n], k);
      LatestNext(c.blocks, hs[..n], SaveAll(c, hs[..n]).blocks, hs[n], k);
      assert hs == hs[..n] + [hs[n]];
    }
  }

  /** The chain after an import: under each height the last header of the snapshot for it, else the one that was
      there; the tip is the snapshot's, or that of the last header, or as it was. */
  lemma ImportedChainIs(c: Chain, snap: BackupSnapshot, k: nat)
    ensures var c', hs := ImportedChain(c, snap), snap.recent;
            && LatestAt(c.blocks, hs, c'.blocks, k)
            && c'.tip == if snap.latest > 0 then snap.latest else if hs == [] then c.tip else hs[|hs| - 1].height
  {
    SavedAt(c, snap.recent, k);
  }

  lemma SaveBack(c: Chain, headers: seq<Header>, h: Header)
    ensures SaveAll(c, headers + [h]).blocks == SaveAll(c, headers).blocks[h.height := h]
  {
    assert (headers + [h])[..|headers|] == headers;
  }

  lemma HeadersNext(blocks: map<nat, Header>, start: nat, last: nat)
    requires start <= last
    ensures HeadersBetween(blocks, start, last + 1)
         == if last in blocks then HeadersBetween(blocks, start, last) + [blocks[last]]
            else HeadersBetween(blocks, start, last)
  {
  }

  ghost predicate SavedUpTo(blocks: map<nat, Header>, start: nat, end: nat, tip: nat) {
    SaveAll(Chain(map[], tip), HeadersBetween(blocks, start, end)).blocks == Between(blocks, start, end)
  }

  lemma SavedNothing(blocks: map<nat, Header>, start: nat, end: nat, tip: nat)
    requires end <= start
    ensures SavedUpTo(blocks, start, end, tip)
  {
    assert Between(blocks, start, end) == map[];
  }

  lemma SavedNext(blocks: map<nat, Header>, start: nat, last: nat, tip: nat)
    requires start <= last && (last in blocks ==> blocks[last].height == last) && SavedUpTo(blocks, start, last, tip)
    ensures SavedUpTo(blocks, start, last + 1, tip)
  {
    HeadersNext(blocks, start, last);
    BetweenNext(blocks, start, last);
    if last in blocks {
      SaveBack(Chain(map[], tip), HeadersBetween(blocks, start, last), blocks[last]);
    }
  }

  lemma {:induction false} SavedBetween(blocks: map<nat, Header>, start: nat, end: nat, tip: nat)
    requires forall k | k in blocks :: blocks[k].height == k
    ensures SavedUpTo(blocks, start, end, tip)
    decreases end
  {
    if end <= start {
      SavedNothing(blocks, start, end, tip);
    } else {
      SavedBetween(blocks, start, end - 1, tip);
      SavedNext(blocks, start, end - 1, tip);
    }
  }

  lemma BetweenNext(blocks: map<nat, Header>, start: nat, last: nat)
    requires start <= last
    ensures Between(blocks, start, last + 1) ==
              if last in blocks then Between(blocks, start, last)[last := blocks[last]]
              else Between(blocks, start, last)
  {
  }

  function Between(blocks: map<nat, Header>, start: nat, end: nat): map<nat, Header> {
    map k | k in blocks && start <= k < end :: blocks[k]
  }

  /** A JOINER CATCHES UP. Importing the snapshot of a well-formed chain into a store without blocks gives a
      well-formed chain with the exporter's tip and its most recent blocks. */
  lemma JoinerGetsChain(f: Hashing, src: Node, validators: Option<ValidatorSetRecord>, chainId: int, maxBlocks: int)
    requires ChainOk(f, src.chain) && src.chain.tip > 0
    ensures var c := ImportedChain(Chain(map[], 0), Export(src, validators, chainId, maxBlocks));
            && ChainOk(f, c) && c.tip == src.chain.tip
            && (forall k :: k in c.blocks <==>
                  k in src.chain.blocks && k + (if maxBlocks <= 0 then 500 else maxBlocks) > src.chain.tip)
            && (forall k | k in c.blocks :: c.blocks[k] == src.chain.blocks[k])
            && c.tip in c.blocks && c.blocks[c.tip] == src.chain.blocks[c.tip]
  {
    var start, c := StartOf(src.chain.tip, maxBlocks), src.chain;
    SavedBetween(c.blocks, start, c.tip + 1, 0);
    RecentIsChain(f, c, start);
  }

  lemma RecentIsChain(f: Hashing, c: Chain, start: nat)
    requires ChainOk(f, c) && 1 <= start <= c.tip
    ensures ChainOk(f, Chain(Between(c.blocks, start, c.tip + 1), c.tip))
    ensures c.tip in c.blocks
  {
    var low: nat :| Contiguous(c, low);
    assert Contiguous(Chain(Between(c.blocks, start, c.tip + 1), c.tip), if start > low then start else low);
  }

  /** The importer's accounts are among the exporter's, and they agree on one under the empty address. */
  ghost predicate Fits(dst: map<string, Account>, src: map<string, Account>) {
    dst.Keys <= src.Keys && ("" in src ==> "" in dst && dst[""] == src[""])
  }

  /** FULL ROUND TRIP. After a forced import of an export, in whatever order the accounts are taken, the
      importer has the exporter's state root if and only if its accounts fitted, and then it has the
      exporter's accounts; and it has the exporter's tip unless that is 0 and its own was not. */
  lemma SnapshotRoundTrip(sha: Sha, src: Node, dst: Node, validators: Option<ValidatorSetRecord>, chainId: int,
      maxBlocks: int, order: seq<string>)
    requires NormalKeys(src.books.accounts) && NormalKeys(dst.books.accounts)
    requires var snap := Export(src, validators, chainId, maxBlocks);
             && IsOrder(order, snap.accounts)
             && var after := RestoreInOrder(dst.books.accounts, snap.accounts, order, true);
             Injective(sha, Encodings(Inputs(Hash(sha), SortedLeaves(after))
                                      + Inputs(Hash(sha), SortedLeaves(src.books.accounts))))
    ensures var snap := Export(src, validators, chainId, maxBlocks);
            var after := RestoreInOrder(dst.books.accounts, snap.accounts, order, true);
            && (StateRoot(Hash(sha), after) == StateRoot(Hash(sha), src.books.accounts)
              <==> Fits(dst.books.accounts, src.books.accounts))
            && (Fits(dst.books.accounts, src.books.accounts) <==> after == src.books.accounts)
            && (ImportedChain(dst.chain, snap).tip == src.chain.tip <==> src.chain.tip > 0 || dst.chain.tip == 0)
  {
    var a, d := src.books.accounts, dst.books.accounts;
    var snap := Export(src, validators, chainId, maxBlocks);
    AnyOrderRestores(d, snap.accounts, order, true);
    RoundTripIff(a, d);
    TipRoundTripIff(src, validators, dst.chain, chainId, maxBlocks);
    RestoredKeys(d, snap.accounts);
    RootsMeanTables(sha, RestoreInOrder(d, snap.accounts, order, true), a);
  }

  lemma RestoredKeys(before: map<string, Account>, snap: map<string, Account>)
    requires NormalKeys(before) && NormalKeys(snap)
    ensures NormalKeys(Restored(before, snap, true))
  {
  }

  lemma RootsMeanTables(sha: Sha, m1: map<string, Account>, m2: map<string, Account>)
    requires NormalKeys(m1) && NormalKeys(m2)
    requires Injective(sha, Encodings(Inputs(Hash(sha), SortedLeaves(m1)) + Inputs(Hash(sha), SortedLeaves(m2))))
    ensures StateRoot(Hash(sha), m1) == StateRoot(Hash(sha), m2) <==> m1 == m2
  {
    if StateRoot(Hash(sha), m1) == StateRoot(Hash(sha), m2) {
      StateRootCommits(sha, m1, m2);
    }
  }

  /** Export from one store and forced import into another, start to end. */
  method CopyState(src: Store, dst: Store, hash: Hasher, roster: Option<ValidatorSetRecord>,
      previous: Option<ValidatorSetRecord>, chainId: int, maxBlocks: int, now: int)
    returns (root: Digest, validators: Option<ValidatorSetRecord>)
    requires src != dst && NormalKeys(src.accounts)
    requires roster.Some? ==>
               var list := roster.value.addresses;
               list == Listing(Elements(list)) && NormalList(list)
    modifies dst`accounts, dst`blocks, dst`tip
    ensures dst.accounts == src.accounts <==> Fits(old(dst.accounts), src.accounts)
    ensures Fits(old(dst.accounts), src.accounts) ==> root == StateRoot(hash, src.accounts)
    ensures dst.tip == src.tip <==> src.tip > 0 || old(dst.tip) == 0
    ensures roster.Some? && roster.value.addresses != []
      ==> validators.Some? && validators.value.addresses == roster.value.addresses
  {
    var snap := ExportBackup(src, roster, chainId, maxBlocks);
    ghost var before := dst.accounts;
    TipRoundTripIff(src.View(), roster, dst.View().chain, chainId, maxBlocks);
    var ok;
    ghost var order;
    ok, validators, order := ImportFullSnapshot(dst, chainId, snap, true, previous, now);
    AnyOrderRestores(before, snap.accounts, order, true);
    RoundTripIff(src.accounts, before);
    if roster.Some? {
      ListRoundTrip(roster.value.addresses);
    }
    root := ComputeStateRoot(hash, dst.accounts);
  }

  lemma ListRoundTrip(list: seq<string>)
    requires list == Listing(Elements(list)) && NormalList(list)
    ensures Listing(Roster(list)) == list
  {
    assert forall a | a in Elements(list) :: a in list;
    RosterOfListing(Elements(list));
  }
}
