/** Accounts as the store keeps them (internal/state/state.go:19-24). */
module Accounts {
  /** Amounts are int64 subunits, the nonce a uint64. */
  datatype Account = Account(balance: int, staked: int, pending: int, nonce: nat)

  predicate AllZero(a: Account) {
    a.balance == 0 && a.staked == 0 && a.pending == 0 && a.nonce == 0
  }

  /** What a missing account reads as: the one account whose fields are all zero. */
  ghost function Zero(): Account {
    assert AllZero(Account(0, 0, 0, 0));
    var z :| AllZero(z);
    z
  }

  lemma ZeroFields()
    ensures AllZero(Zero())
  {
  }

  lemma AllZeroIsZero(a: Account)
    ensures AllZero(a) <==> a == Zero()
  {
  }

  /** A fresh account record. */
  method NewAccount() returns (a: Account)
    ensures a == Zero()
  {
    a := Account(0, 0, 0, 0);
    AllZeroIsZero(a);
  }
}
