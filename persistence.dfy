/** The document database the services share: one object holding the four collections and the
    clock, whose write methods change its fields exactly as the `Store` functions describe. */
module Persistence {
  import opened Errors
  import opened WalletModel
  import opened ReferralModel
  import opened PlayerModel
  import Store

  class Database {
    var players: seq<Player>
    var wallets: map<string, Wallet>
    var transactions: seq<Transaction>
    var referrals: seq<Referral>
    var clock: nat

    /** The collections as a value. */
    function State(): Store.State
      reads this
    {
      Store.State(players, wallets, transactions, referrals, clock)
    }

    constructor ()
      ensures State() == Store.Empty()
    {
      players, wallets, transactions, referrals, clock := [], map[], [], [], 0;
    }

    method InsertPlayer(p: Player, hash: string -> string) returns (r: Result<Player>)
      modifies this
      ensures (r, State()) == Store.InsertPlayer(old(State()), p, hash)
    {
      if MissingPaths(p) != [] {
        return Err(Rejected(MissingRequired(MissingPaths(p))));
      }
      if !Store.InsertablePlayer(players, p) {
        return Err(Rejected(DuplicateKey));
      }
      var saved := p.(password := hash(p.password), createdAt := clock);
      players, clock := players + [saved], clock + 1;
      return Ok(saved);
    }

    method InsertWallet(playerId: string) returns (r: Outcome)
      modifies this
      ensures (r, State()) == Store.InsertWallet(old(State()), playerId)
    {
      if playerId == "" {
        return Fail(Rejected(MissingRequired(["playerId"])));
      }
      if playerId in wallets {
        return Fail(Rejected(DuplicateKey));
      }
      wallets := wallets[playerId := NewWallet(playerId)];
      return Pass;
    }

    method SaveWallet(key: string, w: Wallet) returns (r: Outcome)
      requires key in wallets && w.playerId == wallets[key].playerId
      modifies this
      ensures (r, State()) == Store.SaveWallet(old(State()), key, w)
    {
      if w.balance < MinBalance {
        return Fail(Rejected(BelowMinimum("balance")));
      }
      wallets := wallets[key := w];
      return Pass;
    }

    method InsertTransaction(kind: TransactionType, amount: int, playerId: string, source: Option<string>)
      modifies this
      ensures State() == Store.InsertTransaction(old(State()), kind, amount, playerId, source)
    {
      transactions := transactions + [Transaction(kind, amount, playerId, source, clock)];
      clock := clock + 1;
    }

    method InsertReferral(referrerId: string, referredId: string, registrationBonus: Option<bool>) returns (r: Outcome)
      modifies this
      ensures (r, State()) == Store.InsertReferral(old(State()), referrerId, referredId, registrationBonus)
    {
      if referrerId == "" || referredId == "" {
        return Fail(Rejected(MissingRequired((if referrerId == "" then ["referrerId"] else []) + (if referredId == "" then ["referredId"] else []))));
      }
      if FindReferral(referrals, referrerId, referredId).Some? {
        return Fail(Rejected(DuplicateKey));
      }
      referrals := referrals + [NewReferral(referrerId, referredId, registrationBonus, clock)];
      clock := clock + 1;
      return Pass;
    }

    method AddDepositBonus(i: nat, amount: int, depositAmount: int, percentage: Option<int>)
      requires i < |referrals|
      modifies this
      ensures State() == Store.AddDepositBonus(old(State()), i, amount, depositAmount, percentage)
    {
      var r := referrals[i];
      referrals := referrals[i := r.(depositBonuses := r.depositBonuses + [NewDepositBonus(amount, depositAmount, percentage, clock)])];
      clock := clock + 1;
    }
  }
}
