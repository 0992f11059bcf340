/** The four service objects. Each runs its operations step by step against the shared
    `Database` and ends in exactly the state, and with exactly the result, that the `Ledger`,
    `Accounts` and `Profiles` functions describe. A wallet service creates its referral service
    when it is constructed; a referral service creates its wallet service lazily, the first time
    it needs one. */
module Services {
  import opened Errors
  import opened Ids
  import opened WalletModel
  import opened ReferralModel
  import opened PlayerModel
  import opened Persistence
  import Store
  import Ledger
  import Accounts
  import Profiles

  class WalletService {
    const store: Database
    const referralService: ReferralService

    /** Both services work on the same database. */
    predicate Valid()
    {
      referralService.store == store
    }

    constructor (store: Database)
      ensures this.store == store && Valid()
      ensures fresh(referralService) && referralService.walletService == null
    {
      this.store := store;
      referralService := new ReferralService(store);
    }

    method GetWalletByPlayerId(playerId: string) returns (r: Result<Wallet>)
      ensures r == Ledger.GetWalletByPlayerId(store.State(), playerId)
    {
      var wallet := Store.FindWallet(store.State(), playerId);
      if wallet.None? {
        return Err(NotFoundException(Ledger.WalletNotFoundMessage));
      }
      return Ok(wallet.value);
    }

    method Deposit(playerId: string, amount: int) returns (r: Result<Wallet>)
      requires Valid() && referralService.Valid()
      modifies store, referralService
      ensures (r, store.State()) == Ledger.Deposit(old(store.State()), playerId, amount)
      ensures referralService.Valid()
    {
      if amount < Ledger.MinDeposit || amount > Ledger.MaxDeposit {
        return Err(BadRequestException(Ledger.DepositRangeMessage));
      }
      var wallet := Store.FindWallet(store.State(), playerId);
      if wallet.None? {
        return Err(NotFoundException(Ledger.WalletNotFoundMessage));
      }
      var updated := wallet.value.(balance := wallet.value.balance + amount);
      var saved := store.SaveWallet(playerId, updated);
      if saved.Fail? {
        return Err(saved.failure);
      }
      store.InsertTransaction(WalletModel.Deposit, amount, playerId, None);
      var hook := referralService.ProcessDepositReferral(playerId, amount);
      if hook.Fail? {
        return Err(hook.failure);
      }
      return Ok(updated);
    }

    method Withdraw(playerId: string, amount: int) returns (r: Result<Wallet>)
      modifies store
      ensures (r, store.State()) == Ledger.Withdraw(old(store.State()), playerId, amount)
    {
      var wallet := Store.FindWallet(store.State(), playerId);
      if wallet.None? {
        return Err(NotFoundException(Ledger.WalletNotFoundMessage));
      }
      if wallet.value.balance < amount {
        return Err(BadRequestException(Ledger.InsufficientBalanceMessage));
      }
      var updated := wallet.value.(balance := wallet.value.balance - amount);
      var _ := store.SaveWallet(playerId, updated);
      store.InsertTransaction(Withdrawal, amount, playerId, None);
      return Ok(updated);
    }

    /** `Transaction.find({ playerId }).sort({ createdAt: -1 })`: one pass over the log in
        creation order, putting each of the player's entries in front of the ones found so far. */
    method GetTransactionHistory(playerId: string) returns (history: seq<Transaction>)
      ensures history == Ledger.History(store.transactions, playerId)
    {
      var txs := store.transactions;
      history := [];
      var j := 0;
      while j < |txs|
        invariant 0 <= j <= |txs|
        invariant history == Ledger.History(txs[..j], playerId)
      {
        assert txs[..j + 1][..j] == txs[..j];
        if txs[j].playerId == playerId {
          history := [txs[j]] + history;
        }
        j := j + 1;
      }
      assert txs[..j] == txs;
    }

    method CreditReferralBonus(playerId: string, amount: int, sourcePlayerId: string, kind: TransactionType) returns (r: Result<Wallet>)
      requires IsBonusType(kind)
      modifies store
      ensures (r, store.State()) == Ledger.CreditReferralBonus(old(store.State()), playerId, amount, sourcePlayerId, kind)
    {
      var wallet := Store.FindWallet(store.State(), playerId);
      if wallet.None? {
        return Err(NotFoundException(Ledger.WalletNotFoundMessage));
      }
      var updated := wallet.value.(balance := wallet.value.balance + amount);
      var saved := store.SaveWallet(playerId, updated);
      if saved.Fail? {
        return Err(saved.failure);
      }
      store.InsertTransaction(kind, amount, playerId, Some(sourcePlayerId));
      return Ok(updated);
    }
  }

  class ReferralService {
    const store: Database
    var walletService: WalletService?

    /** Once created, the wallet service works on the same database. */
    predicate Valid()
      reads this
    {
      walletService != null ==> walletService.store == store && walletService.Valid()
    }

    constructor (store: Database)
      ensures this.store == store && walletService == null
    {
      this.store := store;
      walletService := null;
    }

    /** Creates the wallet service on first use and keeps it afterwards. */
    method InitWalletService()
      requires Valid()
      modifies this
      ensures walletService != null && Valid()
      ensures old(walletService) != null ==> walletService == old(walletService)
      ensures old(walletService) == null ==> fresh(walletService)
    {
      if walletService == null {
        walletService := new WalletService(store);
      }
    }

    method ProcessRegistrationReferral(referrerId: string, referredId: string) returns (r: Outcome)
      requires Valid()
      modifies this, store
      ensures (r, store.State()) == Ledger.ProcessRegistrationReferral(old(store.State()), referrerId, referredId)
      ensures walletService != null && Valid()
      ensures old(walletService) != null ==> walletService == old(walletService)
    {
      InitWalletService();
      var inserted := store.InsertReferral(referrerId, referredId, Some(true));
      if inserted.Fail? {
        return inserted;
      }
      var credited := walletService.CreditReferralBonus(referrerId, Ledger.RegistrationBonusAmount, referredId, ReferralBonus);
      if credited.Err? {
        return Fail(credited.failure);
      }
      return Pass;
    }

    method ProcessDepositReferral(playerId: string, depositAmount: int) returns (r: Outcome)
      requires Valid()
      modifies this, store
      ensures (r, store.State()) == Ledger.ProcessDepositReferral(old(store.State()), playerId, depositAmount)
      ensures walletService != null && Valid()
      ensures old(walletService) != null ==> walletService == old(walletService)
    {
      InitWalletService();
      var player := FindPlayer(store.players, ById(playerId));
      if player.None? || player.value.referredBy.None? {
        return Pass;
      }
      var referrerId := player.value.referredBy.value;
      var found := FindReferral(store.referrals, referrerId, playerId);
      if found.None? {
        return Pass;
      }
      var bonus := Ledger.DepositBonusFor(depositAmount);
      store.AddDepositBonus(found.value, bonus, depositAmount, Some(Ledger.DepositBonusPercentage));
      var credited := walletService.CreditReferralBonus(referrerId, bonus, playerId, ReferralDepositBonus);
      if credited.Err? {
        return Fail(credited.failure);
      }
      return Pass;
    }

    /** `generateReferralLink`: the player is looked up by id and its code appended to the
        registration URL. */
    method GenerateReferralLink(playerId: string, baseUrl: string) returns (r: Result<string>)
      ensures r == Ledger.GenerateReferralLink(store.State(), playerId, baseUrl)
    {
      var player := FindPlayer(store.players, ById(playerId));
      if player.None? {
        return Err(NotFoundException(Ledger.PlayerNotFoundMessage));
      }
      r := Ok(baseUrl + Ledger.RegisterPath + player.value.referralCode);
    }

    /** `getReferredPlayers`: the referrer's referrals in creation order, each looked up by the
        referred player's id; a referral whose player is not stored contributes nothing. */
    method GetReferredPlayers(referrerId: string) returns (referred: seq<Ledger.PlayerSummary>)
      ensures referred == Ledger.ReferredPlayers(store.players, store.referrals, referrerId)
    {
      var rs := store.referrals;
      referred := [];
      var j := 0;
      while j < |rs|
        invariant 0 <= j <= |rs|
        invariant referred == Ledger.ReferredPlayers(store.players, rs[..j], referrerId)
      {
        assert rs[..j + 1][..j] == rs[..j];
        if rs[j].referrerId == referrerId {
          var player := FindPlayer(store.players, ById(rs[j].referredId));
          if player.Some? {
            referred := referred + [Ledger.Summary(player.value)];
          }
        }
        j := j + 1;
      }
      assert rs[..j] == rs;
    }

    /** `getReferralStats`: one pass over the referrals, counting the referrer's referrals and
        their registration bonuses and adding up their deposit bonuses. */
    method GetReferralStats(referrerId: string) returns (stats: Ledger.ReferralStats)
      ensures stats == Ledger.GetReferralStats(store.State(), referrerId)
    {
      var rs := store.referrals;
      var count, registrations, depositTotal := 0, 0, 0;
      var j := 0;
      while j < |rs|
        invariant 0 <= j <= |rs|
        invariant count == Ledger.CountReferrals(rs[..j], referrerId)
        invariant registrations == Ledger.CountRegistrationBonuses(rs[..j], referrerId)
        invariant depositTotal == Ledger.TotalDepositBonus(rs[..j], referrerId)
      {
        assert rs[..j + 1][..j] == rs[..j];
        if rs[j].referrerId == referrerId {
          count := count + 1;
          if rs[j].registrationBonus {
            registrations := registrations + 1;
          }
          depositTotal := depositTotal + Ledger.SumBonuses(rs[j].depositBonuses);
        }
        j := j + 1;
      }
      assert rs[..j] == rs;
      stats := Ledger.ReferralStats(count, registrations * Ledger.RegistrationBonusAmount, depositTotal);
    }
  }

  class AuthService {
    const store: Database
    const referralService: ReferralService

    predicate Valid()
      reads referralService
    {
      referralService.store == store && referralService.Valid()
    }

    constructor (store: Database)
      ensures this.store == store && Valid() && fresh(referralService)
    {
      this.store := store;
      referralService := new ReferralService(store);
    }

    method Register(dto: Accounts.RegisterDto, ipAddress: string, originUrl: string,
                    letterDraws: seq<nat>, digitDraws: seq<nat>, hash: string -> string) returns (r: Result<Accounts.Session>)
      requires ValidDraws(letterDraws, digitDraws) && Valid()
      modifies store, referralService
      ensures (r, store.State()) == Accounts.Register(old(store.State()), dto, ipAddress, originUrl, letterDraws, digitDraws, hash)
      ensures Valid()
    {
      if FindPlayer(store.players, ByPhoneNumber(dto.phoneNumber)).Some? {
        return Err(ConflictException(Accounts.PhoneTakenMessage));
      }
      var playerId := GeneratePlayerId(letterDraws, digitDraws);
      var player := Accounts.NewPlayer(dto, playerId, ipAddress, originUrl);
      var code := Accounts.SuppliedCode(dto);
      var referrerId: string;
      if code.Some? {
        var referrer := FindPlayer(store.players, ByReferralCode(code.value));
        if referrer.None? {
          return Err(BadRequestException(Accounts.InvalidReferralCodeMessage));
        }
        referrerId := referrer.value.id;
        player := player.(referredBy := Some(referrerId));
      }
      ghost var before := store.State();
      var saved := store.InsertPlayer(player, hash);
      if saved.Err? {
        return Err(saved.failure);
      }
      var created := store.InsertWallet(playerId);
      if created.Fail? {
        return Err(created.failure);
      }
      assert (saved, store.State()) == Accounts.SavePlayerAndWallet(before, player, hash);
      if code.Some? {
        var referred := referralService.ProcessRegistrationReferral(referrerId, playerId);
        if referred.Fail? {
          return Err(referred.failure);
        }
      }
      return Ok(Accounts.Session(saved.value, Accounts.TokenFor(saved.value)));
    }

    method Login(dto: Accounts.LoginDto, matches: (string, string) -> bool) returns (r: Result<Accounts.Session>)
      ensures r == Accounts.Login(store.State(), dto, matches)
    {
      var player := FindPlayer(store.players, ByPhoneNumber(dto.phoneNumber));
      if player.None? {
        return Err(UnauthorizedException(Accounts.InvalidCredentialsMessage));
      }
      if !matches(dto.password, player.value.password) {
        return Err(UnauthorizedException(Accounts.InvalidCredentialsMessage));
      }
      return Ok(Accounts.Session(player.value, Accounts.TokenFor(player.value)));
    }
  }

  class PlayerService {
    const store: Database

    constructor (store: Database)
      ensures this.store == store
    {
      this.store := store;
    }

    method GetPlayerProfile(playerId: string) returns (r: Result<Profiles.Profile>)
      ensures r == Profiles.GetPlayerProfile(store.State(), playerId)
    {
      var player := FindPlayer(store.players, ById(playerId));
      if player.None? {
        HasPlayerFind(store.players, playerId);
        return Err(NotFoundException(Profiles.PlayerNotFoundMessage));
      }
      var wallet := Store.FindWallet(store.State(), playerId);
      var balance := if wallet.Some? then wallet.value.balance else 0;
      return Ok(Profiles.Profile(player.value.id, player.value.name, player.value.phoneNumber, player.value.referralCode,
                                 balance, player.value.createdAt));
    }
  }
}
