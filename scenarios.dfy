/** How the pieces fit together: the request validators against the engines they guard, and the
    referral flow the integration tests walk through (a parent registers, a child registers with
    the parent's code, the child deposits), followed on the model from an empty store. */
module Scenarios {
  import opened Errors
  import opened Ids
  import opened WalletModel
  import opened ReferralModel
  import opened PlayerModel
  import opened Store
  import Ledger
  import Accounts
  import Validation

  // ---------------------------------------------------------------------------------------------
  // Validators and engines

  /** The deposit validator and the wallet engine agree on the range: an amount the validator
      refuses is refused by the engine with the range error and changes nothing, and on a
      consistent store an amount it accepts is credited to any existing wallet. */
  lemma ValidatedDeposit(s: State, playerId: string, amount: int)
    requires Ledger.Consistent(s)
    ensures !Validation.ValidDeposit(Validation.AmountBody(Some(amount))) ==>
      Ledger.Deposit(s, playerId, amount) == (Err(BadRequestException(Ledger.DepositRangeMessage)), s)
    ensures Validation.ValidDeposit(Validation.AmountBody(Some(amount))) && playerId in s.wallets ==>
      Ledger.Deposit(s, playerId, amount).0.Ok?
  {
    Ledger.DepositConsistent(s, playerId, amount);
  }

  /** The withdrawal engine checks only the balance, so on its own it pays out a negative amount
      by raising the balance; the validator's minimum of 1 is what makes every accepted
      withdrawal lower it. */
  lemma ValidatedWithdrawal(s: State, playerId: string, amount: int)
    requires WellFormed(s)
    ensures Validation.ValidWithdrawal(Validation.AmountBody(Some(amount))) && Ledger.Withdraw(s, playerId, amount).0.Ok? ==>
      playerId in s.wallets && Ledger.Withdraw(s, playerId, amount).0.value.balance < s.wallets[playerId].balance
    ensures amount < 0 && playerId in s.wallets ==>
      && !Validation.ValidWithdrawal(Validation.AmountBody(Some(amount)))
      && Ledger.Withdraw(s, playerId, amount).0.Ok?
      && Ledger.Withdraw(s, playerId, amount).0.value.balance > s.wallets[playerId].balance
  {
  }

  /** The wallet integration tests' deposit figures, on a freshly created wallet of a player
      nobody referred: 1000 is credited in full, while 50 and 200000 fall outside the range and
      leave the store as it was. */
  lemma DepositTestFigures(s: State, playerId: string)
    requires playerId in s.wallets && s.wallets[playerId].balance == 0
    requires Ledger.PayingReferral(s, playerId).None?
    ensures Ledger.Deposit(s, playerId, 1000).0.Ok? && Ledger.Deposit(s, playerId, 1000).0.value.balance == 1000
    ensures Ledger.Deposit(s, playerId, 50) == (Err(BadRequestException(Ledger.DepositRangeMessage)), s)
    ensures Ledger.Deposit(s, playerId, 200000) == (Err(BadRequestException(Ledger.DepositRangeMessage)), s)
  {
    Ledger.DepositWithoutReferrer(s, playerId, 1000);
  }

  /** The wallet integration tests' withdrawal figures, from a balance of 1000: 500 leaves 500,
      and 2000 is refused as an insufficient balance without touching the store. */
  lemma WithdrawTestFigures(s: State, playerId: string)
    requires playerId in s.wallets && s.wallets[playerId].balance == 1000
    ensures Ledger.Withdraw(s, playerId, 500).0.Ok? && Ledger.Withdraw(s, playerId, 500).0.value.balance == 500
    ensures Ledger.Withdraw(s, playerId, 2000) == (Err(BadRequestException(Ledger.InsufficientBalanceMessage)), s)
  {
  }

  // ---------------------------------------------------------------------------------------------
  // The referral flow

  /** The fields registration requires are all supplied. */
  predicate Complete(dto: Accounts.RegisterDto, ipAddress: string, originUrl: string)
  {
    dto.name != "" && dto.phoneNumber != "" && dto.password != "" && ipAddress != "" && originUrl != ""
  }

  /** The first registration on an empty store, without a referral code, always succeeds and
      leaves the store holding that one player and its empty wallet. */
  lemma FirstRegistration(dto: Accounts.RegisterDto, ipAddress: string, originUrl: string,
                          letterDraws: seq<nat>, digitDraws: seq<nat>, hash: string -> string)
    requires ValidDraws(letterDraws, digitDraws) && Complete(dto, ipAddress, originUrl)
    requires Accounts.SuppliedCode(dto).None?
    ensures var (r, after) := Accounts.Register(Empty(), dto, ipAddress, originUrl, letterDraws, digitDraws, hash);
      && r.Ok? && Ledger.Consistent(after)
      && after == Accounts.WithPlayer(Empty(), r.value.player)
      && r.value.player.id == DrawnId(letterDraws, digitDraws)
      && r.value.player.referralCode == GenerateReferralCode(r.value.player.id)
      && r.value.player.phoneNumber == dto.phoneNumber
  {
    var playerId := DrawnId(letterDraws, digitDraws);
    var player := Accounts.NewPlayer(dto, playerId, ipAddress, originUrl);
    Ledger.EmptyConsistent();
    assert MissingPaths(player) == [];
    assert Accounts.CanRegister(Empty(), dto, ipAddress, originUrl, playerId);
    Accounts.RegisterWithoutCode(Empty(), dto, ipAddress, originUrl, letterDraws, digitDraws, hash);
  }

  /** The store after the first registration: the one player, its empty wallet, no referral. */
  lemma FirstStore(p: Player)
    ensures var s := Accounts.WithPlayer(Empty(), p);
      && s.players == [p] && s.referrals == []
      && p.id in s.wallets && s.wallets[p.id].balance == 0
  {
  }

  /** A registration with the referral code of a stored player, on a store holding only that
      player, succeeds: the new player is referred by that player, the referral is stored, and
      the referrer is credited the registration bonus. */
  lemma ReferredRegistration(s: State, parent: Player, dto: Accounts.RegisterDto, ipAddress: string, originUrl: string,
                             letterDraws: seq<nat>, digitDraws: seq<nat>, hash: string -> string)
    requires ValidDraws(letterDraws, digitDraws) && Complete(dto, ipAddress, originUrl)
    requires Ledger.Consistent(s) && s.players == [parent] && s.referrals == []
    requires parent.referralCode == GenerateReferralCode(parent.id)
    requires dto.referralCode == Some(parent.referralCode) && dto.phoneNumber != parent.phoneNumber
    requires DrawnId(letterDraws, digitDraws) != parent.id
    ensures var (r, after) := Accounts.Register(s, dto, ipAddress, originUrl, letterDraws, digitDraws, hash);
      && r.Ok? && Ledger.Consistent(after)
      && r.value.player.referredBy == Some(parent.id)
      && after.players == [parent, r.value.player]
      && |after.referrals| == 1 && IsPair(after.referrals[0], parent.id, r.value.player.id)
      && after.referrals[0].registrationBonus && after.referrals[0].depositBonuses == []
      && parent.id in s.wallets && parent.id in after.wallets
      && after.wallets[parent.id].balance == s.wallets[parent.id].balance + Ledger.RegistrationBonusAmount
      && r.value.player.id in after.wallets && after.wallets[r.value.player.id] == NewWallet(r.value.player.id)
  {
    var playerId := DrawnId(letterDraws, digitDraws);
    var player := Accounts.NewPlayer(dto, playerId, ipAddress, originUrl).(referredBy := Some(parent.id));
    ReferredPlayerInsertable(s, parent, dto, ipAddress, originUrl, letterDraws, digitDraws);
    var saved := player.(password := hash(player.password), createdAt := s.clock);
    RegisterStep(s, parent, dto, ipAddress, originUrl, letterDraws, digitDraws, hash, saved);
    ReferralAfterSave(s, parent, saved);
  }

  /** The referral half of `ReferredRegistration`: once the new player and its wallet are saved,
      the registration referral succeeds, keeps the store consistent, stores the one referral,
      credits the parent 100 and leaves the new wallet empty. */
  lemma ReferralAfterSave(s: State, parent: Player, saved: Player)
    requires Ledger.Consistent(s) && s.players == [parent] && s.referrals == []
    requires InsertablePlayer(s.players, saved) && saved.id != "" && saved.referredBy == Some(parent.id)
    ensures var (referred, after) := Ledger.ProcessRegistrationReferral(Accounts.WithPlayer(s, saved), parent.id, saved.id);
      && referred == Pass && Ledger.Consistent(after)
      && after.players == [parent, saved]
      && |after.referrals| == 1 && IsPair(after.referrals[0], parent.id, saved.id)
      && after.referrals[0].registrationBonus && after.referrals[0].depositBonuses == []
      && parent.id in s.wallets && parent.id in after.wallets
      && after.wallets[parent.id].balance == s.wallets[parent.id].balance + Ledger.RegistrationBonusAmount
      && saved.id in after.wallets && after.wallets[saved.id] == NewWallet(saved.id)
  {
    assert s.players[0] == parent;
    assert parent.id in s.wallets;
    var s1 := Accounts.WithPlayer(s, saved);
    assert saved.id != parent.id;
    assert parent.id in s1.wallets && s1.wallets[parent.id] == s.wallets[parent.id];
    Accounts.RegisterReferredConsistent(s, saved, parent);
    ReferralStep(s1, parent.id, saved.id);
  }

  /** The new player of `ReferredRegistration` can be saved, and the parent holds a wallet. */
  lemma ReferredPlayerInsertable(s: State, parent: Player, dto: Accounts.RegisterDto, ipAddress: string, originUrl: string,
                                 letterDraws: seq<nat>, digitDraws: seq<nat>)
    requires ValidDraws(letterDraws, digitDraws) && Complete(dto, ipAddress, originUrl)
    requires Ledger.WalletsMatchPlayers(s) && WalletsWellFormed(s.wallets) && s.players == [parent]
    requires parent.referralCode == GenerateReferralCode(parent.id)
    requires dto.referralCode == Some(parent.referralCode) && dto.phoneNumber != parent.phoneNumber
    requires DrawnId(letterDraws, digitDraws) != parent.id
    ensures var player := Accounts.NewPlayer(dto, DrawnId(letterDraws, digitDraws), ipAddress, originUrl).(referredBy := Some(parent.id));
      && MissingPaths(player) == [] && InsertablePlayer(s.players, player) && player.id !in s.wallets
    ensures parent.id in s.wallets && s.wallets[parent.id].balance >= MinBalance
  {
    var playerId := DrawnId(letterDraws, digitDraws);
    ReferralCodeInjective(playerId, parent.id);
    assert s.players[0] == parent;
    assert !HasPlayer(s.players, playerId);
  }

  /** Under the conditions of `ReferredRegistration`, registration is the save of the player and
      wallet followed by the registration referral. */
  lemma RegisterStep(s: State, parent: Player, dto: Accounts.RegisterDto, ipAddress: string, originUrl: string,
                     letterDraws: seq<nat>, digitDraws: seq<nat>, hash: string -> string, saved: Player)
    requires ValidDraws(letterDraws, digitDraws) && s.players == [parent]
    requires dto.referralCode == Some(parent.referralCode) && parent.referralCode != "" && dto.phoneNumber != parent.phoneNumber
    requires var player := Accounts.NewPlayer(dto, DrawnId(letterDraws, digitDraws), ipAddress, originUrl).(referredBy := Some(parent.id));
      && MissingPaths(player) == [] && InsertablePlayer(s.players, player) && player.id !in s.wallets
      && saved == player.(password := hash(player.password), createdAt := s.clock)
    ensures Accounts.Register(s, dto, ipAddress, originUrl, letterDraws, digitDraws, hash) ==
      var (referred, s2) := Ledger.ProcessRegistrationReferral(Accounts.WithPlayer(s, saved), parent.id, saved.id);
      (if referred.Fail? then Err(referred.failure) else Ok(Accounts.Session(saved, Accounts.TokenFor(saved))), s2)
  {
    assert FindPlayer(s.players, ByReferralCode(parent.referralCode)) == Some(parent) by {
      assert s.players[0] == parent;
    }
    assert FindPlayer(s.players, ByPhoneNumber(dto.phoneNumber)).None? by {
      assert s.players[0] == parent;
    }
  }

  /** The registration referral between a referrer holding the only stored referral-free wallet
      history and a new player stores the one referral and credits 100. */
  lemma ReferralStep(s1: State, referrerId: string, referredId: string)
    requires s1.referrals == [] && referrerId != "" && referredId != ""
    requires referrerId in s1.wallets && s1.wallets[referrerId].balance >= MinBalance
    ensures var after := Ledger.ProcessRegistrationReferral(s1, referrerId, referredId).1;
      && |after.referrals| == 1 && IsPair(after.referrals[0], referrerId, referredId)
      && after.referrals[0].registrationBonus && after.referrals[0].depositBonuses == []
      && after.players == s1.players
      && referrerId in after.wallets
      && after.wallets[referrerId].balance == s1.wallets[referrerId].balance + Ledger.RegistrationBonusAmount
  {
  }

  /** A deposit by a referred player on a consistent store: it succeeds, the depositor's balance
      rises by the amount, the referrer's by the deposit bonus, and the referrer's deposit-bonus
      total grows by that bonus while the counts stay as they were. */
  lemma ReferredDeposit(s: State, playerId: string, amount: int)
    requires Ledger.Consistent(s) && Ledger.MinDeposit <= amount <= Ledger.MaxDeposit && playerId in s.wallets
    requires Ledger.PayingReferral(s, playerId).Some?
    ensures var referrerId := s.referrals[Ledger.PayingReferral(s, playerId).value].referrerId;
      var before := Ledger.GetReferralStats(s, referrerId);
      var (r, after) := Ledger.Deposit(s, playerId, amount);
      && r.Ok? && r.value.balance == s.wallets[playerId].balance + amount
      && Ledger.Consistent(after)
      && referrerId in s.wallets && referrerId in after.wallets && playerId in after.wallets
      && after.wallets[playerId].balance == s.wallets[playerId].balance + amount
      && after.wallets[referrerId].balance == s.wallets[referrerId].balance + Ledger.DepositBonusFor(amount)
      && Ledger.GetReferralStats(after, referrerId) ==
           Ledger.ReferralStats(before.totalReferrals, before.totalRegistrationBonus, before.totalDepositBonus + Ledger.DepositBonusFor(amount))
  {
    Ledger.PayingReferrerHasWallet(s, playerId);
    Ledger.DepositPaysReferrer(s, playerId, amount);
    Ledger.DepositConsistent(s, playerId, amount);
    DepositStats(s, playerId, amount);
  }

  /** The statistics half of `ReferredDeposit`: a whole deposit moves the referrer's figures
      exactly as its referral hook does. */
  lemma DepositStats(s: State, playerId: string, amount: int)
    requires Ledger.MinDeposit <= amount <= Ledger.MaxDeposit && playerId in s.wallets && s.wallets[playerId].balance >= MinBalance
    requires Ledger.PayingReferral(s, playerId).Some?
    ensures var referrerId := s.referrals[Ledger.PayingReferral(s, playerId).value].referrerId;
      var before := Ledger.GetReferralStats(s, referrerId);
      Ledger.GetReferralStats(Ledger.Deposit(s, playerId, amount).1, referrerId) ==
        Ledger.ReferralStats(before.totalReferrals, before.totalRegistrationBonus, before.totalDepositBonus + Ledger.DepositBonusFor(amount))
  {
    var i := Ledger.PayingReferral(s, playerId).value;
    var referrerId := s.referrals[i].referrerId;
    var recorded := Ledger.Record(s, Transaction(WalletModel.Deposit, amount, playerId, None, s.clock));
    assert Ledger.PayingReferral(recorded, playerId) == Some(i);
    assert Ledger.GetReferralStats(recorded, referrerId) == Ledger.GetReferralStats(s, referrerId);
    Ledger.DepositReferralStats(recorded, playerId, amount, referrerId);
  }

  /** The figures of a referrer whose single referral is a fresh registration referral of
      `child`: one referral, one registration bonus, no deposit bonus, and `child` listed. */
  lemma SingleReferralFigures(s: State, referrerId: string, child: Player)
    requires |s.referrals| == 1 && IsPair(s.referrals[0], referrerId, child.id)
    requires s.referrals[0].registrationBonus && s.referrals[0].depositBonuses == []
    requires FindPlayer(s.players, ById(child.id)) == Some(child)
    ensures Ledger.GetReferralStats(s, referrerId) == Ledger.ReferralStats(1, Ledger.RegistrationBonusAmount, 0)
    ensures Ledger.ReferredPlayers(s.players, s.referrals, referrerId) == [Ledger.Summary(child)]
  {
    var rs := s.referrals;
    assert rs[..0] == [];
    assert Ledger.CountReferrals(rs, referrerId) == 1;
    assert Ledger.CountRegistrationBonuses(rs, referrerId) == 1;
    assert Ledger.SumBonuses(rs[0].depositBonuses) == 0;
    assert Ledger.TotalDepositBonus(rs, referrerId) == 0;
  }

  /** The store the two registrations of the referral integration test leave: the parent and the
      child, the one registration referral between them, 100 in the parent's wallet and nothing in
      the child's. */
  predicate AfterTestRegistrations(s: State, parent: Player, child: Player)
  {
    && s.players == [parent, child] && parent.id != child.id && child.referredBy == Some(parent.id)
    && |s.referrals| == 1 && IsPair(s.referrals[0], parent.id, child.id)
    && s.referrals[0].registrationBonus && s.referrals[0].depositBonuses == []
    && parent.id in s.wallets && s.wallets[parent.id].balance == 100
    && child.id in s.wallets && s.wallets[child.id].balance == 0
  }

  /** The two registrations of the referral integration test, followed on the model: a parent
      registers on an empty store, then a child registers with the parent's referral code. */
  lemma ReferralTestRegistrations(parentDto: Accounts.RegisterDto, childDto: Accounts.RegisterDto, ipAddress: string, originUrl: string,
                                  parentLetters: seq<nat>, parentDigits: seq<nat>, childLetters: seq<nat>, childDigits: seq<nat>,
                                  hash: string -> string)
    requires ValidDraws(parentLetters, parentDigits) && ValidDraws(childLetters, childDigits)
    requires DrawnId(parentLetters, parentDigits) != DrawnId(childLetters, childDigits)
    requires Complete(parentDto, ipAddress, originUrl) && Complete(childDto, ipAddress, originUrl)
    requires parentDto.referralCode == None && parentDto.phoneNumber != childDto.phoneNumber
    requires childDto.referralCode == Some(GenerateReferralCode(DrawnId(parentLetters, parentDigits)))
    ensures var (parent, s1) := Accounts.Register(Empty(), parentDto, ipAddress, originUrl, parentLetters, parentDigits, hash);
      var (child, s2) := Accounts.Register(s1, childDto, ipAddress, originUrl, childLetters, childDigits, hash);
      && parent.Ok? && child.Ok? && Ledger.Consistent(s2)
      && parent.value.player.id == DrawnId(parentLetters, parentDigits)
      && child.value.player.id == DrawnId(childLetters, childDigits)
      && AfterTestRegistrations(s2, parent.value.player, child.value.player)
  {
    FirstRegistration(parentDto, ipAddress, originUrl, parentLetters, parentDigits, hash);
    var (parent, s1) := Accounts.Register(Empty(), parentDto, ipAddress, originUrl, parentLetters, parentDigits, hash);
    SecondRegistration(s1, parent.value.player, childDto, ipAddress, originUrl, childLetters, childDigits, hash);
  }

  /** The child's registration of the referral integration test, on the store the parent's
      registration left. */
  lemma SecondRegistration(s1: State, p: Player, childDto: Accounts.RegisterDto, ipAddress: string, originUrl: string,
                           childLetters: seq<nat>, childDigits: seq<nat>, hash: string -> string)
    requires ValidDraws(childLetters, childDigits) && Complete(childDto, ipAddress, originUrl)
    requires Ledger.Consistent(s1) && s1 == Accounts.WithPlayer(Empty(), p)
    requires p.referralCode == GenerateReferralCode(p.id) && childDto.referralCode == Some(p.referralCode)
    requires p.phoneNumber != childDto.phoneNumber && DrawnId(childLetters, childDigits) != p.id
    ensures var (child, s2) := Accounts.Register(s1, childDto, ipAddress, originUrl, childLetters, childDigits, hash);
      && child.Ok? && Ledger.Consistent(s2)
      && AfterTestRegistrations(s2, p, child.value.player)
  {
    FirstStore(p);
    ReferredRegistration(s1, p, childDto, ipAddress, originUrl, childLetters, childDigits, hash);
  }

  /** The parent's figures once the two registrations are done: one referral, 100 of
      registration bonus, no deposit bonus, the child listed; the child's deposits pay the parent
      through the one referral. */
  lemma RegistrationsFigures(s: State, parent: Player, child: Player)
    requires AfterTestRegistrations(s, parent, child)
    ensures Ledger.GetReferralStats(s, parent.id) == Ledger.ReferralStats(1, 100, 0)
    ensures Ledger.ReferredPlayers(s.players, s.referrals, parent.id) == [Ledger.Summary(child)]
    ensures Ledger.PayingReferral(s, child.id) == Some(0)
  {
    assert s.players[1..] == [child];
    SingleReferralFigures(s, parent.id, child);
  }

  /** The deposit of the referral integration test: the child deposits 1000, which its wallet then
      holds; the parent holds 200 and has 100 of deposit bonus. */
  lemma ChildDeposit(s: State, parent: Player, child: Player)
    requires AfterTestRegistrations(s, parent, child)
    ensures var (deposited, after) := Ledger.Deposit(s, child.id, 1000);
      && deposited.Ok? && deposited.value.balance == 1000
      && parent.id in after.wallets && after.wallets[parent.id].balance == 200
      && Ledger.GetReferralStats(after, parent.id) == Ledger.ReferralStats(1, 100, 100)
  {
    RegistrationsFigures(s, parent, child);
    var bonus := Ledger.DepositBonusFor(1000);
    assert bonus == 100;
    Ledger.DepositPaysReferrer(s, child.id, 1000);
    DepositStats(s, child.id, 1000);
  }

  /** The referral integration test, followed on the model: a parent registers on an empty store,
      a child registers with the parent's referral code, and the child deposits 1000. The parent
      then has one referral, 100 of registration bonus and 100 of deposit bonus, lists the child,
      and holds 200; the child holds 1000. */
  lemma ReferralTestScenario(parentDto: Accounts.RegisterDto, childDto: Accounts.RegisterDto, ipAddress: string, originUrl: string,
                             parentLetters: seq<nat>, parentDigits: seq<nat>, childLetters: seq<nat>, childDigits: seq<nat>,
                             hash: string -> string)
    requires ValidDraws(parentLetters, parentDigits) && ValidDraws(childLetters, childDigits)
    requires DrawnId(parentLetters, parentDigits) != DrawnId(childLetters, childDigits)
    requires Complete(parentDto, ipAddress, originUrl) && Complete(childDto, ipAddress, originUrl)
    requires parentDto.referralCode == None && parentDto.phoneNumber != childDto.phoneNumber
    requires childDto.referralCode == Some(GenerateReferralCode(DrawnId(parentLetters, parentDigits)))
    ensures var (parent, s1) := Accounts.Register(Empty(), parentDto, ipAddress, originUrl, parentLetters, parentDigits, hash);
      var (child, s2) := Accounts.Register(s1, childDto, ipAddress, originUrl, childLetters, childDigits, hash);
      var parentId := DrawnId(parentLetters, parentDigits);
      var (deposited, s3) := Ledger.Deposit(s2, DrawnId(childLetters, childDigits), 1000);
      && parent.Ok? && child.Ok? && child.value.player.referredBy == Some(parentId)
      && Ledger.GetReferralStats(s2, parentId) == Ledger.ReferralStats(1, 100, 0)
      && Ledger.ReferredPlayers(s2.players, s2.referrals, parentId) == [Ledger.Summary(child.value.player)]
      && parentId in s2.wallets && s2.wallets[parentId].balance == 100
      && deposited.Ok? && deposited.value.balance == 1000
      && parentId in s3.wallets && s3.wallets[parentId].balance == 200
      && Ledger.GetReferralStats(s3, parentId) == Ledger.ReferralStats(1, 100, 100)
  {
    ReferralTestRegistrations(parentDto, childDto, ipAddress, originUrl, parentLetters, parentDigits, childLetters, childDigits, hash);
    var (parent, s1) := Accounts.Register(Empty(), parentDto, ipAddress, originUrl, parentLetters, parentDigits, hash);
    var (child, s2) := Accounts.Register(s1, childDto, ipAddress, originUrl, childLetters, childDigits, hash);
    RegistrationsFigures(s2, parent.value.player, child.value.player);
    ChildDeposit(s2, parent.value.player, child.value.player);
  }
}
