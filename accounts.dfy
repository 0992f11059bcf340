/** Registration and login as functions of the store. Registration checks the phone number,
    draws the id, derives the referral code, resolves an optional referrer by code, and only
    then saves the player, creates the wallet and runs the registration referral. Login answers
    an unknown phone number and a wrong password with the same error. Password digests are
    computed by `hash` and checked by `matches`, both parameters. */
module Accounts {
  import opened Errors
  import opened Ids
  import opened WalletModel
  import opened ReferralModel
  import opened PlayerModel
  import opened Store
  import Ledger

  /** The registration request body (the referral code is optional). */
  datatype RegisterDto = RegisterDto(name: string, phoneNumber: string, password: string, referralCode: Option<string>)

  datatype LoginDto = LoginDto(phoneNumber: string, password: string)

  /** The payload a session token carries; signing and expiry are not modelled. */
  datatype Token = Token(id: string, phoneNumber: string)

  datatype Session = Session(player: Player, token: Token)

  const PhoneTakenMessage: string := "Phone number already registered"
  const InvalidReferralCodeMessage: string := "Invalid referral code"
  const InvalidCredentialsMessage: string := "Invalid phone number or password"

  /** `generateToken`: the token names the player's id and phone number. */
  function TokenFor(p: Player): (t: Token)
    ensures t.id == p.id && t.phoneNumber == p.phoneNumber
  {
    Token(p.id, p.phoneNumber)
  }

  /** The referral code a request supplies: an absent or empty one counts as none. */
  function SuppliedCode(dto: RegisterDto): Option<string>
  {
    if dto.referralCode.Some? && dto.referralCode.value != "" then dto.referralCode else None
  }

  /** The player document built from a request, before the referrer is known. */
  function NewPlayer(dto: RegisterDto, playerId: string, ipAddress: string, originUrl: string): (p: Player)
    ensures p.referralCode == GenerateReferralCode(playerId) && p.referredBy.None?
  {
    Player(playerId, dto.name, dto.phoneNumber, dto.password, ipAddress, originUrl, GenerateReferralCode(playerId), None, 0)
  }

  /** Saves the player and then its empty wallet; the first failure stops the sequence. */
  function SavePlayerAndWallet(s: State, player: Player, hash: string -> string): (out: (Result<Player>, State))
    ensures out.0.Ok? ==>
      && out.0.value == player.(password := hash(player.password), createdAt := s.clock)
      && out.1 == WithPlayer(s, out.0.value)
    ensures out.0.Err? ==> out.1.players == s.players || out.1.players == s.players + [player.(password := hash(player.password), createdAt := s.clock)]
    ensures MissingPaths(player) != [] ==> out == (Err(Rejected(MissingRequired(MissingPaths(player)))), s)
    ensures MissingPaths(player) == [] && !InsertablePlayer(s.players, player) ==> out == (Err(Rejected(DuplicateKey)), s)
    ensures MissingPaths(player) == [] && InsertablePlayer(s.players, player) ==>
      var s1 := s.(players := s.players + [player.(password := hash(player.password), createdAt := s.clock)], clock := s.clock + 1);
      && (player.id == "" ==> out == (Err(Rejected(MissingRequired(["playerId"]))), s1))
      && (player.id != "" && player.id in s.wallets ==> out == (Err(Rejected(DuplicateKey)), s1))
      && (player.id != "" && player.id !in s.wallets ==> out.0.Ok?)
  {
    var (saved, s1) := InsertPlayer(s, player, hash);
    if saved.Err? then (saved, s1)
    else
      var (created, s2) := InsertWallet(s1, player.id);
      if created.Fail? then (Err(created.failure), s2) else (saved, s2)
  }

  /** `register`. */
  function Register(s: State, dto: RegisterDto, ipAddress: string, originUrl: string,
                    letterDraws: seq<nat>, digitDraws: seq<nat>, hash: string -> string): (out: (Result<Session>, State))
    requires ValidDraws(letterDraws, digitDraws)
    ensures FindPlayer(s.players, ByPhoneNumber(dto.phoneNumber)).Some? ==>
      out == (Err(ConflictException(PhoneTakenMessage)), s)
    ensures FindPlayer(s.players, ByPhoneNumber(dto.phoneNumber)).None? && SuppliedCode(dto).Some?
            && FindPlayer(s.players, ByReferralCode(SuppliedCode(dto).value)).None? ==>
      out == (Err(BadRequestException(InvalidReferralCodeMessage)), s)
    ensures out.0.Ok? ==>
      var playerId := DrawnId(letterDraws, digitDraws);
      var p := out.0.value.player;
      && FindPlayer(s.players, ByPhoneNumber(dto.phoneNumber)).None?
      && p.id == playerId && p.referralCode == GenerateReferralCode(playerId)
      && p.name == dto.name && p.phoneNumber == dto.phoneNumber && p.password == hash(dto.password)
      && p.ipAddress == ipAddress && p.originUrl == originUrl && p.createdAt == s.clock
      && p.referredBy == (if SuppliedCode(dto).None? then None
                          else Some(FindPlayer(s.players, ByReferralCode(SuppliedCode(dto).value)).value.id))
      && out.0.value.token == TokenFor(p)
      && out.1.players == s.players + [p]
  {
    if FindPlayer(s.players, ByPhoneNumber(dto.phoneNumber)).Some? then (Err(ConflictException(PhoneTakenMessage)), s)
    else
      var playerId := DrawnId(letterDraws, digitDraws);
      var player := NewPlayer(dto, playerId, ipAddress, originUrl);
      match SuppliedCode(dto)
      case None =>
        var (saved, s1) := SavePlayerAndWallet(s, player, hash);
        if saved.Err? then (Err(saved.failure), s1)
        else (Ok(Session(saved.value, TokenFor(saved.value))), s1)
      case Some(code) =>
        match FindPlayer(s.players, ByReferralCode(code))
        case None => (Err(BadRequestException(InvalidReferralCodeMessage)), s)
        case Some(referrer) =>
          var (saved, s1) := SavePlayerAndWallet(s, player.(referredBy := Some(referrer.id)), hash);
          if saved.Err? then (Err(saved.failure), s1)
          else
            var (referred, s2) := Ledger.ProcessRegistrationReferral(s1, referrer.id, playerId);
            if referred.Fail? then (Err(referred.failure), s2)
            else (Ok(Session(saved.value, TokenFor(saved.value))), s2)
  }

  /** `login`: the first player with the phone number, if the password matches its digest. */
  function Login(s: State, dto: LoginDto, matches: (string, string) -> bool): (r: Result<Session>)
    ensures r.Ok? <==>
      FindPlayer(s.players, ByPhoneNumber(dto.phoneNumber)).Some?
      && matches(dto.password, FindPlayer(s.players, ByPhoneNumber(dto.phoneNumber)).value.password)
    ensures r.Ok? ==> r.value.player == FindPlayer(s.players, ByPhoneNumber(dto.phoneNumber)).value
    ensures r.Ok? ==> r.value.player.phoneNumber == dto.phoneNumber && r.value.token == TokenFor(r.value.player)
    ensures r.Err? ==> r.failure == UnauthorizedException(InvalidCredentialsMessage)
  {
    match FindPlayer(s.players, ByPhoneNumber(dto.phoneNumber))
    case None => Err(UnauthorizedException(InvalidCredentialsMessage))
    case Some(player) =>
      if !matches(dto.password, player.password) then Err(UnauthorizedException(InvalidCredentialsMessage))
      else Ok(Session(player, TokenFor(player)))
  }

  // ---------------------------------------------------------------------------------------------
  // What registration and login guarantee

  /** The store after adding `p` and its empty wallet. */
  function WithPlayer(s: State, p: Player): State
  {
    s.(players := s.players + [p], clock := s.clock + 1, wallets := s.wallets[p.id := NewWallet(p.id)])
  }

  lemma AddPlayerWellFormed(s: State, p: Player)
    requires WellFormed(s) && InsertablePlayer(s.players, p) && p.id != ""
    ensures WellFormed(WithPlayer(s, p))
  {
    PlayersUniqueInsert(s.players, p);
  }

  lemma AddPlayerWalletsMatch(s: State, p: Player)
    requires Ledger.WalletsMatchPlayers(s)
    ensures Ledger.WalletsMatchPlayers(WithPlayer(s, p))
  {
    var s' := WithPlayer(s, p);
    forall i | 0 <= i < |s'.players| ensures s'.players[i].id in s'.wallets {
      if i < |s.players| {
        assert s'.players[i] == s.players[i];
      }
    }
    forall k | k in s'.wallets ensures HasPlayer(s'.players, k) {
      HasPlayerAppend(s.players, p, k);
    }
  }

  lemma AddPlayerReferences(s: State, p: Player)
    requires Ledger.ReferencesResolve(s)
    requires p.referredBy.Some? ==> HasPlayer(s.players, p.referredBy.value)
    ensures Ledger.ReferencesResolve(WithPlayer(s, p))
  {
    var s' := WithPlayer(s, p);
    forall id | HasPlayer(s.players, id) ensures HasPlayer(s'.players, id) {
      HasPlayerAppend(s.players, p, id);
    }
    forall i | 0 <= i < |s'.players| && s'.players[i].referredBy.Some?
      ensures HasPlayer(s'.players, s'.players[i].referredBy.value)
    {
      if i < |s.players| {
        assert s'.players[i] == s.players[i];
      }
    }
  }

  lemma AddPlayerReferrals(s: State, p: Player)
    requires Ledger.ReferralsFollowReferredBy(s)
    ensures Ledger.ReferralsFollowReferredBy(WithPlayer(s, p))
  {
    var s' := WithPlayer(s, p);
    forall i | 0 <= i < |s'.referrals|
      ensures ReferredBy(s'.players, s'.referrals[i].referredId, s'.referrals[i].referrerId)
    {
      ReferredByAppend(s.players, p, s.referrals[i].referredId, s.referrals[i].referrerId);
    }
  }

  lemma AddPlayerBalances(s: State, p: Player)
    requires Ledger.TransactionsOwned(s) && Ledger.BalancesReconcile(s) && p.id !in s.wallets
    ensures Ledger.TransactionsOwned(WithPlayer(s, p)) && Ledger.BalancesReconcile(WithPlayer(s, p))
  {
    assert forall i :: 0 <= i < |s.transactions| ==> s.transactions[i].playerId != p.id;
    Ledger.NetOfAbsentPlayer(s.transactions, p.id);
  }

  /** A new player whose id, phone number and referral code are free, and whose referrer (if any)
      is stored, can be added together with an empty wallet without breaking consistency. */
  lemma AddPlayerConsistent(s: State, p: Player)
    requires Ledger.Consistent(s) && InsertablePlayer(s.players, p) && p.id != ""
    requires p.referredBy.Some? ==> HasPlayer(s.players, p.referredBy.value)
    ensures Ledger.Consistent(WithPlayer(s, p))
  {
    HasPlayerFind(s.players, p.id);
    AddPlayerWellFormed(s, p);
    AddPlayerWalletsMatch(s, p);
    AddPlayerReferences(s, p);
    AddPlayerReferrals(s, p);
    AddPlayerBalances(s, p);
  }

  /** The conditions under which registration goes through: the phone number is free, a
      supplied referral code names a player, every required field is present, and the drawn id
      and its code are not taken. */
  predicate CanRegister(s: State, dto: RegisterDto, ipAddress: string, originUrl: string, playerId: string)
  {
    && FindPlayer(s.players, ByPhoneNumber(dto.phoneNumber)).None?
    && (SuppliedCode(dto).Some? ==> FindPlayer(s.players, ByReferralCode(SuppliedCode(dto).value)).Some?)
    && MissingPaths(NewPlayer(dto, playerId, ipAddress, originUrl)) == []
    && FindPlayer(s.players, ById(playerId)).None?
    && FindPlayer(s.players, ByReferralCode(GenerateReferralCode(playerId))).None?
  }

  /** On a consistent store registration keeps the store consistent; it succeeds exactly under
      `CanRegister`, and then the new player holds exactly one wallet, with balance 0. */
  lemma RegisterConsistent(s: State, dto: RegisterDto, ipAddress: string, originUrl: string,
                           letterDraws: seq<nat>, digitDraws: seq<nat>, hash: string -> string)
    requires Ledger.Consistent(s) && ValidDraws(letterDraws, digitDraws)
    ensures var out := Register(s, dto, ipAddress, originUrl, letterDraws, digitDraws, hash);
      && Ledger.Consistent(out.1)
      && (out.0.Ok? <==> CanRegister(s, dto, ipAddress, originUrl, DrawnId(letterDraws, digitDraws)))
      && (out.0.Ok? ==> var id := out.0.value.player.id; id in out.1.wallets && out.1.wallets[id] == NewWallet(id))
  {
    var playerId := DrawnId(letterDraws, digitDraws);
    var player := NewPlayer(dto, playerId, ipAddress, originUrl);
    if FindPlayer(s.players, ByPhoneNumber(dto.phoneNumber)).None? {
      match SuppliedCode(dto)
      case None =>
        SaveNewPlayer(s, player, hash);
      case Some(code) =>
        match FindPlayer(s.players, ByReferralCode(code))
        case None =>
        case Some(referrer) =>
          RegisterWithReferrer(s, dto, ipAddress, originUrl, letterDraws, digitDraws, hash, referrer);
    }
  }

  /** Without a referral code, a registration that `CanRegister` allows adds just the new player
      and its empty wallet. */
  lemma RegisterWithoutCode(s: State, dto: RegisterDto, ipAddress: string, originUrl: string,
                            letterDraws: seq<nat>, digitDraws: seq<nat>, hash: string -> string)
    requires Ledger.Consistent(s) && ValidDraws(letterDraws, digitDraws)
    requires SuppliedCode(dto).None? && CanRegister(s, dto, ipAddress, originUrl, DrawnId(letterDraws, digitDraws))
    ensures var (r, after) := Register(s, dto, ipAddress, originUrl, letterDraws, digitDraws, hash);
      && r.Ok? && Ledger.Consistent(after) && after == WithPlayer(s, r.value.player)
  {
    var player := NewPlayer(dto, DrawnId(letterDraws, digitDraws), ipAddress, originUrl);
    assert InsertablePlayer(s.players, player);
    SaveNewPlayer(s, player, hash);
  }

  /** `RegisterConsistent` when the supplied code names `referrer`. */
  lemma RegisterWithReferrer(s: State, dto: RegisterDto, ipAddress: string, originUrl: string,
                             letterDraws: seq<nat>, digitDraws: seq<nat>, hash: string -> string, referrer: Player)
    requires Ledger.Consistent(s) && ValidDraws(letterDraws, digitDraws)
    requires FindPlayer(s.players, ByPhoneNumber(dto.phoneNumber)).None? && SuppliedCode(dto).Some?
    requires FindPlayer(s.players, ByReferralCode(SuppliedCode(dto).value)) == Some(referrer)
    ensures var out := Register(s, dto, ipAddress, originUrl, letterDraws, digitDraws, hash);
      && Ledger.Consistent(out.1)
      && (out.0.Ok? <==> CanRegister(s, dto, ipAddress, originUrl, DrawnId(letterDraws, digitDraws)))
      && (out.0.Ok? ==> var id := out.0.value.player.id; id in out.1.wallets && out.1.wallets[id] == NewWallet(id))
      && (out.0.Ok? ==> out.1 == Ledger.ProcessRegistrationReferral(WithPlayer(s, out.0.value.player), referrer.id, out.0.value.player.id).1)
  {
    var playerId := DrawnId(letterDraws, digitDraws);
    var p := NewPlayer(dto, playerId, ipAddress, originUrl).(referredBy := Some(referrer.id));
    assert referrer in s.players;
    assert HasPlayer(s.players, referrer.id) by {
      var k :| 0 <= k < |s.players| && s.players[k] == referrer;
    }
    SaveNewPlayer(s, p, hash);
    var saved := p.(password := hash(p.password), createdAt := s.clock);
    if MissingPaths(p) == [] && InsertablePlayer(s.players, p) {
      assert SavePlayerAndWallet(s, p, hash) == (Ok(saved), WithPlayer(s, saved));
      RegisterReferredConsistent(s, saved, referrer);
      var (referred, s2) := Ledger.ProcessRegistrationReferral(WithPlayer(s, saved), referrer.id, playerId);
      assert Register(s, dto, ipAddress, originUrl, letterDraws, digitDraws, hash) == (Ok(Session(saved, TokenFor(saved))), s2);
    } else {
      assert Register(s, dto, ipAddress, originUrl, letterDraws, digitDraws, hash).1 == s;
    }
  }

  /** What a referred registration writes, on a consistent store where it can go through: the
      new player, referred by the owner of the code; its empty wallet; one registration referral
      from the referrer; and one 100 bonus transaction that raises the referrer's balance by 100. */
  lemma ReferredRegistrationWrites(s: State, dto: RegisterDto, ipAddress: string, originUrl: string,
                                   letterDraws: seq<nat>, digitDraws: seq<nat>, hash: string -> string, referrer: Player)
    requires Ledger.Consistent(s) && ValidDraws(letterDraws, digitDraws)
    requires SuppliedCode(dto).Some? && FindPlayer(s.players, ByReferralCode(SuppliedCode(dto).value)) == Some(referrer)
    requires CanRegister(s, dto, ipAddress, originUrl, DrawnId(letterDraws, digitDraws))
    ensures var (r, after) := Register(s, dto, ipAddress, originUrl, letterDraws, digitDraws, hash);
      var id := DrawnId(letterDraws, digitDraws);
      && r.Ok? && r.value.player.id == id && r.value.player.referredBy == Some(referrer.id)
      && referrer.id != id && referrer.id in s.wallets
      && after.players == s.players + [r.value.player]
      && after.referrals == s.referrals + [Referral(referrer.id, id, true, [], s.clock + 1)]
      && after.transactions == s.transactions + [Transaction(ReferralBonus, Ledger.RegistrationBonusAmount, referrer.id, Some(id), s.clock + 2)]
      && after.wallets == s.wallets[id := NewWallet(id)][referrer.id := s.wallets[referrer.id].(balance := s.wallets[referrer.id].balance + Ledger.RegistrationBonusAmount)]
  {
    var p := ReferredRegistrationSetup(s, dto, ipAddress, originUrl, letterDraws, digitDraws, hash, referrer);
    ReferredRegistrationOutcome(s, dto, ipAddress, originUrl, letterDraws, digitDraws, hash, referrer, p);
  }

  /** `ReferredRegistrationWrites` from the facts `ReferredRegistrationSetup` provides. */
  lemma ReferredRegistrationOutcome(s: State, dto: RegisterDto, ipAddress: string, originUrl: string,
                                    letterDraws: seq<nat>, digitDraws: seq<nat>, hash: string -> string, referrer: Player, p: Player)
    requires ValidDraws(letterDraws, digitDraws)
    requires var (r, after) := Register(s, dto, ipAddress, originUrl, letterDraws, digitDraws, hash);
      && r.Ok? && r.value.player == p
      && after == Ledger.ProcessRegistrationReferral(WithPlayer(s, p), referrer.id, p.id).1
      && p.id == DrawnId(letterDraws, digitDraws) && p.referredBy == Some(referrer.id)
      && p.id != "" && referrer.id != p.id && !HasPlayer(s.players, p.id) && p.id !in s.wallets
      && referrer.id != "" && referrer.id in s.wallets && s.wallets[referrer.id].balance >= MinBalance
      && (forall i :: 0 <= i < |s.referrals| ==> HasPlayer(s.players, s.referrals[i].referredId))
    ensures var (r, after) := Register(s, dto, ipAddress, originUrl, letterDraws, digitDraws, hash);
      var id := DrawnId(letterDraws, digitDraws);
      && r.Ok? && r.value.player.id == id && r.value.player.referredBy == Some(referrer.id)
      && referrer.id != id && referrer.id in s.wallets
      && after.players == s.players + [r.value.player]
      && after.referrals == s.referrals + [Referral(referrer.id, id, true, [], s.clock + 1)]
      && after.transactions == s.transactions + [Transaction(ReferralBonus, Ledger.RegistrationBonusAmount, referrer.id, Some(id), s.clock + 2)]
      && after.wallets == s.wallets[id := NewWallet(id)][referrer.id := s.wallets[referrer.id].(balance := s.wallets[referrer.id].balance + Ledger.RegistrationBonusAmount)]
  {
    ReferredHookWrites(s, p, referrer.id);
  }


  /** A referred registration, where it can go through, adds one referral and one registration
      bonus to the referrer's figures and puts the new player at the end of its list. */
  lemma ReferredRegistrationFigures(s: State, dto: RegisterDto, ipAddress: string, originUrl: string,
                                    letterDraws: seq<nat>, digitDraws: seq<nat>, hash: string -> string, referrer: Player)
    requires Ledger.Consistent(s) && ValidDraws(letterDraws, digitDraws)
    requires SuppliedCode(dto).Some? && FindPlayer(s.players, ByReferralCode(SuppliedCode(dto).value)) == Some(referrer)
    requires CanRegister(s, dto, ipAddress, originUrl, DrawnId(letterDraws, digitDraws))
    ensures var (r, after) := Register(s, dto, ipAddress, originUrl, letterDraws, digitDraws, hash);
      var before := Ledger.GetReferralStats(s, referrer.id);
      && r.Ok?
      && Ledger.GetReferralStats(after, referrer.id) ==
           Ledger.ReferralStats(before.totalReferrals + 1, before.totalRegistrationBonus + Ledger.RegistrationBonusAmount, before.totalDepositBonus)
      && Ledger.ReferredPlayers(after.players, after.referrals, referrer.id) ==
           Ledger.ReferredPlayers(s.players, s.referrals, referrer.id) + [Ledger.Summary(r.value.player)]
  {
    var p := ReferredRegistrationSetup(s, dto, ipAddress, originUrl, letterDraws, digitDraws, hash, referrer);
    ReferredHookFigures(s, p, referrer.id);
  }

  /** The facts both lemmas above build on: the registration succeeds with the player it saved,
      its state is the registration referral's on that player, and the pair meets what the
      referral needs. */
  lemma ReferredRegistrationSetup(s: State, dto: RegisterDto, ipAddress: string, originUrl: string,
                                  letterDraws: seq<nat>, digitDraws: seq<nat>, hash: string -> string, referrer: Player)
      returns (p: Player)
    requires Ledger.Consistent(s) && ValidDraws(letterDraws, digitDraws)
    requires SuppliedCode(dto).Some? && FindPlayer(s.players, ByReferralCode(SuppliedCode(dto).value)) == Some(referrer)
    requires CanRegister(s, dto, ipAddress, originUrl, DrawnId(letterDraws, digitDraws))
    ensures var (r, after) := Register(s, dto, ipAddress, originUrl, letterDraws, digitDraws, hash);
      && r.Ok? && r.value.player == p
      && after == Ledger.ProcessRegistrationReferral(WithPlayer(s, p), referrer.id, p.id).1
      && p.id == DrawnId(letterDraws, digitDraws) && p.referredBy == Some(referrer.id)
      && p.id != "" && referrer.id != p.id && !HasPlayer(s.players, p.id) && p.id !in s.wallets
      && referrer.id != "" && referrer.id in s.wallets && s.wallets[referrer.id].balance >= MinBalance
      && (forall i :: 0 <= i < |s.referrals| ==> HasPlayer(s.players, s.referrals[i].referredId))
  {
    RegisterWithReferrer(s, dto, ipAddress, originUrl, letterDraws, digitDraws, hash, referrer);
    p := Register(s, dto, ipAddress, originUrl, letterDraws, digitDraws, hash).0.value.player;
    assert InsertablePlayer(s.players, p);
    NewReferredReady(s, p, referrer);
    HasPlayerFind(s.players, p.id);
    assert referrer.id in s.wallets && s.wallets[referrer.id].balance >= MinBalance;
  }

  /** The state the registration referral writes after a referred player is stored: the
      referral, then the referrer's bonus transaction and its balance raised by 100. */
  lemma ReferredHookWrites(s: State, p: Player, referrerId: string)
    requires referrerId != "" && p.id != "" && referrerId != p.id && !HasPlayer(s.players, p.id) && p.id !in s.wallets
    requires referrerId in s.wallets && s.wallets[referrerId].balance >= MinBalance
    requires forall i :: 0 <= i < |s.referrals| ==> HasPlayer(s.players, s.referrals[i].referredId)
    ensures var after := Ledger.ProcessRegistrationReferral(WithPlayer(s, p), referrerId, p.id).1;
      && after.players == s.players + [p]
      && after.referrals == s.referrals + [Referral(referrerId, p.id, true, [], s.clock + 1)]
      && after.transactions == s.transactions + [Transaction(ReferralBonus, Ledger.RegistrationBonusAmount, referrerId, Some(p.id), s.clock + 2)]
      && after.wallets == s.wallets[p.id := NewWallet(p.id)][referrerId := s.wallets[referrerId].(balance := s.wallets[referrerId].balance + Ledger.RegistrationBonusAmount)]
  {
    var s1 := WithPlayer(s, p);
    assert FindReferral(s1.referrals, referrerId, p.id).None? by {
      assert forall i :: 0 <= i < |s.referrals| ==> s.referrals[i].referredId != p.id;
    }
    assert s1.wallets[referrerId] == s.wallets[referrerId];
    Ledger.RegistrationReferralWrites(s1, referrerId, p.id);
  }

  /** The referrer's figures and list after the registration referral of a newly stored player:
      one more referral and registration bonus, and the new player at the end of the list. */
  lemma ReferredHookFigures(s: State, p: Player, referrerId: string)
    requires referrerId != "" && p.id != "" && !HasPlayer(s.players, p.id)
    requires forall i :: 0 <= i < |s.referrals| ==> HasPlayer(s.players, s.referrals[i].referredId)
    ensures var after := Ledger.ProcessRegistrationReferral(WithPlayer(s, p), referrerId, p.id).1;
      var before := Ledger.GetReferralStats(s, referrerId);
      && Ledger.GetReferralStats(after, referrerId) ==
           Ledger.ReferralStats(before.totalReferrals + 1, before.totalRegistrationBonus + Ledger.RegistrationBonusAmount, before.totalDepositBonus)
      && Ledger.ReferredPlayers(after.players, after.referrals, referrerId) ==
           Ledger.ReferredPlayers(s.players, s.referrals, referrerId) + [Ledger.Summary(p)]
  {
    var s1 := WithPlayer(s, p);
    assert FindReferral(s1.referrals, referrerId, p.id).None? by {
      assert forall i :: 0 <= i < |s.referrals| ==> s.referrals[i].referredId != p.id;
    }
    Ledger.RegistrationReferralStats(s1, referrerId, p.id, referrerId);
    Ledger.RegistrationReferralListed(s1, referrerId, p.id, referrerId);
    assert Ledger.GetReferralStats(s1, referrerId) == Ledger.GetReferralStats(s, referrerId);
    Ledger.ReferredPlayersNewPlayer(s.players, p, s.referrals, referrerId);
    HasPlayerAppend(s.players, p, p.id);
    FindPlayerAppend(s.players, p, ById(p.id));
    HasPlayerFind(s.players, p.id);
  }

  /** Saving a new player and its wallet on a consistent store: it succeeds exactly when every
      required field is present and the id, phone number and code are free; then the store stays
      consistent, and otherwise nothing is saved. */
  lemma SaveNewPlayer(s: State, player: Player, hash: string -> string)
    requires Ledger.Consistent(s) && player.id != ""
    requires player.referredBy.Some? ==> HasPlayer(s.players, player.referredBy.value)
    ensures var (r, after) := SavePlayerAndWallet(s, player, hash);
      && (r.Ok? <==> MissingPaths(player) == [] && InsertablePlayer(s.players, player))
      && (r.Err? ==> after == s)
      && (r.Ok? ==> Ledger.Consistent(after) && after.wallets[player.id] == NewWallet(player.id))
  {
    SaveSteps(s, player, hash);
    if MissingPaths(player) == [] && InsertablePlayer(s.players, player) {
      AddPlayerConsistent(s, player.(password := hash(player.password), createdAt := s.clock));
    }
  }

  /** The two writes of `SavePlayerAndWallet`: both go through exactly when the player has every
      required field and free unique fields, and then the store holds the saved player and its
      empty wallet; otherwise the player write fails and nothing changes. */
  lemma SaveSteps(s: State, player: Player, hash: string -> string)
    requires Ledger.WalletsMatchPlayers(s) && player.id != ""
    ensures var saved := player.(password := hash(player.password), createdAt := s.clock);
      SavePlayerAndWallet(s, player, hash) ==
        if MissingPaths(player) == [] && InsertablePlayer(s.players, player) then (Ok(saved), WithPlayer(s, saved))
        else (InsertPlayer(s, player, hash).0, s)
  {
    if MissingPaths(player) == [] && InsertablePlayer(s.players, player) {
      HasPlayerFind(s.players, player.id);
      assert player.id !in s.wallets;
    }
  }

  /** The referred branch of registration: once the player and wallet are saved, the referral
      pairs two distinct stored players that were never paired, so it succeeds, keeps the store
      consistent and leaves the new wallet at 0. */
  lemma RegisterReferredConsistent(s: State, p: Player, referrer: Player)
    requires Ledger.Consistent(s) && InsertablePlayer(s.players, p) && p.id != ""
    requires referrer in s.players && p.referredBy == Some(referrer.id)
    ensures var s1 := WithPlayer(s, p);
      var (referred, s2) := Ledger.ProcessRegistrationReferral(s1, referrer.id, p.id);
      && referred == Pass && Ledger.Consistent(s2) && p.id in s2.wallets && s2.wallets[p.id] == NewWallet(p.id)
  {
    NewReferredReady(s, p, referrer);
    AddPlayerConsistent(s, p);
    Ledger.RegistrationReferralPays(WithPlayer(s, p), referrer.id, p.id);
  }

  /** Once a referred player is stored, the pair it forms with its referrer meets what the
      registration referral asks for: two distinct stored players, the referral recorded on the
      referred player, no referral yet for the pair, and an empty wallet for the new player. */
  lemma NewReferredReady(s: State, p: Player, referrer: Player)
    requires Ledger.Consistent(s) && InsertablePlayer(s.players, p) && p.id != ""
    requires referrer in s.players && p.referredBy == Some(referrer.id)
    ensures var s1 := WithPlayer(s, p);
      && HasPlayer(s1.players, referrer.id) && HasPlayer(s1.players, p.id) && referrer.id != p.id
      && ReferredBy(s1.players, p.id, referrer.id)
      && FindReferral(s1.referrals, referrer.id, p.id).None?
      && p.id in s1.wallets && s1.wallets[p.id] == NewWallet(p.id)
      && HasPlayer(s.players, referrer.id)
  {
    HasPlayerFind(s.players, p.id);
    assert HasPlayer(s.players, referrer.id) by {
      var k :| 0 <= k < |s.players| && s.players[k] == referrer;
    }
    HasPlayerAppend(s.players, p, referrer.id);
    HasPlayerAppend(s.players, p, p.id);
    ReferredByAppend(s.players, p, p.id, referrer.id);
    NewPlayerNeverReferred(s, p.id, referrer.id);
  }

  /** A player not yet stored appears in no referral. */
  lemma NewPlayerNeverReferred(s: State, playerId: string, referrerId: string)
    requires Ledger.ReferencesResolve(s) && !HasPlayer(s.players, playerId)
    ensures FindReferral(s.referrals, referrerId, playerId).None?
  {
    assert forall i :: 0 <= i < |s.referrals| ==> s.referrals[i].referredId != playerId;
  }

  /** A player who has just registered can log in with the same phone number and password,
      provided `matches` accepts a password against its own digest. */
  lemma LoginAfterRegister(s: State, dto: RegisterDto, ipAddress: string, originUrl: string,
                           letterDraws: seq<nat>, digitDraws: seq<nat>,
                           hash: string -> string, matches: (string, string) -> bool)
    requires ValidDraws(letterDraws, digitDraws)
    requires forall pw :: matches(pw, hash(pw))
    requires Register(s, dto, ipAddress, originUrl, letterDraws, digitDraws, hash).0.Ok?
    ensures var (r, after) := Register(s, dto, ipAddress, originUrl, letterDraws, digitDraws, hash);
      Login(after, LoginDto(dto.phoneNumber, dto.password), matches) == Ok(r.value)
  {
    var (r, after) := Register(s, dto, ipAddress, originUrl, letterDraws, digitDraws, hash);
    FindPlayerAppend(s.players, r.value.player, ByPhoneNumber(dto.phoneNumber));
    assert matches(dto.password, hash(dto.password));
  }

  /** Login does not reveal whether a phone number is registered: an unknown number and a wrong
      password fail identically. */
  lemma LoginFailuresIndistinguishable(s: State, unknown: LoginDto, wrong: LoginDto, matches: (string, string) -> bool)
    requires FindPlayer(s.players, ByPhoneNumber(unknown.phoneNumber)).None?
    requires FindPlayer(s.players, ByPhoneNumber(wrong.phoneNumber)).Some?
    requires !matches(wrong.password, FindPlayer(s.players, ByPhoneNumber(wrong.phoneNumber)).value.password)
    ensures Login(s, unknown, matches) == Login(s, wrong, matches) == Err(UnauthorizedException(InvalidCredentialsMessage))
  {
  }
}
