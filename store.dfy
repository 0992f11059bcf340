/** The in-memory store that stands in for the document database: the four collections, a logical
    clock that stamps every created record, and the primitive reads and writes the services use.
    A write either succeeds completely or leaves the state as it was; the schema checks
    (required fields, the balance minimum, the unique indexes) run on every write. */
module Store {
  import opened Errors
  import opened WalletModel
  import opened ReferralModel
  import opened PlayerModel

  datatype State = State(
    players: seq<Player>,
    wallets: map<string, Wallet>,
    transactions: seq<Transaction>,
    referrals: seq<Referral>,
    clock: nat)

  function Empty(): State
  {
    State([], map[], [], [], 0)
  }

  /** What the schemas and indexes guarantee of every stored state. */
  predicate WellFormed(s: State)
  {
    && PlayersUnique(s.players)
    && WalletsWellFormed(s.wallets)
    && PairsUnique(s.referrals)
    && Chronological(s.transactions, s.clock)
  }

  lemma EmptyWellFormed()
    ensures WellFormed(Empty())
  {
  }

  /** `Wallet.findOne({ playerId })`. */
  function FindWallet(s: State, playerId: string): (w: Option<Wallet>)
    ensures w.Some? <==> playerId in s.wallets
    ensures w.Some? ==> w.value == s.wallets[playerId]
  {
    if playerId in s.wallets then Some(s.wallets[playerId]) else None
  }

  /** `player.save()` for a new player document. The required fields are checked first, then the
      unique indexes; the save hook replaces the password by its digest `hash(password)`, and
      `createdAt` is stamped with the clock. */
  function InsertPlayer(s: State, p: Player, hash: string -> string): (out: (Result<Player>, State))
    ensures MissingPaths(p) != [] ==> out == (Err(Rejected(MissingRequired(MissingPaths(p)))), s)
    ensures MissingPaths(p) == [] && !InsertablePlayer(s.players, p) ==> out == (Err(Rejected(DuplicateKey)), s)
    ensures MissingPaths(p) == [] && InsertablePlayer(s.players, p) ==>
      && out.0 == Ok(p.(password := hash(p.password), createdAt := s.clock))
      && out.1 == s.(players := s.players + [out.0.value], clock := s.clock + 1)
    ensures WellFormed(s) ==> WellFormed(out.1)
  {
    if MissingPaths(p) != [] then (Err(Rejected(MissingRequired(MissingPaths(p)))), s)
    else if !InsertablePlayer(s.players, p) then (Err(Rejected(DuplicateKey)), s)
    else
      var saved := p.(password := hash(p.password), createdAt := s.clock);
      var s' := s.(players := s.players + [saved], clock := s.clock + 1);
      assert WellFormed(s) ==> WellFormed(s') by {
        if WellFormed(s) {
          PlayersUniqueInsert(s.players, saved);
        }
      }
      (Ok(saved), s')
  }

  /** No stored player holds the id, the phone number or the referral code of `p`. */
  predicate InsertablePlayer(ps: seq<Player>, p: Player)
  {
    && FindPlayer(ps, ById(p.id)).None?
    && FindPlayer(ps, ByPhoneNumber(p.phoneNumber)).None?
    && FindPlayer(ps, ByReferralCode(p.referralCode)).None?
  }

  /** `new Wallet({ playerId, balance: 0 }).save()`. */
  function InsertWallet(s: State, playerId: string): (out: (Outcome, State))
    ensures playerId == "" ==> out == (Fail(Rejected(MissingRequired(["playerId"]))), s)
    ensures playerId != "" && playerId in s.wallets ==> out == (Fail(Rejected(DuplicateKey)), s)
    ensures playerId != "" && playerId !in s.wallets ==>
      out == (Pass, s.(wallets := s.wallets[playerId := NewWallet(playerId)]))
    ensures WellFormed(s) ==> WellFormed(out.1)
  {
    if playerId == "" then (Fail(Rejected(MissingRequired(["playerId"]))), s)
    else if playerId in s.wallets then (Fail(Rejected(DuplicateKey)), s)
    else (Pass, s.(wallets := s.wallets[playerId := Wallet(playerId, 0)]))
  }

  /** `wallet.save()` on the wallet document read earlier from key `key` (its player id is not
      changed): the balance minimum is checked. */
  function SaveWallet(s: State, key: string, w: Wallet): (out: (Outcome, State))
    requires key in s.wallets && w.playerId == s.wallets[key].playerId
    ensures w.balance < MinBalance ==> out == (Fail(Rejected(BelowMinimum("balance"))), s)
    ensures w.balance >= MinBalance ==> out == (Pass, s.(wallets := s.wallets[key := w]))
    ensures WellFormed(s) ==> WellFormed(out.1)
  {
    if w.balance < MinBalance then (Fail(Rejected(BelowMinimum("balance"))), s)
    else (Pass, s.(wallets := s.wallets[key := w]))
  }

  /** `new Transaction({ ... }).save()`, stamped with the clock. The schema's required-field check
      is not repeated here: every caller writes for a wallet it has just found, and on a
      well-formed store a wallet's key is a non-empty player id, so the check would pass. */
  function InsertTransaction(s: State, kind: TransactionType, amount: int, playerId: string, source: Option<string>): (s': State)
    ensures s' == s.(transactions := s.transactions + [Transaction(kind, amount, playerId, source, s.clock)], clock := s.clock + 1)
    ensures WellFormed(s) ==> WellFormed(s')
  {
    var t := Transaction(kind, amount, playerId, source, s.clock);
    assert WellFormed(s) ==> WellFormed(s.(transactions := s.transactions + [t], clock := s.clock + 1)) by {
      if WellFormed(s) {
        ChronologicalAppend(s.transactions, s.clock, t);
      }
    }
    s.(transactions := s.transactions + [t], clock := s.clock + 1)
  }

  /** `new Referral({ ... }).save()`: both ids are required, then the compound unique index is
      checked. */
  function InsertReferral(s: State, referrerId: string, referredId: string, registrationBonus: Option<bool>): (out: (Outcome, State))
    ensures referrerId == "" || referredId == "" ==>
      out == (Fail(Rejected(MissingRequired((if referrerId == "" then ["referrerId"] else []) + (if referredId == "" then ["referredId"] else [])))), s)
    ensures referrerId != "" && referredId != "" && FindReferral(s.referrals, referrerId, referredId).Some? ==>
      out == (Fail(Rejected(DuplicateKey)), s)
    ensures referrerId != "" && referredId != "" && FindReferral(s.referrals, referrerId, referredId).None? ==>
      out == (Pass, s.(referrals := s.referrals + [NewReferral(referrerId, referredId, registrationBonus, s.clock)], clock := s.clock + 1))
    ensures WellFormed(s) ==> WellFormed(out.1)
  {
    if referrerId == "" || referredId == "" then
      (Fail(Rejected(MissingRequired((if referrerId == "" then ["referrerId"] else []) + (if referredId == "" then ["referredId"] else [])))), s)
    else if FindReferral(s.referrals, referrerId, referredId).Some? then (Fail(Rejected(DuplicateKey)), s)
    else
      var r := NewReferral(referrerId, referredId, registrationBonus, s.clock);
      assert WellFormed(s) ==> WellFormed(s.(referrals := s.referrals + [r], clock := s.clock + 1)) by {
        if WellFormed(s) {
          PairsUniqueInsert(s.referrals, r);
        }
      }
      (Pass, s.(referrals := s.referrals + [r], clock := s.clock + 1))
  }

  /** Appending an entry to the deposit-bonus history of the referral at position `i` and saving
      it; the entry is stamped with the clock. */
  function AddDepositBonus(s: State, i: nat, amount: int, depositAmount: int, percentage: Option<int>): (s': State)
    requires i < |s.referrals|
    ensures |s'.referrals| == |s.referrals| && s'.clock == s.clock + 1
    ensures s'.referrals[i] == s.referrals[i].(depositBonuses := s.referrals[i].depositBonuses + [NewDepositBonus(amount, depositAmount, percentage, s.clock)])
    ensures forall j :: 0 <= j < |s.referrals| && j != i ==> s'.referrals[j] == s.referrals[j]
    ensures s'.players == s.players && s'.wallets == s.wallets && s'.transactions == s.transactions
    ensures WellFormed(s) ==> WellFormed(s')
  {
    var r := s.referrals[i];
    var r' := r.(depositBonuses := r.depositBonuses + [NewDepositBonus(amount, depositAmount, percentage, s.clock)]);
    assert WellFormed(s) ==> WellFormed(s.(referrals := s.referrals[i := r'], clock := s.clock + 1)) by {
      if WellFormed(s) {
        PairsUniqueUpdate(s.referrals, i, r');
      }
    }
    s.(referrals := s.referrals[i := r'], clock := s.clock + 1)
  }
}
