/** What the wallet engine and the referral engine do to the store, as functions from the state
    before a call to its result and the state after it. The two engines call each other (a deposit
    runs the referral deposit hook, which credits the referrer's wallet), so both live here. */
module Ledger {
  import opened Errors
  import opened WalletModel
  import opened ReferralModel
  import opened PlayerModel
  import opened Store

  const MinDeposit: int := 100
  const MaxDeposit: int := 100000
  const RegistrationBonusAmount: int := 100
  const DepositBonusPercentage: int := 10

  const DepositRangeMessage: string := "Deposit amount must be between 100 and 100,000"
  const WalletNotFoundMessage: string := "Wallet not found"
  const InsufficientBalanceMessage: string := "Insufficient balance"

  // ---------------------------------------------------------------------------------------------
  // The ledger view: every balance change is one transaction, so a balance is the net of them.

  /** The change a transaction makes to its player's balance. */
  function Signed(t: Transaction): int
  {
    if t.kind == Withdrawal then -t.amount else t.amount
  }

  /** The net of all of `playerId`'s transactions. */
  function Net(txs: seq<Transaction>, playerId: string): int
    decreases |txs|
  {
    if txs == [] then 0
    else Net(txs[..|txs| - 1], playerId) + (if txs[|txs| - 1].playerId == playerId then Signed(txs[|txs| - 1]) else 0)
  }

  lemma NetAppend(txs: seq<Transaction>, t: Transaction, playerId: string)
    ensures Net(txs + [t], playerId) == Net(txs, playerId) + (if t.playerId == playerId then Signed(t) else 0)
  {
    assert (txs + [t])[..|txs|] == txs;
  }

  /** A player none of whose transactions is in the log has a net of 0. */
  lemma {:induction false} NetOfAbsentPlayer(txs: seq<Transaction>, playerId: string)
    requires forall i :: 0 <= i < |txs| ==> txs[i].playerId != playerId
    ensures Net(txs, playerId) == 0
  {
    if txs != [] {
      NetOfAbsentPlayer(txs[..|txs| - 1], playerId);
    }
  }

  /** The store invariant the services keep, on top of what the schemas guarantee. */
  predicate Consistent(s: State)
  {
    && WellFormed(s)
    && WalletsMatchPlayers(s)
    && ReferencesResolve(s)
    && TransactionsOwned(s)
    && BalancesReconcile(s)
    && ReferralsFollowReferredBy(s)
  }

  /** Every player has exactly one wallet and every wallet a player. */
  predicate WalletsMatchPlayers(s: State)
  {
    && (forall k :: k in s.wallets ==> HasPlayer(s.players, k))
    && (forall i :: 0 <= i < |s.players| ==> s.players[i].id in s.wallets)
  }

  /** Every referrer a player names, and both ends of every referral, are stored players, and no
      referral pairs a player with itself. */
  predicate ReferencesResolve(s: State)
  {
    && (forall i :: 0 <= i < |s.players| && s.players[i].referredBy.Some? ==> HasPlayer(s.players, s.players[i].referredBy.value))
    && (forall i :: 0 <= i < |s.referrals| ==>
          && HasPlayer(s.players, s.referrals[i].referrerId) && HasPlayer(s.players, s.referrals[i].referredId)
          && s.referrals[i].referrerId != s.referrals[i].referredId)
  }

  /** Every referral is the one its referred player's `referredBy` names. Together with the unique
      id index and the pair index this means a player is referred at most once
      (`ReferredOnce`); the pair index alone does not guarantee it. */
  predicate ReferralsFollowReferredBy(s: State)
  {
    forall i :: 0 <= i < |s.referrals| ==> ReferredBy(s.players, s.referrals[i].referredId, s.referrals[i].referrerId)
  }

  /** On a consistent store no two referrals name the same referred player. */
  lemma ReferredOnce(s: State, i: nat, j: nat)
    requires Consistent(s) && i < |s.referrals| && j < |s.referrals|
    requires s.referrals[i].referredId == s.referrals[j].referredId
    ensures i == j
  {
    ReferredByUnique(s.players, s.referrals[i].referredId, s.referrals[i].referrerId, s.referrals[j].referrerId);
  }

  /** Every transaction belongs to a wallet. */
  predicate TransactionsOwned(s: State)
  {
    forall i :: 0 <= i < |s.transactions| ==> s.transactions[i].playerId in s.wallets
  }

  /** Every balance equals the net of its player's transactions. */
  predicate BalancesReconcile(s: State)
  {
    forall k :: k in s.wallets ==> s.wallets[k].balance == Net(s.transactions, k)
  }

  lemma EmptyConsistent()
    ensures Consistent(Empty())
  {
  }

  /** `s'` is `s` with one transaction `t` recorded: `t` is appended to the log, stamped with the
      clock, and the balance of `t`'s wallet, and of no other wallet, moves by exactly the signed
      amount of `t`. */
  predicate Recorded(s: State, s': State, t: Transaction)
  {
    && t.playerId in s.wallets
    && t.createdAt == s.clock
    && s'.transactions == s.transactions + [t]
    && s'.clock == s.clock + 1
    && s'.wallets == s.wallets[t.playerId := s.wallets[t.playerId].(balance := s.wallets[t.playerId].balance + Signed(t))]
    && s'.players == s.players
    && s'.referrals == s.referrals
  }

  /** Recording a transaction changes no wallet but its own. */
  lemma RecordedTouchesOneWallet(s: State, s': State, t: Transaction, k: string)
    requires Recorded(s, s', t) && k != t.playerId
    ensures k in s'.wallets <==> k in s.wallets
    ensures k in s.wallets ==> s'.wallets[k] == s.wallets[k]
  {
  }

  /** Recording a transaction keeps the store consistent when the new balance respects the
      minimum. */
  lemma RecordedConsistent(s: State, s': State, t: Transaction)
    requires Consistent(s) && Recorded(s, s', t)
    requires s.wallets[t.playerId].balance + Signed(t) >= MinBalance
    ensures Consistent(s')
  {
    ChronologicalAppend(s.transactions, s.clock, t);
    forall k | k in s'.wallets
      ensures s'.wallets[k].balance == Net(s'.transactions, k)
    {
      NetAppend(s.transactions, t, k);
    }
    assert forall i :: 0 <= i < |s'.transactions| ==> s'.transactions[i].playerId in s'.wallets by {
      forall i | 0 <= i < |s'.transactions|
        ensures s'.transactions[i].playerId in s'.wallets
      {
        if i < |s.transactions| {
          assert s'.transactions[i] == s.transactions[i];
        }
      }
    }
  }

  // ---------------------------------------------------------------------------------------------
  // Wallet engine

  /** `getWalletByPlayerId`. */
  function GetWalletByPlayerId(s: State, playerId: string): (r: Result<Wallet>)
    ensures r.Ok? <==> playerId in s.wallets
    ensures r.Ok? ==> r.value == s.wallets[playerId]
    ensures r.Err? ==> r.failure == NotFoundException(WalletNotFoundMessage)
    ensures r.Ok? && Consistent(s) ==> r.value.balance >= 0 && r.value.balance == Net(s.transactions, playerId)
  {
    match FindWallet(s, playerId)
    case None => Err(NotFoundException(WalletNotFoundMessage))
    case Some(w) => Ok(w)
  }

  /** `creditReferralBonus`: raises the wallet's balance by `amount` and records a transaction of
      the given bonus type that names the player whose action earned it. */
  function CreditReferralBonus(s: State, playerId: string, amount: int, sourcePlayerId: string, kind: TransactionType): (out: (Result<Wallet>, State))
    requires IsBonusType(kind)
    ensures playerId !in s.wallets ==> out == (Err(NotFoundException(WalletNotFoundMessage)), s)
    ensures playerId in s.wallets && s.wallets[playerId].balance + amount < MinBalance ==>
      out == (Err(Rejected(BelowMinimum("balance"))), s)
    ensures playerId in s.wallets && s.wallets[playerId].balance + amount >= MinBalance ==>
      && out.0 == Ok(s.wallets[playerId].(balance := s.wallets[playerId].balance + amount))
      && Recorded(s, out.1, Transaction(kind, amount, playerId, Some(sourcePlayerId), s.clock))
    ensures Consistent(s) ==> Consistent(out.1)
  {
    match FindWallet(s, playerId)
    case None => (Err(NotFoundException(WalletNotFoundMessage)), s)
    case Some(wallet) =>
      var updated := wallet.(balance := wallet.balance + amount);
      var (saved, s1) := SaveWallet(s, playerId, updated);
      if saved.Fail? then (Err(saved.failure), s1)
      else
        var s2 := InsertTransaction(s1, kind, amount, playerId, Some(sourcePlayerId));
        assert Recorded(s, s2, Transaction(kind, amount, playerId, Some(sourcePlayerId), s.clock));
        assert Consistent(s) ==> Consistent(s2) by {
          if Consistent(s) {
            RecordedConsistent(s, s2, Transaction(kind, amount, playerId, Some(sourcePlayerId), s.clock));
          }
        }
        (Ok(updated), s2)
  }

  /** `withdraw`: fails when the wallet is missing or holds less than `amount` (an amount equal to
      the balance is allowed), otherwise lowers the balance by `amount` and records a WITHDRAWAL. */
  function Withdraw(s: State, playerId: string, amount: int): (out: (Result<Wallet>, State))
    ensures playerId !in s.wallets ==> out == (Err(NotFoundException(WalletNotFoundMessage)), s)
    ensures playerId in s.wallets && s.wallets[playerId].balance < amount ==>
      out == (Err(BadRequestException(InsufficientBalanceMessage)), s)
    ensures playerId in s.wallets && s.wallets[playerId].balance >= amount ==>
      && out.0 == Ok(s.wallets[playerId].(balance := s.wallets[playerId].balance - amount))
      && Recorded(s, out.1, Transaction(Withdrawal, amount, playerId, None, s.clock))
    ensures out.0.Ok? ==> out.0.value.balance >= 0
    ensures Consistent(s) ==> Consistent(out.1)
  {
    match FindWallet(s, playerId)
    case None => (Err(NotFoundException(WalletNotFoundMessage)), s)
    case Some(wallet) =>
      if wallet.balance < amount then (Err(BadRequestException(InsufficientBalanceMessage)), s)
      else
        var updated := wallet.(balance := wallet.balance - amount);
        // The new balance is `balance - amount >= 0`, so the schema minimum always passes here.
        var (_, s1) := SaveWallet(s, playerId, updated);
        var s2 := InsertTransaction(s1, Withdrawal, amount, playerId, None);
        assert Recorded(s, s2, Transaction(Withdrawal, amount, playerId, None, s.clock));
        assert Consistent(s) ==> Consistent(s2) by {
          if Consistent(s) {
            RecordedConsistent(s, s2, Transaction(Withdrawal, amount, playerId, None, s.clock));
          }
        }
        (Ok(updated), s2)
  }

  /** `getTransactionHistory`: the player's transactions, newest first. */
  function History(txs: seq<Transaction>, playerId: string): (h: seq<Transaction>)
    ensures forall t :: t in h <==> t in txs && t.playerId == playerId
    ensures OldestFirst(txs) ==> NewestFirst(h)
    decreases |txs|
  {
    if txs == [] then []
    else
      var last := txs[|txs| - 1];
      var init := txs[..|txs| - 1];
      var rest := History(init, playerId);
      InitAndLast(txs);
      if last.playerId == playerId then
        assert OldestFirst(txs) ==> NewestFirst([last] + rest) by {
          if OldestFirst(txs) {
            OldestFirstInit(txs);
            NewestFirstPrepend(init, last, rest);
          }
        }
        [last] + rest
      else rest
  }

  lemma InitAndLast(txs: seq<Transaction>)
    requires txs != []
    ensures forall t :: t in txs <==> t in txs[..|txs| - 1] || t == txs[|txs| - 1]
  {
    assert txs == txs[..|txs| - 1] + [txs[|txs| - 1]];
  }

  lemma OldestFirstInit(txs: seq<Transaction>)
    requires OldestFirst(txs) && txs != []
    ensures OldestFirst(txs[..|txs| - 1])
    ensures forall t :: t in txs[..|txs| - 1] ==> t.createdAt < txs[|txs| - 1].createdAt
  {
    var init := txs[..|txs| - 1];
    forall t | t in init ensures t.createdAt < txs[|txs| - 1].createdAt {
      var i :| 0 <= i < |init| && init[i] == t;
    }
  }

  /** An entry newer than everything in a newest-first list can go in front of it. */
  lemma NewestFirstPrepend(older: seq<Transaction>, t: Transaction, rest: seq<Transaction>)
    requires NewestFirst(rest) && forall u :: u in rest ==> u in older
    requires forall u :: u in older ==> u.createdAt < t.createdAt
    ensures NewestFirst([t] + rest)
  {
    forall i, j | 0 <= i < j < |[t] + rest| ensures ([t] + rest)[i].createdAt > ([t] + rest)[j].createdAt {
      if i == 0 {
        assert ([t] + rest)[j] == rest[j - 1] && rest[j - 1] in rest;
      } else {
        assert ([t] + rest)[i] == rest[i - 1] && ([t] + rest)[j] == rest[j - 1];
      }
    }
  }

  /** The state after recording `t`: the one `s'` with `Recorded(s, s', t)`. */
  function Record(s: State, t: Transaction): (s': State)
    requires t.playerId in s.wallets && t.createdAt == s.clock
    ensures Recorded(s, s', t)
  {
    var w := s.wallets[t.playerId];
    s.(wallets := s.wallets[t.playerId := w.(balance := w.balance + Signed(t))],
       transactions := s.transactions + [t],
       clock := s.clock + 1)
  }

  /** `deposit`: the amount must lie in [100, 100000] (both ends allowed) and the wallet must
      exist; then the balance rises by `amount`, one DEPOSIT is recorded, and only after that the
      referral deposit hook runs on the updated store. A failure of the hook is reported to the
      caller, but the deposit it follows stays in place. */
  function Deposit(s: State, playerId: string, amount: int): (out: (Result<Wallet>, State))
    ensures amount < MinDeposit || amount > MaxDeposit ==> out == (Err(BadRequestException(DepositRangeMessage)), s)
    ensures MinDeposit <= amount <= MaxDeposit && playerId !in s.wallets ==>
      out == (Err(NotFoundException(WalletNotFoundMessage)), s)
    ensures MinDeposit <= amount <= MaxDeposit && playerId in s.wallets && s.wallets[playerId].balance + amount < MinBalance ==>
      out == (Err(Rejected(BelowMinimum("balance"))), s)
    ensures MinDeposit <= amount <= MaxDeposit && playerId in s.wallets && s.wallets[playerId].balance + amount >= MinBalance ==>
      var recorded := Record(s, Transaction(WalletModel.Deposit, amount, playerId, None, s.clock));
      var hook := ProcessDepositReferral(recorded, playerId, amount);
      && out.1 == hook.1
      && out.0 == (if hook.0.Pass? then Ok(s.wallets[playerId].(balance := s.wallets[playerId].balance + amount)) else Err(hook.0.failure))
  {
    if amount < MinDeposit || amount > MaxDeposit then (Err(BadRequestException(DepositRangeMessage)), s)
    else match FindWallet(s, playerId)
      case None => (Err(NotFoundException(WalletNotFoundMessage)), s)
      case Some(wallet) =>
        var updated := wallet.(balance := wallet.balance + amount);
        var (saved, s1) := SaveWallet(s, playerId, updated);
        if saved.Fail? then (Err(saved.failure), s1)
        else
          var s2 := InsertTransaction(s1, WalletModel.Deposit, amount, playerId, None);
          assert s2 == Record(s, Transaction(WalletModel.Deposit, amount, playerId, None, s.clock));
          var (hook, s3) := ProcessDepositReferral(s2, playerId, amount);
          if hook.Fail? then (Err(hook.failure), s3) else (Ok(updated), s3)
  }

  /** A deposit keeps the store consistent, and on a consistent store a deposit in range into an
      existing wallet always succeeds. */
  lemma DepositConsistent(s: State, playerId: string, amount: int)
    requires Consistent(s)
    ensures Consistent(Deposit(s, playerId, amount).1)
    ensures MinDeposit <= amount <= MaxDeposit && playerId in s.wallets ==> Deposit(s, playerId, amount).0.Ok?
  {
    if MinDeposit <= amount <= MaxDeposit && playerId in s.wallets {
      var t := Transaction(WalletModel.Deposit, amount, playerId, None, s.clock);
      var recorded := Record(s, t);
      RecordedConsistent(s, recorded, t);
      DepositReferralConsistent(recorded, playerId, amount);
    }
  }

  // ---------------------------------------------------------------------------------------------
  // Referral engine

  /** `processRegistrationReferral`: stores the referral (with `registrationBonus` set and no
      deposit bonuses yet) and only then credits the referrer the registration bonus. A pair that
      is already stored is refused by the unique index, so it never reaches the credit. */
  function ProcessRegistrationReferral(s: State, referrerId: string, referredId: string): (out: (Outcome, State))
    ensures referrerId == "" || referredId == "" ==> out.0.Fail? && out.1 == s
    ensures referrerId != "" && referredId != "" && FindReferral(s.referrals, referrerId, referredId).Some? ==>
      out == (Fail(Rejected(DuplicateKey)), s)
    ensures referrerId != "" && referredId != "" && FindReferral(s.referrals, referrerId, referredId).None? ==>
      var saved := s.(referrals := s.referrals + [Referral(referrerId, referredId, true, [], s.clock)], clock := s.clock + 1);
      && out.1.referrals == saved.referrals && out.1.players == s.players
      && (referrerId !in s.wallets ==> out == (Fail(NotFoundException(WalletNotFoundMessage)), saved))
      && (referrerId in s.wallets && s.wallets[referrerId].balance + RegistrationBonusAmount < MinBalance ==>
            out == (Fail(Rejected(BelowMinimum("balance"))), saved))
      && (referrerId in s.wallets && s.wallets[referrerId].balance + RegistrationBonusAmount >= MinBalance ==>
            out.0 == Pass && Recorded(saved, out.1, Transaction(ReferralBonus, RegistrationBonusAmount, referrerId, Some(referredId), saved.clock)))
  {
    var (inserted, s1) := InsertReferral(s, referrerId, referredId, Some(true));
    if inserted.Fail? then (inserted, s1)
    else
      var (credited, s2) := CreditReferralBonus(s1, referrerId, RegistrationBonusAmount, referredId, ReferralBonus);
      if credited.Err? then (Fail(credited.failure), s2) else (Pass, s2)
  }

  /** Between two stored, distinct players the registration referral keeps the store consistent,
      and it succeeds exactly when the pair is new. */
  lemma RegistrationReferralConsistent(s: State, referrerId: string, referredId: string)
    requires Consistent(s) && HasPlayer(s.players, referrerId) && HasPlayer(s.players, referredId) && referrerId != referredId
    requires ReferredBy(s.players, referredId, referrerId)
    ensures Consistent(ProcessRegistrationReferral(s, referrerId, referredId).1)
    ensures ProcessRegistrationReferral(s, referrerId, referredId).0.Pass? <==> FindReferral(s.referrals, referrerId, referredId).None?
  {
    assert referrerId in s.wallets && referredId in s.wallets by {
      var i :| 0 <= i < |s.players| && s.players[i].id == referrerId;
      var j :| 0 <= j < |s.players| && s.players[j].id == referredId;
    }
    if FindReferral(s.referrals, referrerId, referredId).None? {
      var (inserted, saved) := InsertReferral(s, referrerId, referredId, Some(true));
      assert inserted == Pass;
      ReferralInsertConsistent(s, saved, saved.referrals[|s.referrals|]);
      var (credited, s2) := CreditReferralBonus(saved, referrerId, RegistrationBonusAmount, referredId, ReferralBonus);
      assert credited.Ok?;
      assert ProcessRegistrationReferral(s, referrerId, referredId) == (Pass, s2);
    }
  }

  /** A registration referral for a pair never seen before succeeds, keeps the store consistent
      and leaves the referred player's wallet as it was: only the referrer is credited. */
  lemma RegistrationReferralPays(s: State, referrerId: string, referredId: string)
    requires Consistent(s) && HasPlayer(s.players, referrerId) && HasPlayer(s.players, referredId) && referrerId != referredId
    requires ReferredBy(s.players, referredId, referrerId)
    requires FindReferral(s.referrals, referrerId, referredId).None? && referredId in s.wallets
    ensures var (r, after) := ProcessRegistrationReferral(s, referrerId, referredId);
      && r == Pass && Consistent(after)
      && referredId in after.wallets && after.wallets[referredId] == s.wallets[referredId]
  {
    RegistrationReferralConsistent(s, referrerId, referredId);
    assert referrerId in s.wallets by {
      var k :| 0 <= k < |s.players| && s.players[k].id == referrerId;
    }
  }

  lemma ReferralInsertConsistent(s: State, s': State, r: Referral)
    requires Consistent(s) && PairsUnique(s'.referrals)
    requires HasPlayer(s.players, r.referrerId) && HasPlayer(s.players, r.referredId) && r.referrerId != r.referredId
    requires ReferredBy(s.players, r.referredId, r.referrerId)
    requires s' == s.(referrals := s.referrals + [r], clock := s.clock + 1)
    ensures Consistent(s')
  {
    assert forall i :: 0 <= i < |s.referrals| ==> s'.referrals[i] == s.referrals[i];
  }

  /** The bonus a referrer earns on a deposit: `DepositBonusPercentage` percent of it. */
  function DepositBonusFor(depositAmount: int): int
  {
    depositAmount * DepositBonusPercentage / 100
  }

  /** The referral that pays out on `playerId`'s deposits: the one for the pair (the player's
      `referredBy`, the player), when the player, the referrer and the record all exist. */
  function PayingReferral(s: State, playerId: string): (i: Option<nat>)
    ensures i.Some? <==>
      && FindPlayer(s.players, ById(playerId)).Some?
      && FindPlayer(s.players, ById(playerId)).value.referredBy.Some?
      && FindReferral(s.referrals, FindPlayer(s.players, ById(playerId)).value.referredBy.value, playerId).Some?
    ensures i.Some? ==>
      && i.value < |s.referrals| && s.referrals[i.value].referredId == playerId
      && s.referrals[i.value].referrerId == FindPlayer(s.players, ById(playerId)).value.referredBy.value
  {
    match FindPlayer(s.players, ById(playerId))
    case None => None
    case Some(player) =>
      match player.referredBy
      case None => None
      case Some(referrerId) => FindReferral(s.referrals, referrerId, playerId)
  }

  /** On a consistent store the referral a deposit pays out on is simply the one referral naming
      the depositor: there is none exactly when no referral names the player. */
  lemma PayingReferralIsTheReferral(s: State, playerId: string, i: nat)
    requires Consistent(s)
    ensures PayingReferral(s, playerId).None? <==> forall j :: 0 <= j < |s.referrals| ==> s.referrals[j].referredId != playerId
    ensures i < |s.referrals| && s.referrals[i].referredId == playerId ==> PayingReferral(s, playerId) == Some(i)
  {
    if j :| 0 <= j < |s.referrals| && s.referrals[j].referredId == playerId {
      PayingReferralFinds(s, playerId, j);
    }
    if i < |s.referrals| && s.referrals[i].referredId == playerId {
      PayingReferralFinds(s, playerId, i);
    }
  }

  lemma PayingReferralFinds(s: State, playerId: string, j: nat)
    requires Consistent(s) && j < |s.referrals| && s.referrals[j].referredId == playerId
    ensures PayingReferral(s, playerId) == Some(j)
  {
    var r := s.referrals[j];
    var k :| 0 <= k < |s.players| && s.players[k].id == playerId && s.players[k].referredBy == Some(r.referrerId);
    FindUnique(s.players, k, ById(playerId));
    FoundReferralIsOnly(s.referrals, r.referrerId, playerId, j);
  }

  /** The referral deposit hook. A player without a referrer, or without a stored referral for
      that pair, is left alone. Otherwise the bonus is appended to the referral's history and then
      credited to the referrer as a REFERRAL_DEPOSIT_BONUS naming the depositor. */
  function ProcessDepositReferral(s: State, playerId: string, depositAmount: int): (out: (Outcome, State))
    ensures PayingReferral(s, playerId).None? ==> out == (Pass, s)
    ensures PayingReferral(s, playerId).Some? ==>
      var i := PayingReferral(s, playerId).value;
      var referrerId := s.referrals[i].referrerId;
      var bonus := DepositBonusFor(depositAmount);
      var noted := AddDepositBonus(s, i, bonus, depositAmount, Some(DepositBonusPercentage));
      && out.1.referrals == noted.referrals && out.1.players == s.players
      && (referrerId in s.wallets && s.wallets[referrerId].balance + bonus >= MinBalance ==>
            out.0 == Pass && Recorded(noted, out.1, Transaction(ReferralDepositBonus, bonus, referrerId, Some(playerId), noted.clock)))
      && (referrerId !in s.wallets ==> out == (Fail(NotFoundException(WalletNotFoundMessage)), noted))
      && (referrerId in s.wallets && s.wallets[referrerId].balance + bonus < MinBalance ==>
            out == (Fail(Rejected(BelowMinimum("balance"))), noted))
  {
    match PayingReferral(s, playerId)
    case None => (Pass, s)
    case Some(i) =>
      var referrerId := s.referrals[i].referrerId;
      var bonus := DepositBonusFor(depositAmount);
      var s1 := AddDepositBonus(s, i, bonus, depositAmount, Some(DepositBonusPercentage));
      var (credited, s2) := CreditReferralBonus(s1, referrerId, bonus, playerId, ReferralDepositBonus);
      if credited.Err? then (Fail(credited.failure), s2) else (Pass, s2)
  }

  /** The deposit hook keeps the store consistent, and on a consistent store it never fails for
      a non-negative deposit. */
  lemma DepositReferralConsistent(s: State, playerId: string, depositAmount: int)
    requires Consistent(s)
    ensures Consistent(ProcessDepositReferral(s, playerId, depositAmount).1)
    ensures depositAmount >= 0 ==> ProcessDepositReferral(s, playerId, depositAmount).0 == Pass
  {
    match PayingReferral(s, playerId)
    case None =>
    case Some(i) =>
      var referrerId := s.referrals[i].referrerId;
      var bonus := DepositBonusFor(depositAmount);
      var s1 := AddDepositBonus(s, i, bonus, depositAmount, Some(DepositBonusPercentage));
      AddDepositBonusConsistent(s, i, bonus, depositAmount, Some(DepositBonusPercentage));
      PayingReferrerHasWallet(s, playerId);
      var (credited, s2) := CreditReferralBonus(s1, referrerId, bonus, playerId, ReferralDepositBonus);
      assert ProcessDepositReferral(s, playerId, depositAmount) == (if credited.Err? then Fail(credited.failure) else Pass, s2);
  }

  /** Noting a deposit bonus on a stored referral keeps the store consistent. */
  lemma AddDepositBonusConsistent(s: State, i: nat, amount: int, depositAmount: int, percentage: Option<int>)
    requires Consistent(s) && i < |s.referrals|
    ensures Consistent(AddDepositBonus(s, i, amount, depositAmount, percentage))
  {
    var s1 := AddDepositBonus(s, i, amount, depositAmount, percentage);
    assert forall j :: 0 <= j < |s.referrals| ==>
      s1.referrals[j].referrerId == s.referrals[j].referrerId && s1.referrals[j].referredId == s.referrals[j].referredId;
  }

  // ---------------------------------------------------------------------------------------------
  // Referral queries

  datatype ReferralStats = ReferralStats(totalReferrals: int, totalRegistrationBonus: int, totalDepositBonus: int)

  /** The number of referrals `referrerId` made. */
  function CountReferrals(rs: seq<Referral>, referrerId: string): (n: nat)
    ensures n == 0 <==> forall i :: 0 <= i < |rs| ==> rs[i].referrerId != referrerId
    ensures n <= |rs|
    decreases |rs|
  {
    if rs == [] then 0
    else CountReferrals(rs[..|rs| - 1], referrerId) + (if rs[|rs| - 1].referrerId == referrerId then 1 else 0)
  }

  /** The number of those referrals that paid the registration bonus. */
  function CountRegistrationBonuses(rs: seq<Referral>, referrerId: string): (n: nat)
    ensures n <= CountReferrals(rs, referrerId)
    decreases |rs|
  {
    if rs == [] then 0
    else
      var last := rs[|rs| - 1];
      CountRegistrationBonuses(rs[..|rs| - 1], referrerId) + (if last.referrerId == referrerId && last.registrationBonus then 1 else 0)
  }

  /** The sum of the amounts in a deposit-bonus history. */
  function SumBonuses(bs: seq<DepositBonus>): int
    decreases |bs|
  {
    if bs == [] then 0 else SumBonuses(bs[..|bs| - 1]) + bs[|bs| - 1].amount
  }

  /** The sum of all deposit bonuses recorded on `referrerId`'s referrals. */
  function TotalDepositBonus(rs: seq<Referral>, referrerId: string): (total: int)
    decreases |rs|
  {
    if rs == [] then 0
    else
      var last := rs[|rs| - 1];
      TotalDepositBonus(rs[..|rs| - 1], referrerId) + (if last.referrerId == referrerId then SumBonuses(last.depositBonuses) else 0)
  }

  /** `getReferralStats`: how many players `referrerId` referred, the registration bonuses those
      referrals paid (100 each) and the deposit bonuses they have paid so far. */
  function GetReferralStats(s: State, referrerId: string): (st: ReferralStats)
    ensures 0 <= st.totalRegistrationBonus <= RegistrationBonusAmount * st.totalReferrals
    ensures st.totalReferrals == 0 ==> st == ReferralStats(0, 0, 0)
  {
    var n := CountReferrals(s.referrals, referrerId);
    NoReferralsNoBonus(s.referrals, referrerId);
    ReferralStats(n, CountRegistrationBonuses(s.referrals, referrerId) * RegistrationBonusAmount, TotalDepositBonus(s.referrals, referrerId))
  }

  /** A player who referred nobody has earned no deposit bonus. */
  lemma {:induction false} NoReferralsNoBonus(rs: seq<Referral>, referrerId: string)
    ensures CountReferrals(rs, referrerId) == 0 ==> TotalDepositBonus(rs, referrerId) == 0
    decreases |rs|
  {
    if rs != [] {
      NoReferralsNoBonus(rs[..|rs| - 1], referrerId);
    }
  }

  /** Appending a referral adds its contribution to its referrer's counts and nothing to anyone
      else's. */
  lemma StatsAppend(rs: seq<Referral>, r: Referral, referrerId: string)
    ensures CountReferrals(rs + [r], referrerId) == CountReferrals(rs, referrerId) + (if r.referrerId == referrerId then 1 else 0)
    ensures CountRegistrationBonuses(rs + [r], referrerId) ==
      CountRegistrationBonuses(rs, referrerId) + (if r.referrerId == referrerId && r.registrationBonus then 1 else 0)
    ensures TotalDepositBonus(rs + [r], referrerId) ==
      TotalDepositBonus(rs, referrerId) + (if r.referrerId == referrerId then SumBonuses(r.depositBonuses) else 0)
  {
    assert (rs + [r])[..|rs|] == rs;
  }

  /** Replacing the bonus history of the referral at `i` changes neither count. */
  lemma {:induction false} StatsUpdateCounts(rs: seq<Referral>, i: nat, r: Referral, referrerId: string)
    requires i < |rs| && r.referrerId == rs[i].referrerId && r.registrationBonus == rs[i].registrationBonus
    ensures CountReferrals(rs[i := r], referrerId) == CountReferrals(rs, referrerId)
    ensures CountRegistrationBonuses(rs[i := r], referrerId) == CountRegistrationBonuses(rs, referrerId)
    decreases |rs|
  {
    var n := |rs| - 1;
    if i < n {
      assert rs[i := r][..n] == rs[..n][i := r];
      StatsUpdateCounts(rs[..n], i, r, referrerId);
    } else {
      assert rs[i := r][..n] == rs[..n];
    }
  }

  /** Replacing the bonus history of the referral at `i` changes only its referrer's deposit-bonus
      total, by the difference of the two histories. */
  lemma {:induction false} StatsUpdateTotal(rs: seq<Referral>, i: nat, r: Referral, referrerId: string)
    requires i < |rs| && r.referrerId == rs[i].referrerId
    ensures TotalDepositBonus(rs[i := r], referrerId) == TotalDepositBonus(rs, referrerId) +
      (if r.referrerId == referrerId then SumBonuses(r.depositBonuses) - SumBonuses(rs[i].depositBonuses) else 0)
    decreases |rs|
  {
    var n := |rs| - 1;
    if i < n {
      assert rs[i := r][..n] == rs[..n][i := r];
      assert rs[i := r][n] == rs[n];
      StatsUpdateTotal(rs[..n], i, r, referrerId);
    } else {
      assert rs[i := r][..n] == rs[..n];
    }
  }

  lemma SumBonusesAppend(bs: seq<DepositBonus>, b: DepositBonus)
    ensures SumBonuses(bs + [b]) == SumBonuses(bs) + b.amount
  {
    assert (bs + [b])[..|bs|] == bs;
  }

  /** A player's public fields, without the password digest or the request metadata. */
  datatype PlayerSummary = PlayerSummary(id: string, name: string, phoneNumber: string, referralCode: string, createdAt: nat)

  function Summary(p: Player): PlayerSummary
  {
    PlayerSummary(p.id, p.name, p.phoneNumber, p.referralCode, p.createdAt)
  }

  /** The summary of the player a referral names as referred, if that player is stored. */
  function ReferredSummary(ps: seq<Player>, r: Referral): Option<PlayerSummary>
  {
    match FindPlayer(ps, ById(r.referredId))
    case None => None
    case Some(p) => Some(Summary(p))
  }

  /** `getReferredPlayers`: the players `referrerId` referred, in the order of their referrals. */
  function ReferredPlayers(ps: seq<Player>, rs: seq<Referral>, referrerId: string): (out: seq<PlayerSummary>)
    ensures |out| <= CountReferrals(rs, referrerId)
    ensures forall q :: q in out ==> exists i :: 0 <= i < |rs| && rs[i].referrerId == referrerId && ReferredSummary(ps, rs[i]) == Some(q)
    decreases |rs|
  {
    if rs == [] then []
    else
      var init := rs[..|rs| - 1];
      var last := rs[|rs| - 1];
      var rest := ReferredPlayers(ps, init, referrerId);
      assert forall q :: q in rest ==> exists i :: 0 <= i < |rs| && rs[i].referrerId == referrerId && ReferredSummary(ps, rs[i]) == Some(q) by {
        forall q | q in rest
          ensures exists i :: 0 <= i < |rs| && rs[i].referrerId == referrerId && ReferredSummary(ps, rs[i]) == Some(q)
        {
          var i :| 0 <= i < |init| && init[i].referrerId == referrerId && ReferredSummary(ps, init[i]) == Some(q);
          assert rs[i] == init[i];
        }
      }
      if last.referrerId == referrerId && ReferredSummary(ps, last).Some? then rest + [ReferredSummary(ps, last).value]
      else rest
  }

  /** When every referred player is stored, the list holds one entry per referral. */
  lemma {:induction false} ReferredPlayersCount(ps: seq<Player>, rs: seq<Referral>, referrerId: string)
    requires forall i :: 0 <= i < |rs| ==> HasPlayer(ps, rs[i].referredId)
    ensures |ReferredPlayers(ps, rs, referrerId)| == CountReferrals(rs, referrerId)
    decreases |rs|
  {
    if rs != [] {
      var init := rs[..|rs| - 1];
      assert forall i :: 0 <= i < |init| ==> init[i] == rs[i];
      ReferredPlayersCount(ps, init, referrerId);
      HasPlayerFind(ps, rs[|rs| - 1].referredId);
    }
  }

  lemma ReferredPlayersAppend(ps: seq<Player>, rs: seq<Referral>, r: Referral, referrerId: string)
    ensures ReferredPlayers(ps, rs + [r], referrerId) ==
      ReferredPlayers(ps, rs, referrerId) + (if r.referrerId == referrerId && ReferredSummary(ps, r).Some? then [ReferredSummary(ps, r).value] else [])
  {
    assert (rs + [r])[..|rs|] == rs;
  }

  /** Storing one more player leaves a referrer's list as it was, as long as every referral
      already names a stored player. */
  lemma {:induction false} ReferredPlayersNewPlayer(ps: seq<Player>, p: Player, rs: seq<Referral>, referrerId: string)
    requires forall i :: 0 <= i < |rs| ==> HasPlayer(ps, rs[i].referredId)
    ensures ReferredPlayers(ps + [p], rs, referrerId) == ReferredPlayers(ps, rs, referrerId)
    decreases |rs|
  {
    if rs != [] {
      var init := rs[..|rs| - 1];
      assert forall i :: 0 <= i < |init| ==> init[i] == rs[i];
      ReferredPlayersNewPlayer(ps, p, init, referrerId);
      HasPlayerFind(ps, rs[|rs| - 1].referredId);
      FindPlayerAppend(ps, p, ById(rs[|rs| - 1].referredId));
    }
  }

  const RegisterPath: string := "/register?ref="
  const PlayerNotFoundMessage: string := "Player not found"

  /** `generateReferralLink`: the registration URL under `baseUrl` carrying the player's referral
      code. */
  function GenerateReferralLink(s: State, playerId: string, baseUrl: string): (r: Result<string>)
    ensures r.Err? <==> !HasPlayer(s.players, playerId)
    ensures r.Err? ==> r.failure == NotFoundException(PlayerNotFoundMessage)
    ensures r.Ok? ==> exists i :: 0 <= i < |s.players| && s.players[i].id == playerId && r.value == baseUrl + RegisterPath + s.players[i].referralCode
  {
    HasPlayerFind(s.players, playerId);
    match FindPlayer(s.players, ById(playerId))
    case None => Err(NotFoundException(PlayerNotFoundMessage))
    case Some(p) => Ok(baseUrl + RegisterPath + p.referralCode)
  }

  /** The `ref` parameter of a link generated under `baseUrl`. */
  function LinkReferralCode(baseUrl: string, link: string): (code: Option<string>)
    ensures code.Some? <==> |link| >= |baseUrl + RegisterPath| && link[..|baseUrl + RegisterPath|] == baseUrl + RegisterPath
    ensures code.Some? ==> link == baseUrl + RegisterPath + code.value
  {
    var prefix := baseUrl + RegisterPath;
    if |link| >= |prefix| && link[..|prefix|] == prefix then Some(link[|prefix|..]) else None
  }

  /** A generated link carries the player's own referral code, so following it leads a new player
      back to the link's owner. */
  lemma {:induction false} ReferralLinkRoundTrip(s: State, playerId: string, baseUrl: string)
    requires WellFormed(s) && HasPlayer(s.players, playerId)
    ensures GenerateReferralLink(s, playerId, baseUrl).Ok?
    ensures var code := LinkReferralCode(baseUrl, GenerateReferralLink(s, playerId, baseUrl).value);
      && code.Some?
      && FindPlayer(s.players, ByReferralCode(code.value)).Some?
      && FindPlayer(s.players, ByReferralCode(code.value)).value.id == playerId
  {
    var link := GenerateReferralLink(s, playerId, baseUrl).value;
    var i :| 0 <= i < |s.players| && s.players[i].id == playerId && link == baseUrl + RegisterPath + s.players[i].referralCode;
    var prefix := baseUrl + RegisterPath;
    assert link[..|prefix|] == prefix;
    assert link[|prefix|..] == s.players[i].referralCode;
    FindUnique(s.players, i, ByReferralCode(s.players[i].referralCode));
  }

  // ---------------------------------------------------------------------------------------------
  // What the referral operations do to the queries

  /** A new registration referral counts once more for its referrer, with one more registration
      bonus and no deposit bonus; nobody else's figures move. This holds whether or not the credit
      that follows succeeds, because the referral is stored first. */
  lemma RegistrationReferralStats(s: State, referrerId: string, referredId: string, x: string)
    requires referrerId != "" && referredId != "" && FindReferral(s.referrals, referrerId, referredId).None?
    ensures var before := GetReferralStats(s, x);
      GetReferralStats(ProcessRegistrationReferral(s, referrerId, referredId).1, x) ==
        if x == referrerId
        then ReferralStats(before.totalReferrals + 1, before.totalRegistrationBonus + RegistrationBonusAmount, before.totalDepositBonus)
        else before
  {
    var r := Referral(referrerId, referredId, true, [], s.clock);
    var after := ProcessRegistrationReferral(s, referrerId, referredId).1;
    assert after.referrals == s.referrals + [r];
    StatsAppend(s.referrals, r, x);
    assert SumBonuses(r.depositBonuses) == 0;
  }

  /** The whole state a successful registration referral leaves: the new referral, then the
      referrer's bonus transaction and its balance raised by 100, and nothing else changed. */
  lemma RegistrationReferralWrites(s: State, referrerId: string, referredId: string)
    requires referrerId != "" && referredId != "" && FindReferral(s.referrals, referrerId, referredId).None?
    requires referrerId in s.wallets && s.wallets[referrerId].balance >= MinBalance
    ensures ProcessRegistrationReferral(s, referrerId, referredId) ==
      (Pass, s.(referrals := s.referrals + [Referral(referrerId, referredId, true, [], s.clock)],
                transactions := s.transactions + [Transaction(ReferralBonus, RegistrationBonusAmount, referrerId, Some(referredId), s.clock + 1)],
                wallets := s.wallets[referrerId := s.wallets[referrerId].(balance := s.wallets[referrerId].balance + RegistrationBonusAmount)],
                clock := s.clock + 2))
  {
  }

  /** A new registration referral adds the referred player to the end of the referrer's list. */
  lemma RegistrationReferralListed(s: State, referrerId: string, referredId: string, x: string)
    requires referrerId != "" && referredId != "" && FindReferral(s.referrals, referrerId, referredId).None?
    ensures var after := ProcessRegistrationReferral(s, referrerId, referredId).1;
      ReferredPlayers(after.players, after.referrals, x) ==
        ReferredPlayers(s.players, s.referrals, x) +
          (if x == referrerId && HasPlayer(s.players, referredId) then [Summary(FindPlayer(s.players, ById(referredId)).value)] else [])
  {
    var r := Referral(referrerId, referredId, true, [], s.clock);
    var after := ProcessRegistrationReferral(s, referrerId, referredId).1;
    assert after.referrals == s.referrals + [r] && after.players == s.players;
    ReferredPlayersAppend(s.players, s.referrals, r, x);
    HasPlayerFind(s.players, referredId);
  }

  /** The registration referral is exactly-once: repeating it for the same pair is refused by the
      unique index and changes nothing, so the referrer is never credited twice. */
  lemma RegistrationReferralOnce(s: State, referrerId: string, referredId: string)
    requires referrerId != "" && referredId != ""
    ensures var after := ProcessRegistrationReferral(s, referrerId, referredId).1;
      ProcessRegistrationReferral(after, referrerId, referredId) == (Fail(Rejected(DuplicateKey)), after)
  {
    var after := ProcessRegistrationReferral(s, referrerId, referredId).1;
    if FindReferral(s.referrals, referrerId, referredId).None? {
      assert IsPair(after.referrals[|s.referrals|], referrerId, referredId);
    }
  }

  /** The unique index is on the (referrer, referred) pair, so by itself it does not keep a player
      from being referred twice: a second referrer for an already referred player is accepted.
      That a player is referred at most once rests on registration calling the referral exactly
      once, for the player it has just saved (`ReferralsFollowReferredBy`, `ReferredOnce`). */
  lemma PairIndexAdmitsSecondReferrer(s: State, first: string, second: string, referredId: string)
    requires first != second && second != "" && referredId != ""
    requires s.referrals == [Referral(first, referredId, true, [], 0)]
    requires second in s.wallets && s.wallets[second].balance >= MinBalance
    ensures var (r, after) := ProcessRegistrationReferral(s, second, referredId);
      && r == Pass && |after.referrals| == 2
      && after.referrals[0].referredId == after.referrals[1].referredId == referredId
  {
    assert !IsPair(s.referrals[0], second, referredId);
  }

  /** A deposit bonus adds its amount to the referrer's deposit-bonus total and leaves the counts,
      and everybody else's figures, as they were. */
  lemma DepositReferralStats(s: State, playerId: string, depositAmount: int, x: string)
    requires PayingReferral(s, playerId).Some?
    ensures var before := GetReferralStats(s, x);
      var referrerId := s.referrals[PayingReferral(s, playerId).value].referrerId;
      GetReferralStats(ProcessDepositReferral(s, playerId, depositAmount).1, x) ==
        if x == referrerId
        then ReferralStats(before.totalReferrals, before.totalRegistrationBonus, before.totalDepositBonus + DepositBonusFor(depositAmount))
        else before
  {
    var i := PayingReferral(s, playerId).value;
    var noted := AddDepositBonus(s, i, DepositBonusFor(depositAmount), depositAmount, Some(DepositBonusPercentage));
    assert noted.referrals == s.referrals[i := noted.referrals[i]];
    StatsUpdateCounts(s.referrals, i, noted.referrals[i], x);
    StatsUpdateTotal(s.referrals, i, noted.referrals[i], x);
    SumBonusesAppend(s.referrals[i].depositBonuses, noted.referrals[i].depositBonuses[|s.referrals[i].depositBonuses|]);
  }

  /** A deposit by a player nobody referred records the DEPOSIT and nothing else: only the
      depositor's wallet moves. */
  lemma DepositWithoutReferrer(s: State, playerId: string, amount: int)
    requires MinDeposit <= amount <= MaxDeposit && playerId in s.wallets && s.wallets[playerId].balance >= MinBalance
    requires PayingReferral(s, playerId).None?
    ensures Deposit(s, playerId, amount).0 == Ok(s.wallets[playerId].(balance := s.wallets[playerId].balance + amount))
    ensures Recorded(s, Deposit(s, playerId, amount).1, Transaction(WalletModel.Deposit, amount, playerId, None, s.clock))
  {
    var recorded := Record(s, Transaction(WalletModel.Deposit, amount, playerId, None, s.clock));
    assert PayingReferral(recorded, playerId) == PayingReferral(s, playerId);
  }

  /** On a consistent store the referrer a deposit pays is a stored player other than the
      depositor, holding a wallet. */
  lemma PayingReferrerHasWallet(s: State, playerId: string)
    requires Consistent(s) && PayingReferral(s, playerId).Some?
    ensures var referrerId := s.referrals[PayingReferral(s, playerId).value].referrerId;
      referrerId != playerId && referrerId in s.wallets && s.wallets[referrerId].balance >= MinBalance
  {
    var referrerId := s.referrals[PayingReferral(s, playerId).value].referrerId;
    var k :| 0 <= k < |s.players| && s.players[k].id == referrerId;
  }

  /** The deposit hook of a referred player whose referrer holds a wallet credits the referrer
      with the bonus, records that credit, and touches no other wallet. */
  lemma DepositHookPays(s: State, playerId: string, depositAmount: int)
    requires depositAmount >= 0 && PayingReferral(s, playerId).Some?
    requires var referrerId := s.referrals[PayingReferral(s, playerId).value].referrerId;
      referrerId in s.wallets && s.wallets[referrerId].balance >= MinBalance
    ensures var referrerId := s.referrals[PayingReferral(s, playerId).value].referrerId;
      var bonus := DepositBonusFor(depositAmount);
      var (hook, after) := ProcessDepositReferral(s, playerId, depositAmount);
      && hook == Pass
      && after.wallets == s.wallets[referrerId := s.wallets[referrerId].(balance := s.wallets[referrerId].balance + bonus)]
      && after.transactions == s.transactions + [Transaction(ReferralDepositBonus, bonus, referrerId, Some(playerId), s.clock + 1)]
  {
    var i := PayingReferral(s, playerId).value;
    var noted := AddDepositBonus(s, i, DepositBonusFor(depositAmount), depositAmount, Some(DepositBonusPercentage));
    assert noted.wallets == s.wallets && noted.transactions == s.transactions && noted.clock == s.clock + 1;
  }

  /** A deposit by a referred player whose referrer holds a wallet (on a consistent store every
      referrer does; see `PayingReferrerHasWallet`): the depositor's balance rises by the amount,
      the referrer's by ten percent of it, the log gains the DEPOSIT and then the REFERRAL_DEPOSIT_BONUS naming
      the depositor, and no other wallet changes. */
  lemma DepositPaysReferrer(s: State, playerId: string, amount: int)
    requires MinDeposit <= amount <= MaxDeposit && playerId in s.wallets && s.wallets[playerId].balance >= MinBalance
    requires PayingReferral(s, playerId).Some?
    requires var referrerId := s.referrals[PayingReferral(s, playerId).value].referrerId;
      referrerId != playerId && referrerId in s.wallets && s.wallets[referrerId].balance >= MinBalance
    ensures var referrerId := s.referrals[PayingReferral(s, playerId).value].referrerId;
      var (r, after) := Deposit(s, playerId, amount);
      && r == Ok(s.wallets[playerId].(balance := s.wallets[playerId].balance + amount))
      && after.wallets == s.wallets[playerId := s.wallets[playerId].(balance := s.wallets[playerId].balance + amount)]
                                   [referrerId := s.wallets[referrerId].(balance := s.wallets[referrerId].balance + DepositBonusFor(amount))]
      && after.transactions == s.transactions + [
           Transaction(WalletModel.Deposit, amount, playerId, None, s.clock),
           Transaction(ReferralDepositBonus, DepositBonusFor(amount), referrerId, Some(playerId), s.clock + 2)]
  {
    DepositReachesHook(s, playerId, amount);
    HookAfterDeposit(s, playerId, amount);
  }

  /** The second half of `DepositPaysReferrer`: the state the referral hook leaves after the
      DEPOSIT is recorded. */
  lemma HookAfterDeposit(s: State, playerId: string, amount: int)
    requires MinDeposit <= amount <= MaxDeposit && playerId in s.wallets && s.wallets[playerId].balance >= MinBalance
    requires PayingReferral(s, playerId).Some?
    requires var referrerId := s.referrals[PayingReferral(s, playerId).value].referrerId;
      referrerId != playerId && referrerId in s.wallets && s.wallets[referrerId].balance >= MinBalance
    ensures var referrerId := s.referrals[PayingReferral(s, playerId).value].referrerId;
      var t := Transaction(WalletModel.Deposit, amount, playerId, None, s.clock);
      var after := ProcessDepositReferral(Record(s, t), playerId, amount).1;
      && after.wallets == s.wallets[playerId := s.wallets[playerId].(balance := s.wallets[playerId].balance + amount)]
                                   [referrerId := s.wallets[referrerId].(balance := s.wallets[referrerId].balance + DepositBonusFor(amount))]
      && after.transactions == s.transactions + [t,
           Transaction(ReferralDepositBonus, DepositBonusFor(amount), referrerId, Some(playerId), s.clock + 2)]
  {
    var t := Transaction(WalletModel.Deposit, amount, playerId, None, s.clock);
    var recorded := Record(s, t);
    RecordedKeepsReferrals(s, recorded, t, playerId);
    DepositHookPays(recorded, playerId, amount);
  }

  /** The first half of `DepositPaysReferrer`: the deposit succeeds and ends in the state the
      referral hook leaves after the DEPOSIT is recorded. */
  lemma DepositReachesHook(s: State, playerId: string, amount: int)
    requires MinDeposit <= amount <= MaxDeposit && playerId in s.wallets && s.wallets[playerId].balance >= MinBalance
    requires PayingReferral(s, playerId).Some?
    requires var referrerId := s.referrals[PayingReferral(s, playerId).value].referrerId;
      referrerId != playerId && referrerId in s.wallets && s.wallets[referrerId].balance >= MinBalance
    ensures var t := Transaction(WalletModel.Deposit, amount, playerId, None, s.clock);
      var hook := ProcessDepositReferral(Record(s, t), playerId, amount);
      Deposit(s, playerId, amount) == (Ok(s.wallets[playerId].(balance := s.wallets[playerId].balance + amount)), hook.1)
  {
    DepositHookPasses(s, playerId, amount);
  }

  lemma DepositHookPasses(s: State, playerId: string, amount: int)
    requires MinDeposit <= amount <= MaxDeposit && playerId in s.wallets && s.wallets[playerId].balance >= MinBalance
    requires PayingReferral(s, playerId).Some?
    requires var referrerId := s.referrals[PayingReferral(s, playerId).value].referrerId;
      referrerId != playerId && referrerId in s.wallets && s.wallets[referrerId].balance >= MinBalance
    ensures var t := Transaction(WalletModel.Deposit, amount, playerId, None, s.clock);
      ProcessDepositReferral(Record(s, t), playerId, amount).0 == Pass
  {
    var t := Transaction(WalletModel.Deposit, amount, playerId, None, s.clock);
    var recorded := Record(s, t);
    RecordedKeepsReferrals(s, recorded, t, playerId);
    DepositHookPays(recorded, playerId, amount);
  }

  /** Recording a transaction leaves the players and referrals, and so the paying referral. */
  lemma RecordedKeepsReferrals(s: State, s': State, t: Transaction, playerId: string)
    requires Recorded(s, s', t)
    ensures PayingReferral(s', playerId) == PayingReferral(s, playerId)
  {
  }
}
