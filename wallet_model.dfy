/** The Wallet and Transaction schemas. A wallet is keyed by its player id (the unique index), its
    balance is required, defaults to 0 and may not go below 0. A transaction is an immutable ledger
    entry whose type is one of four names. */
module WalletModel {
  import opened Errors

  datatype TransactionType = Deposit | Withdrawal | ReferralBonus | ReferralDepositBonus

  /** The enum string stored for each type. */
  function TypeName(t: TransactionType): string
  {
    match t
    case Deposit => "DEPOSIT"
    case Withdrawal => "WITHDRAWAL"
    case ReferralBonus => "REFERRAL_BONUS"
    case ReferralDepositBonus => "REFERRAL_DEPOSIT_BONUS"
  }

  /** The schema's enum check: a stored type string is accepted iff it is one of the four names. */
  function ParseType(s: string): (t: Option<TransactionType>)
    ensures t.Some? <==> s in {"DEPOSIT", "WITHDRAWAL", "REFERRAL_BONUS", "REFERRAL_DEPOSIT_BONUS"}
  {
    if s == "DEPOSIT" then Some(Deposit)
    else if s == "WITHDRAWAL" then Some(Withdrawal)
    else if s == "REFERRAL_BONUS" then Some(ReferralBonus)
    else if s == "REFERRAL_DEPOSIT_BONUS" then Some(ReferralDepositBonus)
    else None
  }

  /** Names and types correspond one to one. */
  lemma TypeNameRoundTrip(t: TransactionType, s: string)
    ensures ParseType(TypeName(t)) == Some(t)
    ensures ParseType(s) == Some(t) ==> TypeName(t) == s
  {
  }

  /** The two types a referral credit may carry. */
  predicate IsBonusType(t: TransactionType)
  {
    t == ReferralBonus || t == ReferralDepositBonus
  }

  datatype Wallet = Wallet(playerId: string, balance: int)

  const DefaultBalance: int := 0
  const MinBalance: int := 0

  /** A wallet document as first saved: the balance takes its default. */
  function NewWallet(playerId: string): (w: Wallet)
    ensures w.playerId == playerId && w.balance == DefaultBalance
  {
    Wallet(playerId, DefaultBalance)
  }

  /** `sourcePlayerId` is optional; `createdAt` defaults to the time of creation. */
  datatype Transaction = Transaction(
    kind: TransactionType,
    amount: int,
    playerId: string,
    sourcePlayerId: Option<string>,
    createdAt: nat)

  /** The wallet collection: keyed by player id (so at most one wallet per player), every key a
      present player id, every balance at least the schema minimum. */
  predicate WalletsWellFormed(ws: map<string, Wallet>)
  {
    forall k :: k in ws ==> ws[k].playerId == k && k != "" && ws[k].balance >= MinBalance
  }

  /** The transaction log in creation order: creation times strictly increase and all lie before
      the store's clock. */
  predicate Chronological(txs: seq<Transaction>, clock: nat)
  {
    && OldestFirst(txs)
    && (forall i :: 0 <= i < |txs| ==> txs[i].createdAt < clock)
  }

  /** Creation times strictly increase along the sequence. */
  predicate OldestFirst(txs: seq<Transaction>)
  {
    forall i, j :: 0 <= i < j < |txs| ==> txs[i].createdAt < txs[j].createdAt
  }

  /** Creation times strictly decrease along the sequence: the order `sort({ createdAt: -1 })`
      yields. */
  predicate NewestFirst(txs: seq<Transaction>)
  {
    forall i, j :: 0 <= i < j < |txs| ==> txs[i].createdAt > txs[j].createdAt
  }

  /** Appending an entry stamped with the clock, and advancing the clock, keeps the log in order. */
  lemma ChronologicalAppend(txs: seq<Transaction>, clock: nat, t: Transaction)
    requires Chronological(txs, clock) && t.createdAt == clock
    ensures Chronological(txs + [t], clock + 1)
  {
  }
}
