# Player referral backend: wallet ledger and referral bonuses

This project models the core of a player-referral REST backend in Dafny: players register (optionally
with a referrer's code), every player has one wallet, deposits and withdrawals move the wallet
balance and append one typed transaction each, and the referral program pays a referrer twice — a
flat 100 when a referred player registers and 10% of every deposit that player makes.

The model has two layers.

- **Values.** The document database becomes `Store.State`: players and referrals and transactions
  as sequences in insertion order, wallets as a map keyed by player id, and a logical clock that
  stamps every created record. Every service operation is a function from the state before the
  call to its result and the state after it (`Ledger` for the wallet and referral engines,
  `Accounts` for registration and login, `Profiles` for the profile projection). The schema checks
  the database would make on save (required fields, the 0 minimum on a balance, the unique
  indexes) are applied by the `Store` writes. The store invariant `Ledger.Consistent` says that the
  schemas hold, that wallets and players correspond one to one, that every referral and every
  `referredBy` names stored players, that every balance is the net of its player's
  transactions, and that every referral is the one its referred player's `referredBy` names.
- **Objects.** `Persistence.Database` holds the collections as fields that its write methods
  update, and the four `Services` classes perform the source's operations step by step against it.
  Each method ends in exactly the result and the state the corresponding function describes,
  including the wallet and referral services' mutual references (the referral service creates its
  wallet service lazily).

A player is referred at most once (`Ledger.ReferredOnce`). The compound unique index on
(referrer, referred) does not guarantee this by itself (`Ledger.PairIndexAdmitsSecondReferrer`); it
holds because registration records exactly one referral, for the player it has just saved, naming
the referrer that player's `referredBy` names, and the invariant `Ledger.ReferralsFollowReferredBy`
keeps that link.

`Scenarios` follows the referral and wallet integration tests on the model, starting from an empty
store, and relates the request validators to the engines they guard.

Password hashing and verification are the function parameters `hash` and `matches`; the random
draws of the id generator are the index sequences `letterDraws` and `digitDraws`; the request's
IP address, origin URL and base URL are parameters.

## Model

| member | source | states |
|---|---|---|
| Errors.KindOf | src/utils/error.handler.ts:14-42 | a status names an exception kind exactly when it is one of 400, 401, 404, 409, 500, and that kind's status is the one given |
| Errors.Raise | src/utils/error.handler.ts:4-42 | an exception built from a kind carries that kind's status; an explicit message replaces the default one, otherwise the kind's default message is used |
| Errors.StatusInjective | src/utils/error.handler.ts:14-42 | no two exception kinds share a status code |
| Ids.DrawnId | src/utils/id.generator.ts:7-23 | the id built from the draws is 10 characters, 5 lower-case letters then 5 digits |
| Ids.GeneratePlayerId | src/utils/id.generator.ts:7-23 | the two appending loops build exactly the id the draws select, which has the player-id shape |
| Ids.EveryPlayerIdIsDrawn | src/utils/id.generator.ts:7-23 | every string of the player-id shape is produced by some valid draws, so the shape describes the generator's range exactly |
| Ids.ReferralCodeRoundTrip | src/utils/id.generator.ts:28-30 | a generated code is the prefix "REF-" followed by the id: dropping the prefix gives back the id, and a code whose owner is an id is exactly that id's generated code |
| Ids.ReferralCodeInjective | src/utils/id.generator.ts:28-30 | different ids get different referral codes |
| Validation.PhoneNumberShapes | src/utils/validator.ts:10 | a phone number is valid exactly when it is 10 to 14 digits, or a '+' followed by 10 to 14 digits |
| Validation.ValidPhoneNumber | src/utils/validator.ts:10 | defines the phone pattern: an optional '+' and then 10 to 14 digits |
| Validation.ValidName | src/utils/validator.ts:9 | defines a valid name: 3 to 50 characters |
| Validation.ValidPassword | src/utils/validator.ts:11 | defines a valid password: at least 6 characters |
| Validation.ValidRegistration | src/utils/validator.ts:7-16 | defines the registration validator: name, phone number and password present and valid, and a referral code, if given, non-empty |
| Validation.ValidLogin | src/utils/validator.ts:18-25 | defines the login validator: phone number and password present and non-empty, with no format rule |
| Validation.ValidDeposit | src/utils/validator.ts:27-33 | defines the deposit validator: an amount from 100 to 100000, both ends included |
| Validation.ValidWithdrawal | src/utils/validator.ts:35-41 | defines the withdrawal validator: an amount of at least 1 |
| Validation.ReferralCodeOptional | src/utils/validator.ts:7-16 | leaving the referral code out never makes a valid registration body invalid, and supplying a non-empty one never makes a valid body invalid |
| Validation.RegistrationExamples | src/utils/validator.ts:7-16 | the registration test's body is accepted; a one-letter name, a three-digit phone number and a two-letter password are each refused |
| WalletModel.ParseType | src/models/wallet.model.ts:30-34 | a type name parses exactly when it is one of DEPOSIT, WITHDRAWAL, REFERRAL_BONUS, REFERRAL_DEPOSIT_BONUS |
| WalletModel.TypeNameRoundTrip | src/models/wallet.model.ts:30-34 | the enum names and the four transaction types correspond one to one in both directions |
| WalletModel.ChronologicalAppend | src/models/wallet.model.ts:49-52 | appending a transaction stamped with the current clock keeps the log ordered by creation time, below the advanced clock |
| ReferralModel.FindReferral | src/models/referral.model.ts:55 | the lookup of a (referrer, referred) pair returns a record of that pair, and finds nothing exactly when no record has that pair |
| ReferralModel.FoundReferralIsOnly | src/models/referral.model.ts:55 | under the compound unique index the record of a pair is the one the lookup finds |
| ReferralModel.PairsUniqueInsert | src/models/referral.model.ts:55 | adding a referral for a pair not yet present keeps the pairs unique |
| ReferralModel.PairsUniqueUpdate | src/models/referral.model.ts:46-55 | rewriting a referral without changing its pair keeps the pairs unique |
| PlayerModel.FindPlayer | src/models/player.model.ts:10-51 | a lookup by id, phone number or referral code returns a stored player matching the query, and nothing exactly when none matches |
| PlayerModel.HasPlayerFind | src/models/player.model.ts:12-16 | a player with an id exists exactly when the lookup by that id finds one |
| PlayerModel.FindUnique | src/models/player.model.ts:12-42 | with unique ids, phone numbers and referral codes, the lookup returns the one player that matches |
| PlayerModel.PlayersUniqueInsert | src/models/player.model.ts:12-42 | adding a player whose id, phone number and referral code are all free keeps the three unique |
| PlayerModel.FindPlayerAppend | src/models/player.model.ts:10-51 | after appending a player, a lookup finds the earlier match if there was one, otherwise the new player if it matches |
| PlayerModel.HasPlayerAppend | src/models/player.model.ts:12-16 | after appending a player an id is present exactly when it was before or is the new player's |
| PlayerModel.ReferredByUnique | src/models/player.model.ts:12-16 | with unique ids a player names at most one referrer |
| PlayerModel.ReferredByAppend | src/models/player.model.ts:43-46 | after appending a player, a (player, referrer) link holds exactly when it held before or is the new player's own |
| PlayerModel.MissingPaths | src/models/player.model.ts:10-51 | a player lists no missing field exactly when id, name, phone number, password, IP address, origin URL and referral code are all non-empty; `referredBy` is not required |
| Store.EmptyWellFormed | src/models/wallet.model.ts:8-54 | the empty database satisfies every schema constraint |
| Store.WellFormed | src/models/player.model.ts:12-42 | defines the schema constraints of the whole database: unique player ids, phone numbers and referral codes, wallets keyed by a non-empty player id with a balance of at least 0, unique referral pairs, and transactions in creation order |
| WalletModel.WalletsWellFormed | src/models/wallet.model.ts:10-21 | defines the wallet constraints: each wallet is stored under its own non-empty player id and its balance is at least the minimum 0 |
| PlayerModel.PlayersUnique | src/models/player.model.ts:12-42 | defines the three unique player indexes: no two players share an id, a phone number or a referral code |
| ReferralModel.PairsUnique | src/models/referral.model.ts:55 | defines the compound unique index: no two referrals share both referrer and referred player |
| Store.InsertPlayer | src/models/player.model.ts:10-51 | saving a player with a missing field or a taken id, phone number or referral code fails and changes nothing; otherwise the hashed, time-stamped player is appended; the schemas keep holding |
| Store.InsertWallet | src/models/wallet.model.ts:8-26 | creating a wallet fails without a player id or when the player has one; otherwise a wallet for that player holding the schema's default balance 0 is added and nothing else changes |
| Store.SaveWallet | src/models/wallet.model.ts:16-21 | saving a wallet with a negative balance fails and changes nothing; otherwise only that wallet is replaced |
| Store.InsertTransaction | src/models/wallet.model.ts:28-54 | a transaction is appended stamped with the clock, and the log stays chronological |
| Store.InsertReferral | src/models/referral.model.ts:29-55 | a referral missing an id fails, naming the missing fields; a duplicate pair fails; otherwise the referral is appended with both ids, the current time, the registration bonus only when it is set to true (the schema default is false) and no deposit bonuses; nothing else changes |
| Store.AddDepositBonus | src/models/referral.model.ts:46 | one deposit-bonus entry is appended to one referral's list; every other referral, player, wallet and transaction is unchanged |
| Ledger.NetAppend | src/models/wallet.model.ts:28-54 | a new transaction moves its player's net by its signed amount and no other player's |
| Ledger.NetOfAbsentPlayer | src/models/wallet.model.ts:28-54 | a player without transactions has a net of 0 |
| Ledger.EmptyConsistent | src/models/wallet.model.ts:8-54 | the empty database satisfies the store invariant |
| Ledger.Consistent | src/models/wallet.model.ts:8-54 | defines the store invariant: the schema constraints, wallets matching players, resolving references, owned transactions, reconciled balances, and referrals following `referredBy` |
| Ledger.WalletsMatchPlayers | src/services/auth.service.ts:52-55 | defines the one-to-one correspondence of wallets and players that saving the player with its wallet keeps |
| Ledger.ReferencesResolve | src/models/player.model.ts:43-46 | defines that every `referredBy` and both ends of every referral name stored players, and no referral pairs a player with itself |
| Ledger.ReferralsFollowReferredBy | src/models/referral.model.ts:54 | defines that every referral is the one its referred player's `referredBy` names |
| Ledger.ReferredOnce | src/models/referral.model.ts:54 | on a consistent store no two referrals name the same referred player: a player is referred at most once |
| Ledger.TransactionsOwned | src/models/wallet.model.ts:39-43 | defines that every transaction belongs to a stored wallet |
| Ledger.BalancesReconcile | src/services/wallet.service.ts:40-49 | defines that every balance is the net of its player's transactions, deposits and bonuses counted up and withdrawals down |
| Ledger.RecordedTouchesOneWallet | src/services/wallet.service.ts:34-49 | recording a transaction leaves every other player's wallet as it was |
| Ledger.RecordedConsistent | src/services/wallet.service.ts:41-49 | recording a transaction whose new balance is not negative keeps the store invariant, balances included |
| Ledger.GetWalletByPlayerId | src/services/wallet.service.ts:13-25 | the player's wallet if there is one, otherwise NotFound "Wallet not found"; on a consistent store its balance is not negative and is the net of the player's transactions |
| Ledger.CreditReferralBonus | src/services/wallet.service.ts:101-126 | no wallet: NotFound and no change; a balance that would go negative: the save fails and nothing changes; otherwise the balance rises by the amount and one transaction of the given bonus type, naming the source player, is recorded; the invariant is kept |
| Ledger.Withdraw | src/services/wallet.service.ts:60-89 | no wallet: NotFound and no change; balance below the amount: BadRequest "Insufficient balance" and no change; otherwise, equal amount included, the balance falls by the amount and one WITHDRAWAL is recorded; the returned balance is never negative; the invariant is kept |
| Ledger.History | src/services/wallet.service.ts:91-99 | the history holds exactly the player's transactions (none for an unknown player) and, on a log kept in creation order, lists them newest first |
| Ledger.Record | src/services/wallet.service.ts:40-49 | a balance update and its transaction together form one recorded step |
| Ledger.Deposit | src/services/wallet.service.ts:27-58 | an amount outside 100 to 100000 (both ends accepted): BadRequest with the range message and no change; no wallet: NotFound and no change; a balance that would end below 0 (only on a store that breaks the schema): the save fails and nothing changes; otherwise the balance rises by the amount, one DEPOSIT is recorded and the referral deposit hook runs on the result, whose failure is returned without undoing the deposit |
| Ledger.DepositConsistent | src/services/wallet.service.ts:27-58 | a deposit keeps the store invariant, and on a consistent store every in-range deposit to an existing wallet succeeds |
| Ledger.ProcessRegistrationReferral | src/services/referral.service.ts:21-37 | a referral with the registration bonus and no deposit bonuses is saved first; a missing id or a pair already present fails before any credit; after the save the referrer is credited 100 as REFERRAL_BONUS from the referred player, or the hook fails with NotFound when the referrer has no wallet, or with BelowMinimum when the credit would leave its balance negative |
| Ledger.RegistrationReferralConsistent | src/services/referral.service.ts:21-37 | between two distinct stored players, the referred one naming the referrer, the hook keeps the store invariant and succeeds exactly when the pair is new |
| Ledger.RegistrationReferralPays | src/services/referral.service.ts:21-37 | for a new pair of stored players, the referred one naming the referrer, the hook succeeds, keeps the invariant and leaves the referred player's wallet as it was |
| Ledger.RegistrationReferralWrites | src/services/referral.service.ts:21-37 | for a new pair whose referrer holds a wallet, the hook leaves exactly the store with the new referral (registration bonus, no deposit bonuses), one REFERRAL_BONUS of 100 from the referred player, and the referrer's balance raised by 100 |
| Ledger.ReferralInsertConsistent | src/models/referral.model.ts:29-55 | adding a referral between two distinct stored players, with unique pairs, whose referred player names that referrer, keeps the store invariant |
| Ledger.PayingReferral | src/services/wallet.service.ts:51-52 | a deposit pays out on a referral exactly when the depositor is stored, names a referrer, and a referral of that (referrer, depositor) pair is stored; that referral names the depositor as referred player and the depositor's `referredBy` as referrer |
| Ledger.PayingReferralIsTheReferral | src/models/referral.model.ts:54-55 | on a consistent store a deposit pays out on no referral exactly when no referral names the depositor, and otherwise on the one referral that does |
| Ledger.ProcessDepositReferral | test/referral.test.ts:117-149 | a depositor nobody referred: nothing happens; otherwise 10% of the deposit is noted as a deposit bonus on the referral and credited to the referrer as REFERRAL_DEPOSIT_BONUS from the depositor, or the hook fails with NotFound when the referrer has no wallet, or with BelowMinimum when the credit would leave its balance negative |
| Ledger.DepositBonusFor | test/referral.test.ts:139 | defines the deposit bonus as 10% of the deposit, rounded down |
| Ledger.DepositReferralConsistent | test/referral.test.ts:117-149 | the deposit hook keeps the store invariant and, for a non-negative deposit on a consistent store, always succeeds |
| Ledger.AddDepositBonusConsistent | src/models/referral.model.ts:46 | noting a deposit bonus keeps the store invariant |
| Ledger.CountReferrals | src/interfaces/referral.interface.ts:17-21 | the number of referrals a referrer made is 0 exactly when none names them, and at most the number of referrals |
| Ledger.CountRegistrationBonuses | src/interfaces/referral.interface.ts:17-21 | the referrals that paid a registration bonus are at most the referrer's referrals |
| Ledger.GetReferralStats | test/referral.test.ts:100-113 | the registration-bonus total is between 0 and 100 per referral, and a referrer with no referrals has all three figures 0 |
| Ledger.NoReferralsNoBonus | src/interfaces/referral.interface.ts:17-21 | a referrer with no referrals has no deposit bonus total |
| Ledger.StatsAppend | test/referral.test.ts:100-113 | a new referral raises its referrer's three figures by one, by its registration bonus and by its deposit bonuses, and no other referrer's |
| Ledger.StatsUpdateCounts | test/referral.test.ts:100-113 | rewriting a referral's deposit bonuses leaves every referral and registration-bonus count unchanged |
| Ledger.StatsUpdateTotal | test/referral.test.ts:117-149 | rewriting a referral's deposit bonuses moves its referrer's deposit-bonus total by the difference, and no other referrer's |
| Ledger.SumBonusesAppend | src/models/referral.model.ts:46 | a new deposit-bonus entry adds its amount to the sum |
| Ledger.SumBonuses | src/models/referral.model.ts:46 | defines the sum of the amounts of a referral's deposit-bonus entries |
| Ledger.TotalDepositBonus | src/interfaces/referral.interface.ts:17-21 | defines a referrer's deposit-bonus total as the sum of the entries over all of its referrals |
| Ledger.ReferredPlayers | test/referral.test.ts:85-96 | every listed player is the stored player of one of the referrer's referrals, and the list is no longer than the referrer's referrals |
| Ledger.ReferredPlayersCount | test/referral.test.ts:85-96 | when every referred player is stored, the list has one entry per referral, so its count is the referral count |
| Ledger.ReferredPlayersAppend | test/referral.test.ts:85-96 | a new referral of the referrer adds its referred player at the end of the list, and changes no other referrer's list |
| Ledger.ReferredPlayersNewPlayer | test/referral.test.ts:85-96 | storing a new player does not change any referrer's list while every referred player is stored |
| Ledger.Summary | test/referral.test.ts:85-96 | defines the listed fields of a referred player: id, name, phone number, referral code and registration time, no password |
| Ledger.ReferredSummary | test/referral.test.ts:85-96 | defines the entry a referral contributes: the summary of its stored referred player, or nothing when that player is not stored |
| Ledger.GenerateReferralLink | test/referral.test.ts:65-74 | the link fails with NotFound exactly when the player is unknown; otherwise it is the base URL, the registration path and the player's own referral code |
| Ledger.LinkReferralCode | test/referral.test.ts:65-74 | a code is read back exactly from links that start with the base URL and the registration path, and the link is that prefix followed by the code |
| Ledger.ReferralLinkRoundTrip | test/referral.test.ts:65-74 | reading the code back from a player's link and looking it up finds that same player |
| Ledger.RegistrationReferralStats | test/referral.test.ts:100-113 | saving a new referral raises its referrer's referral count by 1 and registration-bonus total by 100, and changes no other referrer's figures |
| Ledger.RegistrationReferralListed | test/referral.test.ts:85-96 | saving a new referral adds the stored referred player at the end of the referrer's list and changes no other list |
| Ledger.RegistrationReferralOnce | src/models/referral.model.ts:55 | running the registration hook a second time on the same pair fails on the unique index and changes nothing, so the bonus is paid once |
| Ledger.PairIndexAdmitsSecondReferrer | src/models/referral.model.ts:54-55 | the (referrer, referred) index by itself lets a second referrer refer an already referred player, so "referred at most once" is not the index's doing |
| Ledger.DepositReferralStats | test/referral.test.ts:117-149 | a deposit that pays a referrer raises that referrer's deposit-bonus total by 10% of the deposit, and changes no other figure |
| Ledger.DepositWithoutReferrer | src/services/wallet.service.ts:27-58 | an in-range deposit by a player nobody referred returns the raised wallet and records exactly one DEPOSIT |
| Ledger.PayingReferrerHasWallet | src/services/auth.service.ts:44-61 | on a consistent store the referrer a deposit pays is another player and holds a wallet with a non-negative balance |
| Ledger.DepositHookPays | test/referral.test.ts:117-149 | when the referrer holds a wallet, the hook succeeds, raises only the referrer's balance by the bonus and appends one REFERRAL_DEPOSIT_BONUS |
| Ledger.DepositPaysReferrer | src/services/wallet.service.ts:27-58 | an in-range deposit by a referred player succeeds, raises the depositor's balance by the amount and the referrer's by 10% of it, touches no other wallet, and appends exactly the DEPOSIT and then the REFERRAL_DEPOSIT_BONUS |
| Ledger.HookAfterDeposit | src/services/wallet.service.ts:41-52 | the hook run after the deposit is recorded leaves both raised wallets and the two transactions |
| Ledger.DepositReachesHook | src/services/wallet.service.ts:41-54 | an in-range deposit by a referred player returns the raised wallet and ends in the state the hook leaves |
| Ledger.DepositHookPasses | src/services/wallet.service.ts:51-52 | after the deposit is recorded the hook succeeds for a referrer holding a wallet |
| Ledger.RecordedKeepsReferrals | src/services/wallet.service.ts:40-49 | recording a transaction does not change which referral a deposit pays out on |
| Accounts.SavePlayerAndWallet | src/services/auth.service.ts:52-55 | a successful save stores the hashed, time-stamped player and a 0-balance wallet for it; a missing required path or a taken unique key on the player fails with nothing saved; a wallet insert that fails (a wallet already under that id) leaves the saved player in place, with no rollback; otherwise the save succeeds |
| Accounts.Register | src/services/auth.service.ts:17-75 | a taken phone number: Conflict "Phone number already registered" and no change; an unknown referral code: BadRequest "Invalid referral code" and no change; on success the player has the drawn id, the code "REF-" plus that id, the request's fields, the hashed password, the referrer's id when a code was given and none otherwise, a token for it, and is appended to the players |
| Accounts.Login | src/services/auth.service.ts:77-100 | login succeeds exactly when a player has the phone number and the password matches its digest, and the session holds that stored player (the first with the phone number) and a token for it; every failure is Unauthorized "Invalid phone number or password" |
| Accounts.SuppliedCode | src/services/auth.service.ts:44 | defines the code registration acts on: a given non-empty code; an absent or empty code counts as none |
| Accounts.CanRegister | src/services/auth.service.ts:17-75 | defines when registration can succeed: the phone number is free, a supplied code names a player, every required field is present, and the drawn id and its code are free |
| Accounts.AddPlayerConsistent | src/services/auth.service.ts:52-55 | adding a player with free unique fields, a 0-balance wallet and a stored referrer keeps the store invariant |
| Accounts.AddPlayerReferrals | src/services/auth.service.ts:52-55 | adding a player keeps every referral following its referred player's `referredBy` |
| Accounts.RegisterConsistent | src/services/auth.service.ts:17-75 | registration keeps the store invariant, succeeds exactly when the phone is free, the code (if any) resolves and the new player has every required field and free unique fields, and leaves exactly one 0-balance wallet for the new player |
| Accounts.RegisterWithoutCode | src/services/auth.service.ts:62-66 | without a referral code a registration that can succeed adds the player and its wallet and nothing else: no referral processing |
| Accounts.RegisterWithReferrer | src/services/auth.service.ts:44-61 | with a resolving referral code, registration keeps the invariant, succeeds exactly when the player can be saved, leaves the new player a 0-balance wallet, and ends in the state the registration referral leaves on the store with the saved player |
| Accounts.ReferredRegistrationWrites | src/services/auth.service.ts:44-61 | a referred registration that can succeed stores the player, naming the code's owner as referrer, and its 0-balance wallet, one referral with the registration bonus, and one REFERRAL_BONUS of 100 to the referrer; the referrer's balance rises by 100 and no other wallet changes |
| Accounts.ReferredRegistrationFigures | src/services/auth.service.ts:44-61 | a referred registration that can succeed raises the referrer's referral count by 1 and registration-bonus total by 100, keeps its deposit-bonus total, and adds the new player at the end of its list |
| Accounts.ReferredHookWrites | src/services/referral.service.ts:21-37 | the hook run right after a referred player is saved appends the referral and the bonus transaction and credits only the referrer |
| Accounts.ReferredHookFigures | src/services/referral.service.ts:21-37 | the hook run right after a referred player is saved adds one referral and 100 to the referrer's figures and the player to its list |
| Accounts.NewReferredReady | src/services/auth.service.ts:44-61 | once a referred player is saved, the pair it forms with its referrer is distinct, stored, recorded on the new player and not yet referred |
| Accounts.SaveSteps | src/services/auth.service.ts:52-55 | saving the player and then its wallet stores both exactly when the player has every required field and free unique fields, and otherwise fails on the player and changes nothing |
| Accounts.SaveNewPlayer | src/services/auth.service.ts:52-55 | saving the player and wallet succeeds exactly when every required field is present and the unique fields are free; a failure changes nothing; success keeps the invariant |
| Accounts.RegisterReferredConsistent | src/services/auth.service.ts:44-61 | after a referred player is saved, the registration hook succeeds, keeps the invariant and leaves the new player's wallet at 0 |
| Accounts.NewPlayerNeverReferred | src/models/referral.model.ts:55 | no referral names a player not yet stored, so a new player's pair never hits the unique index |
| Accounts.LoginAfterRegister | src/services/auth.service.ts:77-100 | a player who just registered logs in with the same phone number and password and gets the same session: the same player and the same token for it |
| Accounts.LoginFailuresIndistinguishable | src/services/auth.service.ts:80-91 | an unknown phone number and a wrong password give the identical failure |
| Profiles.GetPlayerProfile | src/services/player.service.ts:7-29 | an unknown player: NotFound "Player not found"; otherwise the player's id, name, phone number, referral code and registration time with the wallet's balance, or 0 without a wallet; no password; the store is only read |
| Profiles.ProfileBalanceIsWalletBalance | src/services/player.service.ts:16-23 | on a consistent store a profile's balance is the wallet's balance, the net of the player's transactions and not negative |
| Persistence.Database.constructor | src/models/wallet.model.ts:8-54 | a new database is empty |
| Persistence.Database.InsertPlayer | src/models/player.model.ts:10-51 | the store's player save, with the fields updated in place |
| Persistence.Database.InsertWallet | src/models/wallet.model.ts:8-26 | the store's wallet creation, with the fields updated in place |
| Persistence.Database.SaveWallet | src/models/wallet.model.ts:16-21 | the store's wallet save, with the fields updated in place |
| Persistence.Database.InsertTransaction | src/models/wallet.model.ts:28-54 | the store's transaction append, with the fields updated in place |
| Persistence.Database.InsertReferral | src/models/referral.model.ts:29-55 | the store's referral save, with the fields updated in place |
| Persistence.Database.AddDepositBonus | src/models/referral.model.ts:46 | the store's deposit-bonus append, with the fields updated in place |
| Services.WalletService.constructor | src/services/wallet.service.ts:9-11 | the wallet service creates its referral service on the same database, with no wallet service yet |
| Services.WalletService.GetWalletByPlayerId | src/services/wallet.service.ts:13-25 | returns what `Ledger.GetWalletByPlayerId` describes on the current database |
| Services.WalletService.Deposit | src/services/wallet.service.ts:27-58 | checks the range, finds and saves the wallet, appends the DEPOSIT and calls the referral service, ending in the result and state `Ledger.Deposit` describes |
| Services.WalletService.Withdraw | src/services/wallet.service.ts:60-89 | ends in the result and state `Ledger.Withdraw` describes |
| Services.WalletService.GetTransactionHistory | src/services/wallet.service.ts:91-99 | walks the log once in creation order, putting each of the player's entries in front, and ends with exactly `Ledger.History`: the player's transactions, newest first |
| Services.WalletService.CreditReferralBonus | src/services/wallet.service.ts:101-126 | ends in the result and state `Ledger.CreditReferralBonus` describes |
| Services.ReferralService.constructor | src/services/referral.service.ts:10-13 | a new referral service has no wallet service |
| Services.ReferralService.InitWalletService | src/services/referral.service.ts:15-19 | creates a wallet service on the same database only when none is set; a later call keeps the one already there |
| Services.ReferralService.ProcessRegistrationReferral | src/services/referral.service.ts:21-37 | inserts the referral, then credits through the wallet service, ending in the result and state `Ledger.ProcessRegistrationReferral` describes |
| Services.ReferralService.ProcessDepositReferral | test/referral.test.ts:117-149 | ends in the result and state `Ledger.ProcessDepositReferral` describes |
| Services.ReferralService.GenerateReferralLink | test/referral.test.ts:65-74 | looks the player up by id and appends its code to the registration URL, or fails with NotFound, ending with exactly the link `Ledger.GenerateReferralLink` describes |
| Services.ReferralService.GetReferredPlayers | test/referral.test.ts:85-96 | walks the referrals in creation order and looks up each of the referrer's referred players, ending with exactly the list `Ledger.ReferredPlayers` describes |
| Services.ReferralService.GetReferralStats | test/referral.test.ts:100-113 | walks the referrals once, counting the referrer's referrals and registration bonuses and adding up their deposit bonuses, ending with exactly the figures `Ledger.GetReferralStats` describes |
| Services.AuthService.constructor | src/services/auth.service.ts:13-15 | the auth service creates its referral service on the same database |
| Services.AuthService.Register | src/services/auth.service.ts:17-75 | checks the phone, draws the id, resolves the code, saves the player and the wallet and calls the referral service, in that order, ending in the result and state `Accounts.Register` describes |
| Services.AuthService.Login | src/services/auth.service.ts:77-100 | returns what `Accounts.Login` describes |
| Services.PlayerService.constructor | src/services/player.service.ts:6-7 | the player service reads the given database |
| Services.PlayerService.GetPlayerProfile | src/services/player.service.ts:7-29 | returns what `Profiles.GetPlayerProfile` describes, without changing the database |
| Scenarios.ValidatedDeposit | src/utils/validator.ts:27-33 | the deposit validator and the engine agree on the bounds: an amount the validator refuses is refused by the engine with the range error and no change, and an amount it accepts is credited to any existing wallet of a consistent store |
| Scenarios.ValidatedWithdrawal | src/utils/validator.ts:35-41 | every withdrawal the validator accepts (amount at least 1) that succeeds lowers the balance; the engine alone accepts a negative amount and raises the balance, which the validator refuses |
| Scenarios.DepositTestFigures | test/wallet.test.ts:61-96 | on a 0-balance wallet of a player nobody referred, 1000 leaves 1000, while 50 and 200000 fail with the range error and change nothing |
| Scenarios.WithdrawTestFigures | test/wallet.test.ts:109-134 | from 1000, withdrawing 500 leaves 500, and withdrawing 2000 fails with "Insufficient balance" and changes nothing |
| Scenarios.FirstRegistration | test/wallet.test.ts:18-29 | on an empty database a complete registration without a code succeeds, keeps the invariant, and stores just the player and its wallet, with the drawn id, its code and the given phone number |
| Scenarios.ReferredRegistration | test/referral.test.ts:15-150 | with the only player's code, a second complete registration succeeds, names that player as referrer, stores one referral with the registration bonus, and raises the referrer's balance by 100 |
| Scenarios.ReferredDeposit | test/referral.test.ts:117-149 | on a consistent store a referred player's in-range deposit succeeds, raises the depositor's balance by the amount and the referrer's by 10% of it, and adds 10% to the referrer's deposit-bonus total |
| Scenarios.ReferralTestRegistrations | test/referral.test.ts:15-150 | a parent registering on an empty database and a child registering with the parent's code both succeed and leave a consistent store |
| Scenarios.RegistrationsFigures | test/referral.test.ts:85-113 | after the two registrations the parent has 1 referral, 100 of registration bonus and 0 of deposit bonus, and lists only the child |
| Scenarios.ChildDeposit | test/referral.test.ts:117-149 | a deposit of 1000 by the child then leaves the child 1000, the parent 200 and a deposit-bonus total of 100 |
| Scenarios.ReferralTestScenario | test/referral.test.ts:15-150 | the whole referral integration test on the model: the figures after the two registrations and after the child's deposit of 1000 |

## Left out

- The HTTP layer (controllers, routes, `app.ts`, the request, validation and error middlewares) and the authentication middleware are not part of this model; the validators are predicates that `Scenarios` relates to the engines rather than a step inside the services.
- Asynchronous execution and concurrent requests: every operation runs to completion before the next, so read-modify-write races on a balance are not modelled.
- Password hashing and the bcrypt pre-save hook are the `hash` parameter applied when a player is saved; `comparePassword` is the `matches` parameter.
- JWT signing and expiry: a token is its payload (player id and phone number) only.
- `Math.random` in the id generator is replaced by the draw sequences, each draw an index into its alphabet.
- `Date.now` and the `timestamps` fields are a logical clock that every created record advances; `updatedAt` is not modelled.
- `src/services/referral.service.ts` after line 37 is not part of this model. The end of `processRegistrationReferral` is modelled as a credit of 100 of type REFERRAL_BONUS from the referred player, with any failure passed on. `processDepositReferral`, `getReferralStats`, `getReferredPlayers` and `generateReferralLink` are modelled as `test/referral.test.ts` and the interfaces require; the choices the tests do not fix are listed on the lines below.
- Ledger.ProcessDepositReferral: the lookup of the referrer through the depositor's `referredBy` and then of the (referrer, depositor) referral, the silent success when either is missing, the bonus entry written with percentage 10 before the credit, and a missing referrer wallet surfacing as NotFound in the deposit's result are assumed.
- Ledger.GetReferralStats: the registration-bonus total as 100 for each referral with the registration bonus, and the deposit-bonus total as the sum of the bonus entries on the referrer's referrals, are assumed.
- Ledger.PayingReferral: which referral a deposit pays on is assumed, as for `processDepositReferral`.
- Ledger.GenerateReferralLink: the link format `<baseUrl>/register?ref=<code>` and the "Player not found" failure for an unknown player are assumed; the test only expects the link to contain the code.
- Ledger.ReferredPlayers: the listed fields (id, name, phone number, referral code, registration time) and the order (referral creation order) are assumed.
- Ledger.DepositBonusFor: amounts are integers and the 10% bonus is rounded down; JavaScript numbers would give a fractional bonus for a deposit not divisible by 10.
- Ledger.ProcessRegistrationReferral: a duplicate (referrer, referred) pair fails with the database's duplicate-key error, not a Conflict exception, because the code relies on the unique index.
- A deposit or registration whose referral step fails is not rolled back: the failure is returned and the earlier writes stay, as in the code. The service classes model this as it is written.
- Validation.ValidName, Validation.ValidPassword: lengths count characters (Unicode scalar values), not JavaScript UTF-16 code units, so a name or password with a character outside the Basic Multilingual Plane can differ in length.
- Schema type coercion and Joi's handling of unknown keys and of non-numeric amounts are not modelled; an absent field is `None`.
- InternalServerErrorException appears only as an exception kind and its status; no modelled operation throws it.
- Mongoose's global model objects are the one `Persistence.Database` shared by the service objects.
- History order among transactions with the same creation time is not modelled; the logical clock gives every record a distinct time.
