/** The player profile: the player's public fields together with the wallet balance, which
    reads as 0 when the player has no wallet. The password digest and the request metadata are
    not part of a profile. */
module Profiles {
  import opened Errors
  import opened WalletModel
  import opened PlayerModel
  import opened Store
  import Ledger

  datatype Profile = Profile(id: string, name: string, phoneNumber: string, referralCode: string, balance: int, registeredAt: nat)

  const PlayerNotFoundMessage: string := "Player not found"

  /** `p` shows the stored player at `i`, whose id is `playerId`. */
  predicate ProfileOf(s: State, i: int, playerId: string, p: Profile)
  {
    && 0 <= i < |s.players| && s.players[i].id == playerId
    && p == Profile(s.players[i].id, s.players[i].name, s.players[i].phoneNumber, s.players[i].referralCode, p.balance, s.players[i].createdAt)
  }

  /** `getPlayerProfile`. */
  function GetPlayerProfile(s: State, playerId: string): (r: Result<Profile>)
    ensures r.Err? <==> !HasPlayer(s.players, playerId)
    ensures r.Err? ==> r.failure == NotFoundException(PlayerNotFoundMessage)
    ensures r.Ok? ==> exists i :: ProfileOf(s, i, playerId, r.value)
    ensures r.Ok? ==> r.value.balance == (if playerId in s.wallets then s.wallets[playerId].balance else 0)
  {
    HasPlayerFind(s.players, playerId);
    match FindPlayer(s.players, ById(playerId))
    case None => Err(NotFoundException(PlayerNotFoundMessage))
    case Some(player) =>
      var balance := match FindWallet(s, playerId) case Some(w) => w.balance case None => 0;
      var profile := Profile(player.id, player.name, player.phoneNumber, player.referralCode, balance, player.createdAt);
      assert exists i :: ProfileOf(s, i, playerId, profile) by {
        var i :| 0 <= i < |s.players| && s.players[i] == player && Matches(s.players[i], ById(playerId));
        assert ProfileOf(s, i, playerId, profile);
      }
      Ok(profile)
  }

  /** On a consistent store a profile's balance is the wallet's balance, which is the net of the
      player's transactions and never negative. */
  lemma ProfileBalanceIsWalletBalance(s: State, playerId: string)
    requires Ledger.Consistent(s) && HasPlayer(s.players, playerId)
    ensures GetPlayerProfile(s, playerId).Ok? && Ledger.GetWalletByPlayerId(s, playerId).Ok?
    ensures GetPlayerProfile(s, playerId).value.balance == Ledger.GetWalletByPlayerId(s, playerId).value.balance
    ensures GetPlayerProfile(s, playerId).value.balance == Ledger.Net(s.transactions, playerId) >= 0
  {
    var i :| 0 <= i < |s.players| && s.players[i].id == playerId;
    assert playerId in s.wallets;
  }
}
