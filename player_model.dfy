/** The Player schema: `id`, `phoneNumber` and `referralCode` are unique, every field but
    `referredBy` is required, and `createdAt` is set when the player is first saved. The password
    is stored as the digest the save hook computes. */
module PlayerModel {
  import opened Errors

  datatype Player = Player(
    id: string,
    name: string,
    phoneNumber: string,
    password: string,
    ipAddress: string,
    originUrl: string,
    referralCode: string,
    referredBy: Option<string>,
    createdAt: nat)

  /** The three single-field queries the services issue. */
  datatype PlayerQuery = ById(id: string) | ByPhoneNumber(phoneNumber: string) | ByReferralCode(code: string)

  predicate Matches(p: Player, q: PlayerQuery)
  {
    match q
    case ById(id) => p.id == id
    case ByPhoneNumber(phone) => p.phoneNumber == phone
    case ByReferralCode(code) => p.referralCode == code
  }

  /** `Player.findOne(query)`: the first stored player that matches. */
  function FindPlayer(ps: seq<Player>, q: PlayerQuery): (r: Option<Player>)
    ensures r.Some? ==> exists i :: 0 <= i < |ps| && ps[i] == r.value && Matches(ps[i], q)
    ensures r.None? <==> forall i :: 0 <= i < |ps| ==> !Matches(ps[i], q)
    decreases |ps|
  {
    if ps == [] then None
    else if Matches(ps[0], q) then Some(ps[0])
    else
      var r := FindPlayer(ps[1..], q);
      assert r.Some? ==> exists i :: 0 <= i < |ps| && ps[i] == r.value && Matches(ps[i], q) by {
        if r.Some? {
          var i :| 0 <= i < |ps[1..]| && ps[1..][i] == r.value && Matches(ps[1..][i], q);
          assert ps[i + 1] == r.value;
        }
      }
      r
  }

  /** Some stored player has the id. */
  predicate HasPlayer(ps: seq<Player>, id: string)
  {
    exists i :: 0 <= i < |ps| && ps[i].id == id
  }

  lemma HasPlayerFind(ps: seq<Player>, id: string)
    ensures HasPlayer(ps, id) <==> FindPlayer(ps, ById(id)).Some?
  {
    if HasPlayer(ps, id) {
      var i :| 0 <= i < |ps| && ps[i].id == id;
      assert Matches(ps[i], ById(id));
    }
  }

  /** The three unique indexes. */
  predicate PlayersUnique(ps: seq<Player>)
  {
    forall i, j :: 0 <= i < j < |ps| ==>
      && ps[i].id != ps[j].id
      && ps[i].phoneNumber != ps[j].phoneNumber
      && ps[i].referralCode != ps[j].referralCode
  }

  /** Under a unique index a query by that field finds the one player holding the value. */
  lemma FindUnique(ps: seq<Player>, i: nat, q: PlayerQuery)
    requires PlayersUnique(ps) && i < |ps| && Matches(ps[i], q)
    ensures FindPlayer(ps, q) == Some(ps[i])
  {
    var r := FindPlayer(ps, q);
    var j :| 0 <= j < |ps| && ps[j] == r.value && Matches(ps[j], q);
  }

  /** A player whose id, phone number and referral code are all new keeps the indexes unique. */
  lemma PlayersUniqueInsert(ps: seq<Player>, p: Player)
    requires PlayersUnique(ps)
    requires FindPlayer(ps, ById(p.id)).None?
    requires FindPlayer(ps, ByPhoneNumber(p.phoneNumber)).None?
    requires FindPlayer(ps, ByReferralCode(p.referralCode)).None?
    ensures PlayersUnique(ps + [p])
  {
    forall i | 0 <= i < |ps|
      ensures ps[i].id != p.id && ps[i].phoneNumber != p.phoneNumber && ps[i].referralCode != p.referralCode
    {
      assert !Matches(ps[i], ById(p.id));
      assert !Matches(ps[i], ByPhoneNumber(p.phoneNumber));
      assert !Matches(ps[i], ByReferralCode(p.referralCode));
    }
  }

  /** A query over a longer collection finds the same player as before, or else the new one if it
      matches. */
  lemma {:induction false} FindPlayerAppend(ps: seq<Player>, p: Player, q: PlayerQuery)
    ensures FindPlayer(ps + [p], q) ==
      if FindPlayer(ps, q).Some? then FindPlayer(ps, q) else if Matches(p, q) then Some(p) else None
    decreases |ps|
  {
    if ps != [] {
      assert (ps + [p])[1..] == ps[1..] + [p];
      FindPlayerAppend(ps[1..], p, q);
    }
  }

  /** Adding a player keeps every stored id present. */
  lemma HasPlayerAppend(ps: seq<Player>, p: Player, id: string)
    ensures HasPlayer(ps + [p], id) <==> HasPlayer(ps, id) || p.id == id
  {
    if HasPlayer(ps, id) {
      var i :| 0 <= i < |ps| && ps[i].id == id;
      assert (ps + [p])[i] == ps[i];
    }
    if p.id == id {
      assert (ps + [p])[|ps|] == p;
    }
  }

  /** Some stored player with the id names `referrerId` as its referrer. */
  predicate ReferredBy(ps: seq<Player>, id: string, referrerId: string)
  {
    exists i :: 0 <= i < |ps| && ps[i].id == id && ps[i].referredBy == Some(referrerId)
  }

  /** Under the unique id index a player names at most one referrer. */
  lemma ReferredByUnique(ps: seq<Player>, id: string, a: string, b: string)
    requires PlayersUnique(ps) && ReferredBy(ps, id, a) && ReferredBy(ps, id, b)
    ensures a == b
  {
    var i :| 0 <= i < |ps| && ps[i].id == id && ps[i].referredBy == Some(a);
    var j :| 0 <= j < |ps| && ps[j].id == id && ps[j].referredBy == Some(b);
    FindUnique(ps, i, ById(id));
    FindUnique(ps, j, ById(id));
  }

  /** Adding a player keeps every stored referrer link, and adds the new player's own. */
  lemma ReferredByAppend(ps: seq<Player>, p: Player, id: string, referrerId: string)
    ensures ReferredBy(ps + [p], id, referrerId) <==> ReferredBy(ps, id, referrerId) || (p.id == id && p.referredBy == Some(referrerId))
  {
    if ReferredBy(ps, id, referrerId) {
      var i :| 0 <= i < |ps| && ps[i].id == id && ps[i].referredBy == Some(referrerId);
      assert (ps + [p])[i] == ps[i];
    }
    if p.id == id && p.referredBy == Some(referrerId) {
      assert (ps + [p])[|ps|] == p;
    }
    if ReferredBy(ps + [p], id, referrerId) {
      var i :| 0 <= i < |ps + [p]| && (ps + [p])[i].id == id && (ps + [p])[i].referredBy == Some(referrerId);
      if i < |ps| {
        assert ps[i] == (ps + [p])[i];
      }
    }
  }

  /** The required string paths of `p` that are empty, in schema order (a required string is
      missing when it is empty). */
  function MissingPaths(p: Player): (paths: seq<string>)
    ensures paths == [] <==>
      p.id != "" && p.name != "" && p.phoneNumber != "" && p.password != ""
      && p.ipAddress != "" && p.originUrl != "" && p.referralCode != ""
  {
    (if p.id == "" then ["id"] else [])
    + (if p.name == "" then ["name"] else [])
    + (if p.phoneNumber == "" then ["phoneNumber"] else [])
    + (if p.password == "" then ["password"] else [])
    + (if p.ipAddress == "" then ["ipAddress"] else [])
    + (if p.originUrl == "" then ["originUrl"] else [])
    + (if p.referralCode == "" then ["referralCode"] else [])
  }
}
