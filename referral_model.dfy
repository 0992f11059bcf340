/** The Referral and DepositBonus schemas, and the compound unique index on
    (referrerId, referredId). */
module ReferralModel {
  import opened Errors

  const DefaultPercentage: int := 10
  const DefaultRegistrationBonus: bool := false

  /** One entry of a referral's deposit-bonus history. */
  datatype DepositBonus = DepositBonus(amount: int, percentage: int, depositAmount: int, createdAt: nat)

  datatype Referral = Referral(
    referrerId: string,
    referredId: string,
    registrationBonus: bool,
    depositBonuses: seq<DepositBonus>,
    createdAt: nat)

  /** A deposit-bonus entry as created: `percentage` takes its default of 10 when not given. */
  function NewDepositBonus(amount: int, depositAmount: int, percentage: Option<int>, createdAt: nat): (b: DepositBonus)
    ensures b.amount == amount && b.depositAmount == depositAmount && b.createdAt == createdAt
    ensures b.percentage == (if percentage.Some? then percentage.value else DefaultPercentage)
  {
    DepositBonus(amount, match percentage case Some(p) => p case None => DefaultPercentage, depositAmount, createdAt)
  }

  /** A referral as created: `registrationBonus` defaults to false and the bonus history starts
      empty. */
  function NewReferral(referrerId: string, referredId: string, registrationBonus: Option<bool>, createdAt: nat): (r: Referral)
    ensures r.referrerId == referrerId && r.referredId == referredId && r.createdAt == createdAt
    ensures r.registrationBonus <==> registrationBonus == Some(true)
    ensures r.depositBonuses == []
  {
    Referral(referrerId, referredId, match registrationBonus case Some(b) => b case None => DefaultRegistrationBonus, [], createdAt)
  }

  predicate IsPair(r: Referral, referrerId: string, referredId: string)
  {
    r.referrerId == referrerId && r.referredId == referredId
  }

  /** The unique index: no two referrals share a (referrerId, referredId) pair. */
  predicate PairsUnique(rs: seq<Referral>)
  {
    forall i, j :: 0 <= i < j < |rs| ==> !IsPair(rs[j], rs[i].referrerId, rs[i].referredId)
  }

  /** `findOne({ referrerId, referredId })`: the position of the first referral for the pair. */
  function FindReferral(rs: seq<Referral>, referrerId: string, referredId: string): (r: Option<nat>)
    ensures r.Some? ==> r.value < |rs| && IsPair(rs[r.value], referrerId, referredId)
    ensures r.None? <==> forall i :: 0 <= i < |rs| ==> !IsPair(rs[i], referrerId, referredId)
    decreases |rs|
  {
    if rs == [] then None
    else if IsPair(rs[0], referrerId, referredId) then Some(0)
    else match FindReferral(rs[1..], referrerId, referredId)
      case None => None
      case Some(i) => Some(i + 1)
  }

  /** Under the unique index the referral found for a pair is the only one for that pair. */
  lemma FoundReferralIsOnly(rs: seq<Referral>, referrerId: string, referredId: string, j: nat)
    requires PairsUnique(rs) && j < |rs| && IsPair(rs[j], referrerId, referredId)
    ensures FindReferral(rs, referrerId, referredId) == Some(j)
  {
  }

  /** Inserting a referral for a pair not yet present keeps the index unique; changing the bonus
      history of a stored referral does too. */
  lemma PairsUniqueInsert(rs: seq<Referral>, r: Referral)
    requires PairsUnique(rs) && FindReferral(rs, r.referrerId, r.referredId).None?
    ensures PairsUnique(rs + [r])
  {
  }

  lemma PairsUniqueUpdate(rs: seq<Referral>, i: nat, r: Referral)
    requires PairsUnique(rs) && i < |rs| && IsPair(r, rs[i].referrerId, rs[i].referredId)
    ensures PairsUnique(rs[i := r])
  {
  }
}
