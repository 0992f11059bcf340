/** Player identifiers and referral codes. A player id is five lower-case letters followed by five
    digits, each drawn at random; the random draws are inputs here (`letterDraws[i]` is the index
    picked from the alphabet, `digitDraws[i]` the index picked from the digits). */
module Ids {
  import opened Errors

  const Characters: string := "abcdefghijklmnopqrstuvwxyz"
  const Numbers: string := "0123456789"
  const ReferralPrefix: string := "REF-"

  predicate IsLowerLetter(c: char) { 'a' <= c <= 'z' }

  predicate IsDigit(c: char) { '0' <= c <= '9' }

  /** The documented shape of a player id. */
  predicate IsPlayerId(id: string)
  {
    && |id| == 10
    && (forall i :: 0 <= i < 5 ==> IsLowerLetter(id[i]))
    && (forall i :: 5 <= i < 10 ==> IsDigit(id[i]))
  }

  /** What `Math.floor(Math.random() * n)` can yield: five indices into each alphabet. */
  predicate ValidDraws(letterDraws: seq<nat>, digitDraws: seq<nat>)
  {
    && |letterDraws| == 5 && |digitDraws| == 5
    && (forall i :: 0 <= i < 5 ==> letterDraws[i] < |Characters|)
    && (forall i :: 0 <= i < 5 ==> digitDraws[i] < |Numbers|)
  }

  /** The id a given sequence of draws produces. */
  function DrawnId(letterDraws: seq<nat>, digitDraws: seq<nat>): (id: string)
    requires ValidDraws(letterDraws, digitDraws)
    ensures IsPlayerId(id)
  {
    AlphabetsAreLettersAndDigits();
    seq(5, i requires 0 <= i < 5 => Characters[letterDraws[i]])
      + seq(5, i requires 0 <= i < 5 => Numbers[digitDraws[i]])
  }

  lemma AlphabetsAreLettersAndDigits()
    ensures forall k :: 0 <= k < |Characters| ==> IsLowerLetter(Characters[k])
    ensures forall k :: 0 <= k < |Numbers| ==> IsDigit(Numbers[k])
  {
  }

  /** `generatePlayerId`: two loops, each appending five drawn characters to the id. */
  method GeneratePlayerId(letterDraws: seq<nat>, digitDraws: seq<nat>) returns (playerId: string)
    requires ValidDraws(letterDraws, digitDraws)
    ensures playerId == DrawnId(letterDraws, digitDraws)
    ensures IsPlayerId(playerId)
  {
    playerId := "";
    for i := 0 to 5
      invariant |playerId| == i
      invariant forall k :: 0 <= k < i ==> playerId[k] == Characters[letterDraws[k]]
    {
      playerId := playerId + [Characters[letterDraws[i]]];
    }
    for i := 0 to 5
      invariant |playerId| == 5 + i
      invariant forall k :: 0 <= k < 5 ==> playerId[k] == Characters[letterDraws[k]]
      invariant forall k :: 0 <= k < i ==> playerId[5 + k] == Numbers[digitDraws[k]]
    {
      playerId := playerId + [Numbers[digitDraws[i]]];
    }
    ghost var expected := DrawnId(letterDraws, digitDraws);
    assert forall k :: 0 <= k < 10 ==> playerId[k] == expected[k];
  }

  /** Every id of the documented shape is produced by some draws: the generator reaches exactly
      the ids of that shape. */
  lemma {:induction false} EveryPlayerIdIsDrawn(id: string)
    requires IsPlayerId(id)
    ensures exists l, d :: ValidDraws(l, d) && DrawnId(l, d) == id
  {
    var l := seq(5, i requires 0 <= i < 5 => (id[i] as int - 'a' as int) as nat);
    var d := seq(5, i requires 0 <= i < 5 => (id[5 + i] as int - '0' as int) as nat);
    forall i | 0 <= i < 5
      ensures l[i] < |Characters| && Characters[l[i]] == id[i]
      ensures d[i] < |Numbers| && Numbers[d[i]] == id[5 + i]
    {
      LetterAt(id[i]);
      DigitAt(id[5 + i]);
    }
    assert ValidDraws(l, d);
    ghost var drawn := DrawnId(l, d);
    assert forall k :: 0 <= k < 10 ==> drawn[k] == id[k];
  }

  lemma LetterAt(c: char)
    requires IsLowerLetter(c)
    ensures (c as int - 'a' as int) < |Characters| && Characters[c as int - 'a' as int] == c
  {
  }

  lemma DigitAt(c: char)
    requires IsDigit(c)
    ensures (c as int - '0' as int) < |Numbers| && Numbers[c as int - '0' as int] == c
  {
  }

  /** `generateReferralCode`: the template `REF-${playerId}`. */
  function GenerateReferralCode(playerId: string): (code: string)
    ensures |code| == |ReferralPrefix| + |playerId|
    ensures code[..|ReferralPrefix|] == ReferralPrefix && code[|ReferralPrefix|..] == playerId
  {
    ReferralPrefix + playerId
  }

  /** The player id a referral code was generated from, if it has the generated shape. */
  function ReferralCodeOwner(code: string): (id: Option<string>)
  {
    if |code| >= |ReferralPrefix| && code[..|ReferralPrefix|] == ReferralPrefix
    then Some(code[|ReferralPrefix|..])
    else None
  }

  /** Dropping the prefix recovers the id, and only codes generated from that id do so. */
  lemma ReferralCodeRoundTrip(playerId: string, code: string)
    ensures ReferralCodeOwner(GenerateReferralCode(playerId)) == Some(playerId)
    ensures ReferralCodeOwner(code) == Some(playerId) ==> GenerateReferralCode(playerId) == code
  {
    if ReferralCodeOwner(code) == Some(playerId) {
      assert code == code[..|ReferralPrefix|] + code[|ReferralPrefix|..];
    }
  }

  /** Distinct players get distinct referral codes. */
  lemma ReferralCodeInjective(a: string, b: string)
    ensures GenerateReferralCode(a) == GenerateReferralCode(b) ==> a == b
  {
    ReferralCodeRoundTrip(a, GenerateReferralCode(b));
  }
}
