/** The request-body validators, as plain predicates. A field the client may leave out is an
    `Option`. As in the schema library the source uses, a string field present but empty is
    rejected, even when the field itself is optional. */
module Validation {
  import opened Errors
  import Ids

  datatype RegistrationBody = RegistrationBody(
    name: Option<string>,
    phoneNumber: Option<string>,
    password: Option<string>,
    referralCode: Option<string>)

  datatype LoginBody = LoginBody(phoneNumber: Option<string>, password: Option<string>)

  datatype AmountBody = AmountBody(amount: Option<int>)

  const MinNameLength := 3
  const MaxNameLength := 50
  const MinPasswordLength := 6
  const MinDepositAmount := 100
  const MaxDepositAmount := 100000
  const MinWithdrawalAmount := 1

  predicate AllDigits(s: string)
  {
    forall i :: 0 <= i < |s| ==> Ids.IsDigit(s[i])
  }

  /** The pattern `^\+?[0-9]{10,14}$`: an optional leading '+', then 10 to 14 digits. */
  predicate ValidPhoneNumber(s: string)
  {
    var digits := if |s| > 0 && s[0] == '+' then s[1..] else s;
    10 <= |digits| <= 14 && AllDigits(digits)
  }

  /** The pattern read the other way: either the whole string is 10 to 14 digits, or it is a '+'
      followed by 10 to 14 digits. */
  lemma PhoneNumberShapes(s: string)
    ensures ValidPhoneNumber(s) <==>
      || (10 <= |s| <= 14 && AllDigits(s))
      || (11 <= |s| <= 15 && s[0] == '+' && AllDigits(s[1..]))
  {
    if |s| > 0 && s[0] == '+' {
      assert !Ids.IsDigit(s[0]);
    }
  }

  predicate ValidName(s: string) { MinNameLength <= |s| <= MaxNameLength }

  predicate ValidPassword(s: string) { |s| >= MinPasswordLength }

  /** `validatePlayerRegistration`. */
  predicate ValidRegistration(b: RegistrationBody)
  {
    && b.name.Some? && ValidName(b.name.value)
    && b.phoneNumber.Some? && ValidPhoneNumber(b.phoneNumber.value)
    && b.password.Some? && ValidPassword(b.password.value)
    && (b.referralCode.Some? ==> b.referralCode.value != "")
  }

  /** `validatePlayerLogin`: both fields required (and so non-empty); no format check. */
  predicate ValidLogin(b: LoginBody)
  {
    && b.phoneNumber.Some? && b.phoneNumber.value != ""
    && b.password.Some? && b.password.value != ""
  }

  /** `validateDeposit`: the amount is required and within [100, 100000]. */
  predicate ValidDeposit(b: AmountBody)
  {
    b.amount.Some? && MinDepositAmount <= b.amount.value <= MaxDepositAmount
  }

  /** `validateWithdrawal`: the amount is required and at least 1. */
  predicate ValidWithdrawal(b: AmountBody)
  {
    b.amount.Some? && b.amount.value >= MinWithdrawalAmount
  }

  /** A referral code is optional: leaving it out never makes an otherwise valid body invalid. */
  lemma ReferralCodeOptional(b: RegistrationBody)
    ensures ValidRegistration(b) ==> ValidRegistration(b.(referralCode := None))
    ensures ValidRegistration(b.(referralCode := None)) && b.referralCode.Some? && b.referralCode.value != ""
      ==> ValidRegistration(b)
  {
  }

  /** The body the registration test sends is accepted; the one with a one-letter name, a
      three-digit phone number and a two-letter password is refused on each of those fields. */
  lemma RegistrationExamples()
    ensures ValidRegistration(RegistrationBody(Some("Test Player"), Some("+1234567890"), Some("password123"), None))
    ensures !ValidName("T") && !ValidPhoneNumber("123") && !ValidPassword("pw")
  {
    assert ValidPhoneNumber("+1234567890") by {
      var digits := "+1234567890"[1..];
      assert digits == "1234567890";
    }
  }
}
