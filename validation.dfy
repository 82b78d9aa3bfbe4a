/**
 * The two field validators of the contact forms. Each returns `None` when the
 * text is accepted, or `Some(message)` with the message shown under the field.
 */
module Validation {
  import opened Wrappers
  import opened Text

  const NameBlankMessage: string := "Tên liên hệ không được để trống"
  const PhoneBlankMessage: string := "Số điện thoại không được để trống."
  const PhoneDigitsMessage: string := "Số điện thoại chỉ được chứa chữ số."
  const PhoneLengthMessage: string := "Số điện thoại phải có từ 9 đến 11 số."

  /** Shortest and longest accepted phone numbers, in characters. */
  const MinPhoneLength := 9
  const MaxPhoneLength := 11

  /** A name is rejected exactly when it is blank; no other rule applies. */
  function ValidateName(name: string): (r: Option<string>)
    ensures r.None? <==> !IsBlank(name)
    ensures r.Some? ==> r.value == NameBlankMessage
  {
    if IsBlank(name) then Some(NameBlankMessage) else None
  }

  /**
   * A phone number is accepted exactly when it is 9 to 11 decimal digits.
   * On rejection only the first failing check speaks: blank, then non-digit,
   * then length.
   */
  function ValidatePhoneNumber(phone: string): (r: Option<string>)
    ensures r.None? <==> AllDigits(phone) && MinPhoneLength <= |phone| <= MaxPhoneLength
    ensures IsBlank(phone) ==> r == Some(PhoneBlankMessage)
    ensures !IsBlank(phone) && !AllDigits(phone) ==> r == Some(PhoneDigitsMessage)
    ensures r == Some(PhoneLengthMessage) <==>
              AllDigits(phone) && |phone| > 0 && !(MinPhoneLength <= |phone| <= MaxPhoneLength)
  {
    PhoneMessagesDistinct();
    if IsBlank(phone) then
      DigitsNotBlank(phone);
      Some(PhoneBlankMessage)
    else if !AllDigits(phone) then
      Some(PhoneDigitsMessage)
    else if !(MinPhoneLength <= |phone| <= MaxPhoneLength) then
      Some(PhoneLengthMessage)
    else
      None
  }

  /** The three phone messages are different, so a caller can tell which check failed. */
  lemma PhoneMessagesDistinct()
    ensures PhoneBlankMessage != PhoneDigitsMessage
    ensures PhoneDigitsMessage != PhoneLengthMessage
    ensures PhoneBlankMessage != PhoneLengthMessage
  {
  }

  /** The boundary cases of the length rule, and a non-digit rejected before its length is looked at. */
  lemma PhoneExamples()
    ensures ValidatePhoneNumber("12345678") == Some(PhoneLengthMessage)
    ensures ValidatePhoneNumber("123456789") == None
    ensures ValidatePhoneNumber("12345678901") == None
    ensures ValidatePhoneNumber("123456789012") == Some(PhoneLengthMessage)
    ensures ValidatePhoneNumber("12a456789") == Some(PhoneDigitsMessage)
    ensures ValidatePhoneNumber("   ") == Some(PhoneBlankMessage)
    ensures ValidatePhoneNumber("") == Some(PhoneBlankMessage)
  {
    assert !IsDigit("12a456789"[2]);
    assert !IsWhitespace("12345678"[0]);
    assert !IsWhitespace("123456789"[0]);
    assert !IsWhitespace("12345678901"[0]);
    assert !IsWhitespace("123456789012"[0]);
    assert !IsWhitespace("12a456789"[0]);
  }

  /** Blank names are rejected; a one-letter name is accepted (there is no minimum length). */
  lemma NameExamples()
    ensures ValidateName("") == Some(NameBlankMessage)
    ensures ValidateName("   ") == Some(NameBlankMessage)
    ensures ValidateName("A") == None
    ensures ValidateName("Al") == None
  {
    assert !IsWhitespace("A"[0]);
    assert !IsWhitespace("Al"[0]);
  }
}
