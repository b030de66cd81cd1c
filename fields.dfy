/** The field value objects `Name`, `Phone` and `Birthday`: each is built
    only from text that passes its check, and keeps that text unchanged.
    A value of the subset type is a text that passed; the Validate functions
    are the constructors, which raise (here: return a Failure) otherwise. */
module Fields {
  import opened Text
  import opened Calendar
  import opened DateText
  import opened Results

  type Name = s: string | IsAlpha(s) witness "A"

  predicate IsPhone(s: string) { IsDecimal(s) && |s| == 10 }

  type Phone = s: string | IsPhone(s) witness "0000000000"

  predicate IsBirthday(s: string) { ParseDate(s).Some? }

  type Birthday = s: string | IsBirthday(s)
    witness (FormatThenParse(Date(2025, 10, 20)); FormatDate(Date(2025, 10, 20)))

  /** `Name(value)`: accepted exactly when the text is non-empty and made
      only of letters; the stored value is the text itself. */
  function ValidateName(value: string): (r: Result<Name>)
    ensures r.Success? <==> |value| > 0 && forall i :: 0 <= i < |value| ==> IsLetter(value[i])
    ensures r.Success? ==> r.value == value
    ensures r.Failure? ==> r.error == InvalidName
  {
    if IsAlpha(value) then Success(value) else Failure(InvalidName)
  }

  /** `Phone(value)`: first the all-digits check (which the empty text
      fails), then the length check; accepted exactly when the text is ten
      decimal digits. */
  function ValidatePhone(value: string): (r: Result<Phone>)
    ensures r.Success? <==> |value| == 10 && forall i :: 0 <= i < |value| ==> IsDigit(value[i])
    ensures r.Success? ==> r.value == value
    ensures r == Failure(PhoneNotDigits) <==>
              |value| == 0 || exists i :: 0 <= i < |value| && !IsDigit(value[i])
    ensures r == Failure(PhoneWrongLength) <==>
              |value| > 0 && |value| != 10 && forall i :: 0 <= i < |value| ==> IsDigit(value[i])
  {
    if !IsDecimal(value) then Failure(PhoneNotDigits)
    else if |value| != 10 then Failure(PhoneWrongLength)
    else Success(value)
  }

  /** `Birthday(value)`: accepted exactly when `%d.%m.%Y` parses it into an
      existing date; the original text is what is stored. */
  function ValidateBirthday(value: string): (r: Result<Birthday>)
    ensures r.Success? <==> ParseDate(value).Some?
    ensures r.Success? ==> r.value == value
    ensures r.Failure? ==> r.error == InvalidDateFormat
  {
    if IsBirthday(value) then Success(value) else Failure(InvalidDateFormat)
  }

  /** `Birthday.as_date`: the stored text parsed again. */
  function AsDate(b: Birthday): (d: Date)
    ensures ValidDate(d) && d.year <= 9999
  {
    ParseDate(b).value
  }

  /** A date written in the canonical form is a birthday whose date is that
      date. */
  lemma FormattedIsBirthday(d: Date)
    requires ValidDate(d) && d.year <= 9999
    ensures IsBirthday(FormatDate(d)) && AsDate(FormatDate(d)) == d
  {
    FormatThenParse(d);
  }
}
