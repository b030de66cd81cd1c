/** `Record`: one contact, with a name fixed at creation, a phone list that
    its methods change in place, and an optional birthday. */
module Contacts {
  import opened Results
  import opened Text
  import opened Fields
  import opened Lists
  import opened Render

  class Record {
    const name: Name
    var phones: seq<Phone>
    var birthday: Option<Birthday>

    /** The state `Record(name)` starts in, once the name has been checked. */
    constructor (name: Name)
      ensures this.name == name && phones == [] && birthday == None
    {
      this.name := name;
      phones := [];
      birthday := None;
    }

    /** `add_phone`: the number is checked first, then refused if an equal
        number is already listed; otherwise it is appended. */
    method AddPhone(phone: string) returns (res: Outcome)
      modifies this`phones
      ensures ValidatePhone(phone).Failure? ==>
                res == Fail(ValidatePhone(phone).error) && phones == old(phones)
      ensures ValidatePhone(phone).Success? && phone in old(phones) ==>
                res == Fail(DuplicatePhone) && phones == old(phones)
      ensures ValidatePhone(phone).Success? && phone !in old(phones) ==>
                res == Pass && phones == old(phones) + [ValidatePhone(phone).value]
      ensures NoDuplicates(old(phones)) ==> NoDuplicates(phones)
    {
      var checked := ValidatePhone(phone);
      if checked.Failure? {
        return Fail(checked.error);
      }
      if FindPhone(phone).Some? {
        return Fail(DuplicatePhone);
      }
      phones := phones + [checked.value];
      return Pass;
    }

    /** `remove_phone`: the list is rebound to the old list without any
        entry equal to `phone`. */
    method RemovePhone(phone: string)
      modifies this`phones
      ensures phones == RemoveAll(old(phones), phone)
      ensures FindPhone(phone) == None
      ensures NoDuplicates(old(phones)) ==> NoDuplicates(phones)
    {
      phones := RemoveAll(phones, phone);
      if NoDuplicates(old(phones)) {
        RemoveAllNoDuplicates(old(phones), phone);
      }
    }

    /** `edit_phone`: scans for the first entry equal to `oldPhone`; there it
        checks `newPhone` and overwrites that one position. The new number
        is not checked against the other entries. */
    method EditPhone(oldPhone: string, newPhone: string) returns (res: Outcome)
      modifies this`phones
      ensures FirstIndex(old(phones), oldPhone).None? ==>
                res == Fail(PhoneNotFound) && phones == old(phones)
      ensures FirstIndex(old(phones), oldPhone).Some? && ValidatePhone(newPhone).Failure? ==>
                res == Fail(ValidatePhone(newPhone).error) && phones == old(phones)
      ensures FirstIndex(old(phones), oldPhone).Some? && ValidatePhone(newPhone).Success? ==>
                res == Pass &&
                phones == old(phones)[FirstIndex(old(phones), oldPhone).value := ValidatePhone(newPhone).value]
    {
      var i := 0;
      while i < |phones|
        invariant 0 <= i <= |phones|
        invariant phones == old(phones)
        invariant oldPhone !in phones[..i]
      {
        if phones[i] == oldPhone {
          FirstIndexIsFirstMatch(phones, oldPhone, i);
          var checked := ValidatePhone(newPhone);
          if checked.Failure? {
            return Fail(checked.error);
          }
          phones := phones[i := checked.value];
          return Pass;
        }
        TakeOneMore(phones, i);
        i := i + 1;
      }
      assert phones[..i] == phones;
      return Fail(PhoneNotFound);
    }

    /** `find_phone`: the first listed entry equal to `phone`, if any. */
    function FindPhone(phone: string): (r: Option<Phone>)
      reads this
      ensures r.Some? <==> phone in phones
      ensures r.Some? ==> r.value == phone
    {
      match FirstIndex(phones, phone)
      case None => None
      case Some(i) => Some(phones[i])
    }

    /** `add_birthday`: an empty text changes nothing; any other text must be
        a valid birthday and then replaces the previous one. */
    method AddBirthday(text: string) returns (res: Outcome)
      modifies this`birthday
      ensures text == "" ==> res == Pass && birthday == old(birthday)
      ensures text != "" && ValidateBirthday(text).Failure? ==>
                res == Fail(InvalidDateFormat) && birthday == old(birthday)
      ensures text != "" && ValidateBirthday(text).Success? ==>
                res == Pass && birthday == Some(ValidateBirthday(text).value)
    {
      if text != "" {
        var checked := ValidateBirthday(text);
        if checked.Failure? {
          return Fail(checked.error);
        }
        birthday := Some(checked.value);
      }
      return Pass;
    }

    /** `Record.__str__`: its lines are the name, "Phones:", one indented
        line per phone (a dash when there are none) and the birthday line
        when a birthday is set. */
    function Str(): (text: string)
      reads this
      ensures Split(text, '\n') == RecordLines(name, phones, BirthdayOf(birthday))
    {
      FieldsAreSingleLines(name, phones, birthday);
      RenderRecordLines(name, phones, BirthdayOf(birthday));
      RenderRecord(name, phones, BirthdayOf(birthday))
    }
  }

  /** The stored birthday text, for display. */
  function BirthdayOf(b: Option<Birthday>): (r: Option<string>)
    ensures r.Some? <==> b.Some?
    ensures b.Some? ==> r.value == b.value
  {
    match b case Some(t) => Some(t) case None => None
  }

  /** Names, phones and birthday texts contain no line break, so a record
      renders to the lines RecordLines describes. */
  lemma FieldsAreSingleLines(name: Name, phones: seq<Phone>, birthday: Option<Birthday>)
    ensures SingleLine(name)
    ensures forall i :: 0 <= i < |phones| ==> SingleLine(phones[i]) && phones[i] != ""
    ensures birthday.Some? ==> SingleLine(birthday.value)
  {
    forall i | 0 <= i < |phones| ensures SingleLine(phones[i]) && phones[i] != "" {
      PhoneIsSingleLine(phones[i]);
    }
    if birthday.Some? {
      BirthdayIsSingleLine(birthday.value);
    }
    NameIsSingleLine(name);
  }

  lemma NameIsSingleLine(n: Name)
    ensures SingleLine(n)
  {
    assert !IsLetter('\n');
  }

  lemma PhoneIsSingleLine(p: Phone)
    ensures SingleLine(p) && p != ""
  {
    assert !IsDigit('\n');
  }

  /** A birthday text is at most ten characters of digits, dots and a space. */
  lemma BirthdayIsSingleLine(b: Birthday)
    ensures SingleLine(b)
  {
    DateText.ParsedIsOneLine(b);
  }

  /** `Record(name)`: the name is checked first; the new record has no
      phones and no birthday. */
  method NewRecord(name: string) returns (res: Result<Record>)
    ensures res.Failure? <==> ValidateName(name).Failure?
    ensures res.Failure? ==> res.error == InvalidName
    ensures res.Success? ==>
              fresh(res.value) && res.value.name == name &&
              res.value.phones == [] && res.value.birthday == None
  {
    var checked := ValidateName(name);
    if checked.Failure? {
      return Failure(checked.error);
    }
    var r := new Record(checked.value);
    return Success(r);
  }
}
