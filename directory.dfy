/** `AddressBook`: the records keyed by their lower-cased name, in the order
    the keys were first added, with lookup, deletion, the birthday query and
    the directory's display text. */
module Directory {
  import opened Results
  import opened Text
  import opened Calendar
  import opened DateText
  import opened Fields
  import opened OrderedDict
  import opened Contacts
  import opened Render
  import opened Scheduling

  class AddressBook {
    var data: Dict<Record>

    /** The dictionary is well formed and every record sits under its own
        lower-cased name. */
    predicate Valid()
      reads this
    {
      && data.Valid()
      && forall k :: k in data.entries ==> k == Lower(data.entries[k].name)
    }

    constructor ()
      ensures Valid() && data == Empty()
    {
      data := Empty();
    }

    /** `add_record`: stores the record under its lower-cased name,
        replacing any record stored there. */
    method AddRecord(record: Record)
      requires Valid()
      modifies this
      ensures Valid()
      ensures data == Put(old(data), Lower(record.name), record)
      ensures Find(record.name) == Some(record)
      ensures forall n :: Lower(n) != Lower(record.name) ==> Find(n) == old(Find(n))
    {
      data := Put(data, Lower(record.name), record);
      forall k | k in data.entries ensures k == Lower(data.entries[k].name) {
        if k != Lower(record.name) {
          assert data.entries[k] == old(data.entries[k]);
        }
      }
    }

    /** `find`: the record stored under the lower-cased name, so the lookup
        ignores case; None when there is none. */
    function Find(name: string): (r: Option<Record>)
      reads this
      ensures r.Some? <==> Lower(name) in data.entries
      ensures r.Some? ==> r.value == data.entries[Lower(name)]
      ensures Valid() && r.Some? ==> Lower(r.value.name) == Lower(name)
    {
      Get(data, Lower(name))
    }

    /** Two names that differ only in letter case find the same record. */
    lemma FindIgnoresCase(a: string, b: string)
      requires |a| == |b| && forall i :: 0 <= i < |a| ==> SameIgnoringCase(a[i], b[i])
      ensures Find(a) == Find(b)
    {
      LowerEqualIff(a, b);
    }

    /** A record found is the one whose name equals the query up to case. */
    lemma FoundNameMatches(name: string)
      requires Valid() && Find(name).Some?
      ensures var n := Find(name).value.name;
              |n| == |name| && forall i :: 0 <= i < |n| ==> SameIgnoringCase(n[i], name[i])
    {
      LowerEqualIff(Find(name).value.name, name);
    }

    /** `delete`: pops the key exactly as given, without lower-casing it;
        a missing key is the KeyError. */
    method Delete(name: string) returns (res: Outcome)
      requires Valid()
      modifies this
      ensures Valid()
      ensures name !in old(data.entries) ==> res == Fail(RecordNotFound) && data == old(data)
      ensures name in old(data.entries) ==> res == Pass && data == Pop(old(data), name).value
    {
      var popped := Pop(data, name);
      if popped.None? {
        return Fail(RecordNotFound);
      }
      data := popped.value;
      return Pass;
    }

    /** Since every key is lower case, deleting by a name that has an
        upper-case letter always fails, even when `find` succeeds. */
    lemma DeleteNeedsLowerCase(name: string, i: nat)
      requires Valid() && i < |name| && IsUpper(name[i])
      ensures name !in data.entries
    {
      if name in data.entries {
        LowerIsLowerCase(data.entries[name].name);
        assert false;
      }
    }

    /** The records in book order, as the birthday query reads them. */
    function Contacts(): (cs: seq<Contact>)
      requires data.Valid()
      reads this, data.entries.Values
      ensures |cs| == |data.keys|
    {
      ContactsOf(Values(data))
    }

    /** `get_upcoming_birthdays(days)`, collected into a list, with today's
        date as a parameter. */
    method GetUpcomingBirthdays(days: int, today: Date) returns (res: Result<seq<Greeting>>)
      requires data.Valid() && PyDate(today)
      ensures res == Upcoming(Contacts(), days, today)
    {
      res := UpcomingOf(Contacts(), days, today);
    }

    /** `show_upcoming_birthdays`: the query with its default horizon of
        seven days. */
    method ShowUpcomingBirthdays(today: Date) returns (res: Result<seq<Greeting>>)
      requires data.Valid() && PyDate(today)
      ensures res == Upcoming(Contacts(), 7, today)
    {
      res := GetUpcomingBirthdays(7, today);
    }

    /** `AddressBook.__str__`: a fixed message for an empty book, else the
        lines of every record in book order. */
    function Str(): (text: string)
      requires data.Valid()
      reads this, data.entries.Values
      ensures data.entries == map[] ==> text == "Address Book is empty."
      ensures data.entries != map[] ==> Split(text, '\n') == BookLines(Values(data))
    {
      var records := Values(data);
      EmptyIffNoEntries(data);
      if records != [] then
        RenderBookLines(TextsOf(records));
        TextsLines(records);
        RenderBook(TextsOf(records))
      else
        RenderBook(TextsOf(records))
    }
  }

  /** The loop of `get_upcoming_birthdays` over the records' names and
      birthdays in book order; it stops at the first failure. */
  method UpcomingOf(contacts: seq<Contact>, days: int, today: Date) returns (res: Result<seq<Greeting>>)
    requires PyDate(today)
    ensures res == Upcoming(contacts, days, today)
  {
    var acc: seq<Greeting> := [];
    var i := 0;
    while i < |contacts|
      invariant 0 <= i <= |contacts|
      invariant Upcoming(contacts[..i], days, today) == Success(acc)
    {
      var contact := contacts[i];
      var entry: seq<Greeting> := [];
      if contact.birthday.Some? {
        var found := CongratulationDate(AsDate(contact.birthday.value), days, today);
        if found.Failure? {
          UpcomingFailsAt(contacts, i, days, today, found);
          return Failure(found.error);
        }
        PickedFound(contact, days, today, found);
        if found.value.Some? {
          entry := [Greeting(contact.name, FormatDate(found.value.value))];
        }
      }
      UpcomingNext(contacts, i, days, today, acc, entry);
      acc := acc + entry;
      i := i + 1;
    }
    assert contacts[..i] == contacts;
    return Success(acc);
  }

  /** The body of the query's loop for one birthday: the date is
      projected onto this year, moved to next year if already passed,
      and, when within the horizon, moved off a weekend. */
  method CongratulationDate(birth: Date, days: int, today: Date) returns (r: Result<Option<Date>>)
    requires ValidDate(birth) && PyDate(today)
    ensures r == Congratulation(birth, days, today)
  {
    var when := Date(today.year, birth.month, birth.day);
    ProjectBirthdaySteps(birth, today);
    if !ValidDate(when) {
      return Failure(DateOutOfRange);
    }
    if Before(when, today) {
      when := Date(today.year + 1, birth.month, birth.day);
      if !ValidDate(when) || when.year > MaxYear {
        return Failure(DateOutOfRange);
      }
    }
    if 0 <= Ordinal(when) - Ordinal(today) <= days {
      if Weekday(when) >= 5 {
        when := AdjustForWeekend(when);
      }
      return Success(Some(when));
    }
    return Success(None);
  }

  /** What the query reads from each record. */
  function ContactsOf(rs: seq<Record>): (cs: seq<Contact>)
    reads rs
    ensures |cs| == |rs|
  {
    if rs == [] then [] else [Contact(rs[0].name, rs[0].birthday)] + ContactsOf(rs[1..])
  }

  /** The query sees each record's own name and birthday, in book order. */
  lemma {:induction false} ContactsOfRecords(rs: seq<Record>, i: nat)
    requires i < |rs|
    ensures ContactsOf(rs)[i] == Contact(rs[i].name, rs[i].birthday)
  {
    if i > 0 {
      ContactsOfRecords(rs[1..], i - 1);
    }
  }

  /** Each record's display text. */
  function TextsOf(rs: seq<Record>): (ts: seq<string>)
    reads rs
    ensures |ts| == |rs|
  {
    if rs == [] then [] else [rs[0].Str()] + TextsOf(rs[1..])
  }

  /** The lines of the records, one record after another. */
  function BookLines(rs: seq<Record>): seq<string>
    reads rs
  {
    if rs == [] then []
    else RecordLines(rs[0].name, rs[0].phones, BirthdayOf(rs[0].birthday)) + BookLines(rs[1..])
  }

  lemma {:induction false} TextsLines(rs: seq<Record>)
    ensures LinesOfAll(TextsOf(rs)) == BookLines(rs)
  {
    if rs != [] {
      TextsLines(rs[1..]);
      assert TextsOf(rs)[1..] == TextsOf(rs[1..]);
    }
  }
}
