# Contact directory: a verified model

This project models the core of a small Python contact directory,
`classes.py`. The core has three layers:

- **Field value objects.** `Name`, `Phone` and `Birthday` are built only
  from text that passes their check, and they keep that text. A name is
  non-empty and made of letters. A phone is exactly ten decimal digits. A
  birthday is a text that `datetime.strptime(value, "%d.%m.%Y")` accepts.
- **`Record`.** One contact: a name, a phone list that `add_phone`,
  `remove_phone` and `edit_phone` change in place, and an optional
  birthday set by `add_birthday`. `find_phone` is a first-match lookup.
  `__str__` renders the contact.
- **`AddressBook`.** An insertion-ordered dictionary keyed by the
  lower-cased name. `add_record` overwrites, `find` is case-insensitive,
  and `delete` pops the key exactly as given. `get_upcoming_birthdays` is
  the scheduling rule:
  1. Project each birthday onto this year, or onto next year when it is
     already past.
  2. Keep it when it is 0 to `days` days ahead.
  3. Move a Saturday or Sunday to the following Monday.
  4. Emit the name and the date as `DD.MM.YYYY`.

The Dafny modules follow that structure:

| module | file | what it holds |
|---|---|---|
| `Results` | results.dfy | the error kinds, `Option`, `Result`, `Outcome` (a raise becomes a `Failure`/`Fail`) |
| `Text` | text.dfy | `isalpha`, `isdigit`, `lower`, digit strings, `str.split` and `str.join` |
| `Lists` | lists.dfy | first-match search, the filtering comprehension of `remove_phone`, duplicate-freedom |
| `OrderedDict` | dict.dfy | the dict behind `UserDict.data`: a key order plus a map |
| `Calendar` | calendar.dfy | proleptic Gregorian dates: `toordinal`, `weekday`, `<`, `+ timedelta` |
| `DateText` | datetext.dfy | `strptime` and `strftime` for the pattern `%d.%m.%Y` |
| `Fields` | fields.dfy | the `Name`, `Phone` and `Birthday` checks, as subset types and validating functions |
| `Render` | render.dfy | the text of `Record.__str__` and `AddressBook.__str__`, and the lines it consists of |
| `Contacts` | contacts.dfy | class `Record` and its in-place operations |
| `Scheduling` | scheduling.dfy | the birthday rule for one record and for the whole book, as functions |
| `Directory` | directory.dfy | class `AddressBook` and the query loop as a method |

`Record` and `AddressBook` are classes, because the source updates them
in place. `Record`'s phone list is a `seq` field that the methods
reassign. The book's dictionary is a field of the value type `Dict`.
`edit_phone`'s index loop and `get_upcoming_birthdays`'s loop are
`while` loops. The loop in `Directory.UpcomingOf` is proved equal to the
reference function `Scheduling.Upcoming`. The validators, the calendar,
the renderers and the scheduling rule are pure functions, with lemmas
relating them.

`date.today()` becomes the parameter `today`. A date that Python's `date`
can hold (years 1 to 9999) is `Calendar.PyDate`. Every step of the
source that raises is modelled as an explicit error value:

- `replace(year=...)` raises on 29 February in a common year, and past
  the year 9999.
- `date + timedelta` raises past `date.max` (31 December 9999):
  `Calendar.AddTimedelta` and `Scheduling.FindNextWeekday` fail with
  `DateOutOfRange` there. `adjust_for_weekend` never reaches that case,
  because `date.max` is a Friday (`Scheduling.WeekendBeforeLastDate`).
- `Directory.AddressBook.Delete` fails on a missing key.

No precondition excludes any of these cases.

## Model

| member | source | states |
|---|---|---|
| Fields.ValidateName | classes.py:15-23 | a name is accepted exactly when it is non-empty and every character is a letter; the stored value is the text; otherwise the error is InvalidName |
| Fields.ValidatePhone | classes.py:29-39 | a phone is accepted exactly when it is ten digits; the digit check comes first and also fails on the empty text; digits of another length fail with the length error |
| Fields.ValidateBirthday | classes.py:92-99 | a birthday is accepted exactly when `%d.%m.%Y` parses it; the original text is stored; otherwise the error is InvalidDateFormat |
| Fields.AsDate | classes.py:101-103 | the parsed date of a stored birthday exists and lies in years 1..9999 |
| Fields.FormattedIsBirthday | classes.py:101-103 | the canonical text of any date of years 1..9999 is a birthday whose `as_date` is that date |
| Text.LowerEqualIff | classes.py:108-111 | two names have the same lower-case form exactly when they have equal length and agree letter by letter up to case |
| Text.LowerIsLowerCase | classes.py:108 | a lower-cased key has no upper-case letter |
| Text.DigitsRoundTrip | classes.py:131 | zero-padded decimal formatting yields digits whose value is the number |
| Text.NumberValueRoundTrip | classes.py:131 | a digit string read as a number and written back at its own width is unchanged |
| Calendar.BeforeIffOrdinalLess | classes.py:142-145 | `a < b` on dates holds exactly when the ordinal of `a` is smaller, and equal dates have equal ordinals, so date subtraction is ordinal subtraction |
| Calendar.AddTimedelta | classes.py:123 | `d + timedelta(days=n)` succeeds exactly when the ordinal n higher is at most that of `date.max`, and then is the date with that ordinal; otherwise it fails with DateOutOfRange |
| Calendar.PyDateIffNotAfterLast | classes.py:123 | a valid date fits in a Python `date` exactly when its ordinal is at most that of `date.max` |
| Calendar.WeekdayAfter | classes.py:120-123 | adding n days moves the weekday n steps round the week |
| DateText.ParseDate | classes.py:96 | whatever parses is a date that exists, in years 1..9999 |
| DateText.FormatThenParse | classes.py:130-131 | every date of years 1..9999, written by `strftime('%d.%m.%Y')`, is ten characters that parse back to that date |
| DateText.ParseThenFormat | classes.py:130-131 | a ten-character text that parses and does not start with a space is exactly the formatted text of its date |
| DateText.ParseDigitFields | classes.py:96 | two-digit day and month with a four-digit year parse exactly when the date they name exists |
| DateText.ParseRefusesMissingDate | classes.py:96-98 | well-formed digits naming a day its month lacks (29 February 2023) are refused |
| DateText.ParseSingleDigits | classes.py:96 | `%d` and `%m` also accept a single digit |
| DateText.ParseSpacedDay | classes.py:96 | `%d` also accepts a space followed by a digit |
| DateText.ParseNeedsFourDigitYear | classes.py:96 | a year field that is not four characters long is refused |
| DateText.ParseRefusesZeroDay | classes.py:96 | a day written `00` is refused |
| DateText.ParsedIsOneLine | classes.py:81 | a text that parses contains no line break |
| Lists.FirstIndex | classes.py:69-73 | the first-match scan finds nothing exactly when the value is absent, and otherwise a position holding it with no earlier match |
| Lists.FirstIndexIsFirstMatch | classes.py:63-66 | a match with no match before it is what the scan stops at |
| Lists.RemoveAllCounts | classes.py:60 | filtering removes every copy of the value and keeps every other value as often as it occurred |
| Lists.RemoveAllMembers | classes.py:60 | after filtering, exactly the other values remain |
| Lists.RemoveAllAppend | classes.py:60 | filtering keeps the order of what remains |
| Lists.RemoveAllAbsent | classes.py:60 | removing an absent number changes nothing |
| Lists.RemoveAllOne | classes.py:60 | in a duplicate-free list, filtering removes exactly one position and keeps the rest in order |
| Lists.RemoveAllNoDuplicates | classes.py:60 | filtering keeps a list duplicate-free |
| Lists.ReplaceOnly | classes.py:62-66 | replacing the only occurrence of a number by another leaves the new one present and the old one absent |
| Lists.ReplaceCanDuplicate | classes.py:62-66 | `edit_phone` does not check the new number against the others: editing A to B in [A, B] gives [B, B] |
| Contacts.Record.constructor | classes.py:46-49 | a new record holds the name, no phones and no birthday |
| Contacts.NewRecord | classes.py:46-49 | `Record(name)` fails with InvalidName exactly when the name check fails; otherwise the new record holds the name, no phones and no birthday |
| Contacts.Record.AddPhone | classes.py:51-57 | an invalid number fails with its validation error and a listed one fails as a duplicate, both leaving the list unchanged; otherwise the number is appended; a duplicate-free list stays duplicate-free |
| Contacts.Record.RemovePhone | classes.py:59-60 | the new list is the old one without any entry equal to the number, in order; afterwards `find_phone` finds nothing; duplicate-freedom is kept |
| Contacts.Record.EditPhone | classes.py:62-67 | old number absent: not-found error and no change, even for an invalid new number; present with an invalid new number: its validation error and no change; otherwise only the first position holding the old number is overwritten |
| Contacts.Record.FindPhone | classes.py:69-73 | a phone is found exactly when an equal entry is listed, and the entry found equals the query |
| Contacts.Record.AddBirthday | classes.py:75-77 | the empty text changes nothing; an invalid text fails and keeps the previous birthday; a valid one replaces it |
| Contacts.Record.Str | classes.py:79-82 | the record's text splits into the name line, "Phones:", one indented line per phone (or a dash for none) and the birthday line when a birthday is set |
| Contacts.FieldsAreSingleLines | classes.py:80-82 | names, phones and birthday texts hold no line break, and phones are non-empty |
| Render.RenderRecordLines | classes.py:79-82 | a record text built from single-line fields splits exactly into its `RecordLines` |
| Render.PhoneBlockLines | classes.py:80 | the phones joined by a newline and an indent, or the dash when there are none, give one indented line per phone |
| Render.RenderBookLines | classes.py:155-158 | the book's text splits into the lines of each record's text in turn |
| OrderedDict.Get | classes.py:111 | `get` returns the value exactly when the key is present |
| OrderedDict.Put | classes.py:108 | storing keeps the dict well formed and maps the key to the value; an existing key keeps its place, a new key goes last |
| OrderedDict.Pop | classes.py:115 | `pop` fails exactly when the key is absent; otherwise the key is gone and the other keys keep their order |
| OrderedDict.Values | classes.py:136 | `values()` lists each key's value in key order |
| OrderedDict.EmptyIffNoEntries | classes.py:156 | a dict has no keys exactly when its mapping is empty |
| OrderedDict.GetPut | classes.py:108-111 | a value just stored is what `get` returns, and other keys are untouched |
| OrderedDict.GetPop | classes.py:111-115 | after `pop` the key is gone, and other keys keep their values |
| OrderedDict.PutExistingValues | classes.py:108 | overwriting a key changes its value in place: the order of values is kept |
| OrderedDict.PutNewValues | classes.py:108 | storing under a new key adds its value at the end |
| OrderedDict.PopValues | classes.py:115 | popping the key at position i drops exactly the value at position i |
| Directory.AddressBook.constructor | classes.py:106 | a new book is empty and well formed |
| Directory.AddressBook.AddRecord | classes.py:107-108 | the record is stored under its lower-cased name, replacing any record there; `find` by its name returns it; every name with another lower-case form finds what it found before |
| Directory.AddressBook.Find | classes.py:110-111 | a record is found exactly when its lower-cased name is a key; it is the record stored under that key, and its name equals the query up to case |
| Directory.AddressBook.FindIgnoresCase | classes.py:110-111 | two names that differ only in letter case find the same record |
| Directory.AddressBook.FoundNameMatches | classes.py:108-111 | the record found has the query's name, letter by letter up to case |
| Directory.AddressBook.Delete | classes.py:113-117 | a missing key fails with RecordNotFound and changes nothing; otherwise the key is popped, the others keep their order, and the book stays well formed |
| Directory.AddressBook.DeleteNeedsLowerCase | classes.py:107-115 | a name with an upper-case letter is never a key, so `delete` by it fails even when `find` succeeds |
| Directory.AddressBook.GetUpcomingBirthdays | classes.py:133-150 | the query over the book's records in order gives `Upcoming` of them |
| Directory.AddressBook.ShowUpcomingBirthdays | classes.py:152-153 | the list of the query with its default horizon of seven days |
| Directory.AddressBook.Str | classes.py:155-158 | an empty book gives "Address Book is empty."; otherwise the text's lines are the lines of every record in book order |
| Directory.UpcomingOf | classes.py:136-150 | the loop over the records, stopping at the first failure, computes `Upcoming` |
| Directory.CongratulationDate | classes.py:141-147 | the loop body for one birthday, reassigning its local date, computes `Congratulation` |
| Directory.ContactsOfRecords | classes.py:136-137 | the query reads each record's own name and birthday, in book order |
| Directory.TextsLines | classes.py:158 | the lines of the records' texts are the lines of each record in turn |
| Scheduling.DaysAhead | classes.py:120-122 | the step of `find_next_weekday` is 1 to 7 days and lands on the target weekday |
| Scheduling.DaysAheadIsFirst | classes.py:120-122 | no smaller step lands on the target weekday |
| Scheduling.FindNextWeekday | classes.py:119-123 | succeeds exactly when the date 1 to 7 days after the start on the requested weekday is not past `date.max`, and is that date; otherwise it fails with DateOutOfRange |
| Scheduling.LastFridayOverflows | classes.py:119-123 | from `date.max`, a Friday, looking for the next Monday fails with DateOutOfRange |
| Scheduling.FindNextWeekdayIsFirst | classes.py:119-123 | no date strictly between the start and the result falls on the requested weekday |
| Scheduling.AdjustForWeekend | classes.py:125-128 | the result is a Python date on a weekday: Monday to Friday stay, Saturday moves 2 days and Sunday 1 day to a Monday |
| Scheduling.WeekendBeforeLastDate | classes.py:125-128 | the Monday after any Saturday or Sunday a Python date can hold is not past `date.max`, so `adjust_for_weekend` never overflows |
| Scheduling.AdjustForWeekendIdempotent | classes.py:125-128 | adjusting twice is adjusting once |
| Scheduling.ProjectBirthday | classes.py:141-143 | a successful projection is a Python date with the birthday's month and day, not before today, in this year or the next |
| Scheduling.ProjectIsFirstAnniversary | classes.py:141-143 | the projection is the earliest anniversary on or after today |
| Scheduling.ProjectFailsIff | classes.py:141-143 | projection fails exactly for 29 February in a common current year, or when next year is needed and is common or past 9999 |
| Scheduling.Congratulation | classes.py:141-147 | an emitted date is a Python date on a weekday, between today and two days past the horizon |
| Scheduling.CongratulationIff | classes.py:145-147 | a birthday is kept exactly when its projection is at most `days` ahead; the date is the projection or, on a weekend, the Monday 1 or 2 days after; it fails exactly when the projection fails, with the same error |
| Scheduling.Greet | classes.py:137-150 | a record without a birthday is skipped; an entry carries the record's name |
| Scheduling.GreetingDate | classes.py:149-150 | an emitted date text parses back to a weekday between today and two days past the horizon |
| Scheduling.UpcomingFailsIff | classes.py:136-150 | the query fails exactly when some record's entry fails |
| Scheduling.UpcomingIsAllPicked | classes.py:136-150 | when it succeeds, the query emits the records' entries front to back, in book order |
| Scheduling.AllPickedMembers | classes.py:136-150 | an entry is emitted exactly when some record yields it |
| Scheduling.UpcomingStopsAtFailure | classes.py:136-150 | once a prefix of the records fails, the whole query fails with the same error |
| Scheduling.WeekdayBirthdayExample | classes.py:141-150 | on Wednesday 15 October 2025 with horizon 7, a 20 October birthday gives Monday 20 October 2025 |
| Scheduling.SaturdayBirthdayExample | classes.py:141-150 | an 18 October birthday falls on Saturday and gives Monday 20 October 2025 |
| Scheduling.PassedBirthdayExample | classes.py:141-145 | a 1 January birthday projects to 2026 and is dropped |
| Scheduling.LeapDayExample | classes.py:141 | a 29 February birthday fails in the common year 2025 |
| Scheduling.GreetExample | classes.py:136-150 | a record with birthday 20.10.1990 yields the entry dated 20.10.2025 |

## Left out

- `__repr__` of `Name`, `Phone` and `Record`, and the commented-out demo at the end of `classes.py`: display-only text that nothing else reads.
- `main.py`: the command loop, its `input()`/`print` I/O and the decorator that turns exceptions into messages. It is not part of this model.
- `date.today()` is a clock read. It is the parameter `today` of the query.
- `Text.IsAlpha`, `Text.IsDecimal`, `Text.Lower`: ASCII letters and digits only. Python's `isalpha`, `isdigit`, `lower` and the `\d` of `strptime` also accept other Unicode letters and digits, and Unicode case mapping is not modelled.
- `DateText.FormatDate`: `%Y` is written as four zero-padded digits. Python's `strftime` may print years below 1000 without padding on some platforms. Every birthday that can be emitted lies in years 1..9999, and the round-trip lemmas are stated for that range.
- `Scheduling.FindNextWeekday` requires a target weekday in 0..6. The source calls it only with 0 (Monday).
- `Directory.AddressBook.GetUpcomingBirthdays`: the source is a generator. The model returns the whole list, or the first error. Entries yielded before a raising record are not modelled, because `show_upcoming_birthdays` (the list of the generator) discards them too.
- `Directory.AddressBook.GetUpcomingBirthdays` reads a snapshot of the records' names and birthdays (`Contacts`). Records are shared objects, and changes made to them while a lazy generator is suspended are not modelled.
- The `UserDict` methods the source does not use (`__len__`, iteration, `__contains__`, ...) are not modelled. The dict is the key order plus a map.
- The source's known gaps are stated as they are, not fixed:
  - `edit_phone` does not check the new number for duplicates (`Lists.ReplaceCanDuplicate`).
  - `delete` does not lower-case its argument (`Directory.AddressBook.DeleteNeedsLowerCase`).
  - A 29 February birthday fails when the current year is common. It also fails in a leap year once 29 February has passed, because the following year is common (`Scheduling.ProjectFailsIff`).
  - The year-9999 overflow of `today.year + 1` is also modelled as the error `DateOutOfRange`, not left out.
