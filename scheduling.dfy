/** The birthday rule of `AddressBook.get_upcoming_birthdays`: project each
    birthday onto the current (or next) year, keep those that fall within
    the horizon, and move a weekend date to the following Monday. The clock
    read `date.today()` is the parameter `today`. */
module Scheduling {
  import opened Results
  import opened Calendar
  import opened DateText
  import opened Fields
  import opened Lists

  /** What the query reads from a record: its name and its birthday. */
  datatype Contact = Contact(name: string, birthday: Option<Birthday>)

  /** One emitted entry: `{"name": ..., "congratulation_date": ...}`. */
  datatype Greeting = Greeting(name: string, congratulationDate: string)

  predicate IsLeapDay(d: Date)
  {
    d.month == 2 && d.day == 29
  }

  // ---------------------------------------------------------------------
  // Weekend adjustment

  /** How many days ahead `find_next_weekday` goes from weekday `w` to
      reach `target`: `target - w`, plus a week unless that is positive. */
  function DaysAhead(w: int, target: int): (n: nat)
    requires 0 <= w <= 6 && 0 <= target <= 6
    ensures 1 <= n <= 7 && (w + n) % 7 == target
  {
    var ahead := target - w;
    if ahead <= 0 then ahead + 7 else ahead
  }

  /** No smaller step reaches `target`. */
  lemma DaysAheadIsFirst(w: int, target: int, n: nat)
    requires 0 <= w <= 6 && 0 <= target <= 6 && 1 <= n < DaysAhead(w, target)
    ensures (w + n) % 7 != target
  {
    if w + n >= 7 {
      assert (w + n) % 7 == w + n - 7;
    }
  }

  /** `find_next_weekday(start, weekday)`: the next date strictly after
      `start` falling on `weekday`; `start + timedelta` raises when that
      date is past `date.max`. */
  function FindNextWeekday(start: Date, weekday: int): (r: Result<Date>)
    requires PyDate(start) && 0 <= weekday <= 6
    ensures r.Success? <==> Ordinal(start) + DaysAhead(Weekday(start), weekday) <= Ordinal(LastDate)
    ensures r.Success? ==> PyDate(r.value) && Weekday(r.value) == weekday
    ensures r.Success? ==> Ordinal(r.value) - Ordinal(start) == DaysAhead(Weekday(start), weekday)
    ensures r.Failure? ==> r.error == DateOutOfRange
  {
    match AddTimedelta(start, DaysAhead(Weekday(start), weekday))
    case Failure(e) => Failure(e)
    case Success(r) =>
      ReachesWeekday(start, weekday, r);
      Success(r)
  }

  /** No date strictly between `start` and the one found falls on
      `weekday`: it is the first such date. */
  lemma FindNextWeekdayIsFirst(start: Date, weekday: int, d: Date)
    requires PyDate(start) && 0 <= weekday <= 6 && ValidDate(d)
    requires FindNextWeekday(start, weekday).Success?
    requires Ordinal(start) < Ordinal(d) < Ordinal(FindNextWeekday(start, weekday).value)
    ensures Weekday(d) != weekday
  {
    NotYetWeekday(start, weekday, d);
  }

  /** `date.max` is a Friday, so the Monday after it does not exist. */
  lemma LastFridayOverflows()
    ensures FindNextWeekday(LastDate, 0) == Failure(DateOutOfRange)
  {
    LastDateFacts();
  }

  /** The dates less than `DaysAhead` days after `start` miss `weekday`. */
  lemma NotYetWeekday(start: Date, weekday: int, d: Date)
    requires ValidDate(start) && 0 <= weekday <= 6 && ValidDate(d)
    requires Ordinal(start) < Ordinal(d) < Ordinal(start) + DaysAhead(Weekday(start), weekday)
    ensures Weekday(d) != weekday
  {
    var n := Ordinal(d) - Ordinal(start);
    WeekdayOfLater(start, d, n);
    DaysAheadIsFirst(Weekday(start), weekday, n);
  }

  /** The date `DaysAhead` days after `start` is on `weekday`. */
  lemma ReachesWeekday(start: Date, weekday: int, r: Date)
    requires ValidDate(start) && 0 <= weekday <= 6 && ValidDate(r)
    requires Ordinal(r) == Ordinal(start) + DaysAhead(Weekday(start), weekday)
    ensures Weekday(r) == weekday
  {
    WeekdayOfLater(start, r, DaysAhead(Weekday(start), weekday));
  }

  /** `adjust_for_weekend(d)`: Saturday and Sunday move to the next Monday,
      a weekday stays. */
  function AdjustForWeekend(d: Date): (r: Date)
    requires PyDate(d)
    ensures PyDate(r) && Weekday(r) < 5
    ensures Weekday(d) < 5 ==> r == d
    ensures Weekday(d) == 5 ==> Weekday(r) == 0 && Ordinal(r) == Ordinal(d) + 2
    ensures Weekday(d) == 6 ==> Weekday(r) == 0 && Ordinal(r) == Ordinal(d) + 1
  {
    if Weekday(d) >= 5 then
      WeekendBeforeLastDate(d);
      FindNextWeekday(d, 0).value
    else d
  }

  /** Every Saturday and Sunday a `date` can hold has its next Monday in
      range too, since `date.max` is a Friday: `adjust_for_weekend` never
      overflows. */
  lemma WeekendBeforeLastDate(d: Date)
    requires PyDate(d) && Weekday(d) >= 5
    ensures Ordinal(d) + DaysAhead(Weekday(d), 0) <= Ordinal(LastDate)
  {
    LastDateFacts();
    PyDateIffNotAfterLast(d);
  }

  /** Adjusting an adjusted date changes nothing. */
  lemma AdjustForWeekendIdempotent(d: Date)
    requires PyDate(d)
    ensures AdjustForWeekend(AdjustForWeekend(d)) == AdjustForWeekend(d)
  {
  }

  // ---------------------------------------------------------------------
  // Projection onto the current year

  /** `bd.replace(year=today.year)`, and `replace(year=today.year + 1)` when
      that is strictly before today. Each `replace` fails on a date that
      does not exist. */
  function ProjectBirthday(birth: Date, today: Date): (r: Result<Date>)
    requires ValidDate(birth) && PyDate(today)
    ensures r.Success? ==> PyDate(r.value)
    ensures r.Success? ==> r.value.month == birth.month && r.value.day == birth.day
    ensures r.Success? ==> !Before(r.value, today)
    ensures r.Success? ==> today.year <= r.value.year <= today.year + 1
    ensures r.Failure? ==> r.error == DateOutOfRange
  {
    var here := Date(today.year, birth.month, birth.day);
    if !ValidDate(here) then Failure(DateOutOfRange)
    else if !Before(here, today) then Success(here)
    else
      var next := Date(today.year + 1, birth.month, birth.day);
      if !ValidDate(next) || next.year > MaxYear then Failure(DateOutOfRange)
      else Success(next)
  }

  /** The steps of the projection, one `replace` after the other. */
  lemma ProjectBirthdaySteps(birth: Date, today: Date)
    requires ValidDate(birth) && PyDate(today)
    ensures var here := Date(today.year, birth.month, birth.day);
            var next := Date(today.year + 1, birth.month, birth.day);
            && (!ValidDate(here) ==> ProjectBirthday(birth, today) == Failure(DateOutOfRange))
            && (ValidDate(here) && !Before(here, today) ==> ProjectBirthday(birth, today) == Success(here))
            && (ValidDate(here) && Before(here, today) ==>
                  ProjectBirthday(birth, today)
                  == if !ValidDate(next) || next.year > MaxYear then Failure(DateOutOfRange) else Success(next))
  {
  }

  /** The projection is the first anniversary on or after today. */
  lemma ProjectIsFirstAnniversary(birth: Date, today: Date, a: Date)
    requires ValidDate(birth) && PyDate(today) && ProjectBirthday(birth, today).Success?
    requires ValidDate(a) && a.month == birth.month && a.day == birth.day
    requires !Before(a, today)
    ensures !Before(a, ProjectBirthday(birth, today).value)
  {
  }

  /** Projection fails exactly for a 29 February birthday in a common year,
      or when the next year is needed and has no such date. */
  lemma ProjectFailsIff(birth: Date, today: Date)
    requires ValidDate(birth) && PyDate(today)
    ensures ProjectBirthday(birth, today).Failure? <==>
              (IsLeapDay(birth) && !IsLeapYear(today.year))
              || (Before(Date(today.year, birth.month, birth.day), today) &&
                  ((IsLeapDay(birth) && !IsLeapYear(today.year + 1)) || today.year == MaxYear))
  {
  }

  // ---------------------------------------------------------------------
  // One record

  /** The congratulation date for one birthday: None when the projection
      lies outside 0..`days` days from today, else the projection moved off
      a weekend. Only the projection can fail: the weekend shift stays
      within `date.max`. */
  function Congratulation(birth: Date, days: int, today: Date): (r: Result<Option<Date>>)
    requires ValidDate(birth) && PyDate(today)
    ensures r.Success? && r.value.Some? ==>
              var c := r.value.value;
              PyDate(c) && Weekday(c) < 5 &&
              Ordinal(today) <= Ordinal(c) <= Ordinal(today) + days + 2
  {
    match ProjectBirthday(birth, today)
    case Failure(e) => Failure(e)
    case Success(p) =>
      if 0 <= Ordinal(p) - Ordinal(today) <= days then
        BeforeIffOrdinalLess(p, today);
        var c := if Weekday(p) >= 5 then AdjustForWeekend(p) else p;
        Success(Some(c))
      else Success(None)
  }

  /** A birthday is kept exactly when its projection lies at most `days`
      days ahead; the date emitted is the projection, or the Monday after
      it when the projection falls on a weekend. */
  lemma CongratulationIff(birth: Date, days: int, today: Date)
    requires ValidDate(birth) && PyDate(today)
    ensures var r := Congratulation(birth, days, today);
            var p := ProjectBirthday(birth, today);
            && (r.Success? && r.value.Some? <==>
                  p.Success? && Ordinal(p.value) - Ordinal(today) <= days && r.Success?)
            && (r.Success? && r.value.Some? ==>
                  var c := r.value.value;
                  (Weekday(p.value) < 5 ==> c == p.value) &&
                  (Weekday(p.value) >= 5 ==> Weekday(c) == 0 && 1 <= Ordinal(c) - Ordinal(p.value) <= 2))
            && (r.Failure? <==> p.Failure?)
            && (r.Failure? ==> r.error == p.error)
  {
    var p := ProjectBirthday(birth, today);
    if p.Success? {
      BeforeIffOrdinalLess(p.value, today);
    }
  }

  /** One record's entry: records without a birthday are skipped. */
  function Greet(c: Contact, days: int, today: Date): (r: Result<Option<Greeting>>)
    requires PyDate(today)
    ensures c.birthday.None? ==> r == Success(None)
    ensures r.Success? && r.value.Some? ==> r.value.value.name == c.name
  {
    match c.birthday
    case None => Success(None)
    case Some(b) =>
      match Congratulation(AsDate(b), days, today)
      case Failure(e) => Failure(e)
      case Success(None) => Success(None)
      case Success(Some(d)) => Success(Some(Greeting(c.name, FormatDate(d))))
  }

  /** One record's entry, in terms of its congratulation date. */
  lemma GreetSteps(c: Contact, days: int, today: Date)
    requires PyDate(today) && c.birthday.Some?
    ensures var r := Congratulation(AsDate(c.birthday.value), days, today);
            && (r.Failure? ==> Greet(c, days, today) == Failure(r.error))
            && (r == Success(None) ==> Greet(c, days, today) == Success(None))
            && (r.Success? && r.value.Some? ==>
                  Greet(c, days, today) == Success(Some(Greeting(c.name, FormatDate(r.value.value)))))
  {
  }

  /** The text of an emitted date reads back as a weekday no earlier than
      today and at most two days past the horizon. */
  lemma GreetingDate(c: Contact, days: int, today: Date)
    requires PyDate(today)
    requires Greet(c, days, today).Success? && Greet(c, days, today).value.Some?
    ensures var text := Greet(c, days, today).value.value.congratulationDate;
            && ParseDate(text).Some?
            && var d := ParseDate(text).value;
            && Weekday(d) < 5
            && Ordinal(today) <= Ordinal(d) <= Ordinal(today) + days + 2
  {
    var d := Congratulation(AsDate(c.birthday.value), days, today).value.value;
    FormatThenParse(d);
  }

  // ---------------------------------------------------------------------
  // All records

  /** `list(get_upcoming_birthdays(days))` over the records in book order:
      the entries of the records in turn; the first record whose entry
      fails makes the whole query fail. */
  function Upcoming(cs: seq<Contact>, days: int, today: Date): (r: Result<seq<Greeting>>)
    requires PyDate(today)
    ensures r.Success? ==> |r.value| <= |cs|
  {
    if cs == [] then Success([])
    else
      match Upcoming(cs[..|cs| - 1], days, today)
      case Failure(e) => Failure(e)
      case Success(gs) =>
        match Greet(cs[|cs| - 1], days, today)
        case Failure(e) => Failure(e)
        case Success(None) => Success(gs)
        case Success(Some(g)) => Success(gs + [g])
  }

  /** The entry one record contributes, if any. */
  function Picked(c: Contact, days: int, today: Date): seq<Greeting>
    requires PyDate(today)
  {
    match Greet(c, days, today)
    case Success(Some(g)) => [g]
    case _ => []
  }

  /** The entries of the records, front to back: the reference the query is
      compared with. */
  function AllPicked(cs: seq<Contact>, days: int, today: Date): seq<Greeting>
    requires PyDate(today)
  {
    if cs == [] then [] else Picked(cs[0], days, today) + AllPicked(cs[1..], days, today)
  }

  lemma {:induction false} AllPickedAppend(cs: seq<Contact>, c: Contact, days: int, today: Date)
    requires PyDate(today)
    ensures AllPicked(cs + [c], days, today) == AllPicked(cs, days, today) + Picked(c, days, today)
  {
    AppendParts(cs, c);
    if cs != [] {
      AllPickedAppend(cs[1..], c, days, today);
    }
  }

  lemma AllPickedLast(cs: seq<Contact>, days: int, today: Date)
    requires PyDate(today) && cs != []
    ensures AllPicked(cs, days, today)
            == AllPicked(cs[..|cs| - 1], days, today) + Picked(cs[|cs| - 1], days, today)
  {
    SplitLast(cs);
    AllPickedAppend(cs[..|cs| - 1], cs[|cs| - 1], days, today);
  }

  /** The query fails exactly when some record's entry fails. */
  lemma {:induction false} UpcomingFailsIff(cs: seq<Contact>, days: int, today: Date)
    requires PyDate(today)
    ensures Upcoming(cs, days, today).Failure? <==>
              exists i :: 0 <= i < |cs| && Greet(cs[i], days, today).Failure?
  {
    if cs != [] {
      var init := cs[..|cs| - 1];
      UpcomingFailsIff(init, days, today);
      if exists i :: 0 <= i < |init| && Greet(init[i], days, today).Failure? {
        var i :| 0 <= i < |init| && Greet(init[i], days, today).Failure?;
        assert cs[i] == init[i];
      }
      if exists i :: 0 <= i < |cs| && Greet(cs[i], days, today).Failure? {
        var i :| 0 <= i < |cs| && Greet(cs[i], days, today).Failure?;
        if i < |init| {
          assert init[i] == cs[i];
        }
      }
    }
  }

  /** When it succeeds, the query emits, in book order, exactly the entries
      of the records that have one. */
  lemma {:induction false} UpcomingIsAllPicked(cs: seq<Contact>, days: int, today: Date)
    requires PyDate(today) && Upcoming(cs, days, today).Success?
    ensures Upcoming(cs, days, today).value == AllPicked(cs, days, today)
  {
    if cs != [] {
      var init, last := cs[..|cs| - 1], cs[|cs| - 1];
      UpcomingStep(cs, days, today);
      UpcomingIsAllPicked(init, days, today);
      AllPickedLast(cs, days, today);
    }
  }

  lemma UpcomingStep(cs: seq<Contact>, days: int, today: Date)
    requires PyDate(today) && cs != [] && Upcoming(cs, days, today).Success?
    ensures Upcoming(cs[..|cs| - 1], days, today).Success?
    ensures Upcoming(cs, days, today).value
            == Upcoming(cs[..|cs| - 1], days, today).value + Picked(cs[|cs| - 1], days, today)
  {
    var g := Greet(cs[|cs| - 1], days, today);
    if g.Success? && g.value.None? {
      assert Picked(cs[|cs| - 1], days, today) == [];
    }
  }

  /** One more record: its failure is the query's failure, else its entry,
      if any, goes last. */
  lemma UpcomingExtend(cs: seq<Contact>, c: Contact, days: int, today: Date)
    requires PyDate(today) && Upcoming(cs, days, today).Success?
    ensures Greet(c, days, today).Failure? ==>
              Upcoming(cs + [c], days, today) == Failure(Greet(c, days, today).error)
    ensures Greet(c, days, today).Success? ==>
              Upcoming(cs + [c], days, today)
              == Success(Upcoming(cs, days, today).value + Picked(c, days, today))
  {
    AppendParts(cs, c);
    var gs := Upcoming(cs, days, today).value;
    var g := Greet(c, days, today);
    if g.Success? && g.value.None? {
      assert Picked(c, days, today) == [];
      assert gs + [] == gs;
    }
  }

  /** Once a prefix of the records fails, the whole query fails with the
      same error. */
  lemma {:induction false} UpcomingStopsAtFailure(cs: seq<Contact>, j: nat, days: int, today: Date)
    requires PyDate(today) && j <= |cs| && Upcoming(cs[..j], days, today).Failure?
    ensures Upcoming(cs, days, today) == Upcoming(cs[..j], days, today)
    decreases |cs| - j
  {
    if j < |cs| {
      TakeOneMore(cs, j);
      UpcomingStopsAtFailure(cs, j + 1, days, today);
    } else {
      assert cs[..j] == cs;
    }
  }

  /** One more record whose entry is `entry`: the entry goes last. */
  lemma UpcomingNext(cs: seq<Contact>, i: nat, days: int, today: Date,
                     acc: seq<Greeting>, entry: seq<Greeting>)
    requires PyDate(today) && i < |cs| && Upcoming(cs[..i], days, today) == Success(acc)
    requires Greet(cs[i], days, today).Success? && Picked(cs[i], days, today) == entry
    ensures Upcoming(cs[..i + 1], days, today) == Success(acc + entry)
  {
    TakeOneMore(cs, i);
    UpcomingExtend(cs[..i], cs[i], days, today);
  }

  /** One more record whose congratulation date fails: the query fails. */
  lemma UpcomingFailsAt(cs: seq<Contact>, i: nat, days: int, today: Date, found: Result<Option<Date>>)
    requires PyDate(today) && i < |cs| && Upcoming(cs[..i], days, today).Success?
    requires cs[i].birthday.Some?
    requires found == Congratulation(AsDate(cs[i].birthday.value), days, today) && found.Failure?
    ensures Upcoming(cs, days, today) == Failure(found.error)
  {
    TakeOneMore(cs, i);
    GreetSteps(cs[i], days, today);
    UpcomingExtend(cs[..i], cs[i], days, today);
    UpcomingStopsAtFailure(cs, i + 1, days, today);
  }

  /** The entry of a record with a birthday, from its congratulation date. */
  lemma PickedFound(c: Contact, days: int, today: Date, found: Result<Option<Date>>)
    requires PyDate(today) && c.birthday.Some?
    requires found == Congratulation(AsDate(c.birthday.value), days, today) && found.Success?
    ensures Greet(c, days, today).Success?
    ensures found.value.None? ==> Picked(c, days, today) == []
    ensures found.value.Some? ==>
              Picked(c, days, today) == [Greeting(c.name, FormatDate(found.value.value))]
  {
    GreetSteps(c, days, today);
  }

  lemma InPicked(c: Contact, days: int, today: Date, g: Greeting)
    requires PyDate(today)
    ensures g in Picked(c, days, today) <==> Greet(c, days, today) == Success(Some(g))
  {
  }

  /** A greeting is emitted exactly when some record yields it. */
  lemma {:induction false} AllPickedMembers(cs: seq<Contact>, days: int, today: Date, g: Greeting)
    requires PyDate(today)
    ensures g in AllPicked(cs, days, today) <==>
              exists i :: 0 <= i < |cs| && Greet(cs[i], days, today) == Success(Some(g))
  {
    if cs != [] {
      AllPickedMembers(cs[1..], days, today, g);
      InPicked(cs[0], days, today, g);
      if exists i :: 0 <= i < |cs| - 1 && Greet(cs[1..][i], days, today) == Success(Some(g)) {
        var i :| 0 <= i < |cs| - 1 && Greet(cs[1..][i], days, today) == Success(Some(g));
        assert cs[i + 1] == cs[1..][i];
      }
      if exists i :: 0 <= i < |cs| && Greet(cs[i], days, today) == Success(Some(g)) {
        var i :| 0 <= i < |cs| && Greet(cs[i], days, today) == Success(Some(g));
        if i > 0 {
          assert cs[1..][i - 1] == cs[i];
        }
      }
    }
  }

  // ---------------------------------------------------------------------
  // Worked examples, with today Wednesday 15 October 2025 and a horizon of
  // seven days

  /** A Monday birthday five days ahead is emitted as it is. */
  lemma WeekdayBirthdayExample()
    ensures Congratulation(Date(1990, 10, 20), 7, Date(2025, 10, 15))
            == Success(Some(Date(2025, 10, 20)))
  {
    OctoberTwentyIsMonday();
  }

  /** Facts the examples need: 18 October 2025 is a Saturday and 20
      October 2025 a Monday. */
  lemma OctoberTwentyIsMonday()
    ensures Ordinal(Date(2025, 10, 20)) == 739544
    ensures Weekday(Date(2025, 10, 20)) == 0
    ensures Weekday(Date(2025, 10, 18)) == 5
  {
    assert DaysBeforeYear(2025) == 739251;
    assert DaysBeforeMonth(2025, 10) == 273;
  }

  /** A Saturday birthday three days ahead moves to the Monday after. */
  lemma SaturdayBirthdayExample()
    ensures Congratulation(Date(1990, 10, 18), 7, Date(2025, 10, 15))
            == Success(Some(Date(2025, 10, 20)))
  {
    OctoberTwentyIsMonday();
    var p := Date(2025, 10, 18);
    assert ProjectBirthday(Date(1990, 10, 18), Date(2025, 10, 15)) == Success(p);
    assert DaysAhead(5, 0) == 2;
    assert AddDays(p, 2) == AddDays(Date(2025, 10, 19), 1) == Date(2025, 10, 20);
    assert AdjustForWeekend(p) == Date(2025, 10, 20);
  }

  /** A birthday already passed this year moves to next year, past the
      horizon. */
  lemma PassedBirthdayExample()
    ensures ProjectBirthday(Date(1990, 1, 1), Date(2025, 10, 15)) == Success(Date(2026, 1, 1))
    ensures Congratulation(Date(1990, 1, 1), 7, Date(2025, 10, 15)) == Success(None)
  {
    assert DaysBeforeYear(2025) == 739251 && DaysBeforeYear(2026) == 739616;
    assert DaysBeforeMonth(2025, 10) == 273;
    assert Ordinal(Date(2026, 1, 1)) - Ordinal(Date(2025, 10, 15)) == 78;
  }

  /** A 29 February birthday fails in the common year 2025. */
  lemma LeapDayExample()
    ensures Congratulation(Date(2000, 2, 29), 7, Date(2025, 10, 15)) == Failure(DateOutOfRange)
  {
  }

  /** The whole entry for a record with a stored birthday text. */
  lemma GreetExample(b: Birthday)
    requires b == FormatDate(Date(1990, 10, 20))
    ensures Greet(Contact("John", Some(b)), 7, Date(2025, 10, 15))
            == Success(Some(Greeting("John", FormatDate(Date(2025, 10, 20)))))
  {
    FormatThenParse(Date(1990, 10, 20));
    assert AsDate(b) == Date(1990, 10, 20);
    WeekdayBirthdayExample();
  }
}
