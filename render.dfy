/** The display text of a record (`Record.__str__`) and of the whole
    directory (`AddressBook.__str__`), and what their lines are. */
module Render {
  import opened Text
  import opened Results

  /** `Record.__str__`: the name, a "Phones:" line, one indented line per
      phone (or a dash when there is none) and, when a birthday is set, a
      "Birthday:" line. */
  function RenderRecord(name: string, phones: seq<string>, birthday: Option<string>): string
  {
    name + ":\n  Phones:\n    " + PhoneText(phones) + BirthdayText(birthday)
  }

  /** The phones joined by a newline and an indent, or a dash when that
      text is empty. */
  function PhoneText(phones: seq<string>): string
  {
    var listed := Join(phones, "\n    ");
    if listed == "" then "—" else listed
  }

  function BirthdayText(birthday: Option<string>): string
  {
    match birthday case Some(b) => "\n  Birthday: " + b case None => ""
  }

  /** `AddressBook.__str__`: a fixed message for an empty directory, else
      the records' texts one after another, separated by newlines. */
  function RenderBook(records: seq<string>): string
  {
    if records == [] then "Address Book is empty." else Join(records, "\n")
  }

  /** The lines a record's text consists of, stated independently of how the
      text is assembled. */
  function RecordLines(name: string, phones: seq<string>, birthday: Option<string>): seq<string>
  {
    [name + ":", "  Phones:"]
    + PhoneLines(phones)
    + BirthdayLines(birthday)
  }

  function BirthdayLines(birthday: Option<string>): seq<string>
  {
    match birthday case Some(b) => ["  Birthday: " + b] case None => []
  }

  function PhoneLines(phones: seq<string>): seq<string>
  {
    if phones == [] then ["    —"] else Indented(phones)
  }

  function Indented(xs: seq<string>): (r: seq<string>)
    ensures |r| == |xs|
    ensures forall i :: 0 <= i < |xs| ==> r[i] == "    " + xs[i]
  {
    if xs == [] then [] else ["    " + xs[0]] + Indented(xs[1..])
  }

  predicate SingleLine(s: string) { '\n' !in s }

  /** Indenting and joining one-line entries gives one indented line each. */
  lemma {:induction false} IndentedJoinLines(xs: seq<string>)
    requires xs != [] && forall i :: 0 <= i < |xs| ==> SingleLine(xs[i])
    ensures Split("    " + Join(xs, "\n    "), '\n') == Indented(xs)
  {
    if |xs| == 1 {
      SplitSingle("    " + xs[0], '\n');
    } else {
      var rest := xs[1..];
      IndentedJoinLines(rest);
      calc {
        "    " + Join(xs, "\n    ");
        "    " + (xs[0] + "\n    " + Join(rest, "\n    "));
        ("    " + xs[0]) + ['\n'] + ("    " + Join(rest, "\n    "));
      }
      SplitAtSeparator("    " + xs[0], '\n', "    " + Join(rest, "\n    "));
      SplitSingle("    " + xs[0], '\n');
    }
  }

  /** Joining non-empty entries gives a non-empty text. */
  lemma {:induction false} JoinNonEmpty(xs: seq<string>, sep: string)
    requires xs != [] && xs[0] != ""
    ensures Join(xs, sep) != ""
  {
    if |xs| > 1 {
      assert |Join(xs, sep)| >= |xs[0]|;
    }
  }

  lemma PhoneBlockLines(phones: seq<string>)
    requires forall i :: 0 <= i < |phones| ==> SingleLine(phones[i]) && phones[i] != ""
    ensures Split("    " + PhoneText(phones), '\n') == PhoneLines(phones)
  {
    if phones == [] {
      assert "    " + PhoneText(phones) == "    —";
      SplitSingle("    —", '\n');
    } else {
      JoinNonEmpty(phones, "\n    ");
      IndentedJoinLines(phones);
    }
  }

  /** Appending a newline and one more line adds that line. */
  lemma SplitAppendLine(a: string, line: string)
    requires SingleLine(line)
    ensures Split(a + ['\n'] + line, '\n') == Split(a, '\n') + [line]
  {
    SplitAtSeparator(a, '\n', line);
    SplitSingle(line, '\n');
  }

  lemma PhoneAndBirthdayLines(phones: seq<string>, birthday: Option<string>)
    requires forall i :: 0 <= i < |phones| ==> SingleLine(phones[i]) && phones[i] != ""
    requires birthday.Some? ==> SingleLine(birthday.value)
    ensures Split("    " + PhoneText(phones) + BirthdayText(birthday), '\n')
            == PhoneLines(phones) + BirthdayLines(birthday)
  {
    PhoneBlockLines(phones);
    AppendBirthdayLines("    " + PhoneText(phones), birthday);
  }

  /** The birthday text adds the birthday line, if any, to whatever
      precedes it. */
  lemma AppendBirthdayLines(block: string, birthday: Option<string>)
    requires birthday.Some? ==> SingleLine(birthday.value)
    ensures Split(block + BirthdayText(birthday), '\n') == Split(block, '\n') + BirthdayLines(birthday)
  {
    if birthday.Some? {
      var line := "  Birthday: " + birthday.value;
      assert block + BirthdayText(birthday) == block + ['\n'] + line;
      SplitAppendLine(block, line);
    } else {
      assert block + BirthdayText(birthday) == block;
    }
  }

  /** A record whose name, phones and birthday text are single, non-empty
      lines renders to exactly the lines of RecordLines: one per phone, the
      dash only for an empty list, the birthday line only when one is set. */
  lemma RenderRecordLines(name: string, phones: seq<string>, birthday: Option<string>)
    requires SingleLine(name)
    requires forall i :: 0 <= i < |phones| ==> SingleLine(phones[i]) && phones[i] != ""
    requires birthday.Some? ==> SingleLine(birthday.value)
    ensures Split(RenderRecord(name, phones, birthday), '\n') == RecordLines(name, phones, birthday)
  {
    var rest := "    " + PhoneText(phones) + BirthdayText(birthday);
    var second := "  Phones:" + ['\n'] + rest;
    PhoneAndBirthdayLines(phones, birthday);
    RecordTextShape(name, PhoneText(phones), BirthdayText(birthday));
    SplitPrependLine("  Phones:", rest);
    assert SingleLine(name + ":");
    SplitPrependLine(name + ":", second);
    LinesInFront(name + ":", "  Phones:", PhoneLines(phones), BirthdayLines(birthday));
  }

  lemma LinesInFront(a: string, b: string, xs: seq<string>, ys: seq<string>)
    ensures [a] + ([b] + (xs + ys)) == [a, b] + xs + ys
  {
  }

  lemma RecordTextShape(name: string, phoneText: string, birthdayText: string)
    ensures name + ":\n  Phones:\n    " + phoneText + birthdayText
            == (name + ":") + ['\n'] + ("  Phones:" + ['\n'] + ("    " + phoneText + birthdayText))
  {
  }

  /** Putting one line and a newline in front adds that line. */
  lemma SplitPrependLine(line: string, rest: string)
    requires SingleLine(line)
    ensures Split(line + ['\n'] + rest, '\n') == [line] + Split(rest, '\n')
  {
    SplitAtSeparator(line, '\n', rest);
    SplitSingle(line, '\n');
  }

  /** The directory's text is the lines of each record in turn. */
  lemma RenderBookLines(records: seq<string>)
    requires records != []
    ensures Split(RenderBook(records), '\n') == LinesOfAll(records)
  {
    SplitJoinLines(records);
  }
}
