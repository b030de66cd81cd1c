/** String primitives the directory relies on: the character classes behind
    `str.isalpha` and `str.isdigit`, `str.lower`, decimal numbers, and
    `str.split` / `str.join` on lines. Characters are modelled as ASCII. */
module Text {

  predicate IsLetter(c: char) { 'a' <= c <= 'z' || 'A' <= c <= 'Z' }

  predicate IsUpper(c: char) { 'A' <= c <= 'Z' }

  predicate IsDigit(c: char) { '0' <= c <= '9' }

  /** Every character is a letter; scanned left to right like `str.isalpha`. */
  function AllLetters(s: string): (b: bool)
    ensures b <==> forall i :: 0 <= i < |s| ==> IsLetter(s[i])
  {
    if s == [] then true else IsLetter(s[0]) && AllLetters(s[1..])
  }

  /** Every character is a decimal digit. */
  function AllDigits(s: string): (b: bool)
    ensures b <==> forall i :: 0 <= i < |s| ==> IsDigit(s[i])
  {
    if s == [] then true else IsDigit(s[0]) && AllDigits(s[1..])
  }

  /** `str.isalpha`: false on the empty string. */
  predicate IsAlpha(s: string) { |s| > 0 && AllLetters(s) }

  /** `str.isdigit`: false on the empty string. */
  predicate IsDecimal(s: string) { |s| > 0 && AllDigits(s) }

  // ---------------------------------------------------------------------
  // Case folding

  function LowerChar(c: char): char
  {
    if IsUpper(c) then (c as int + 32) as char else c
  }

  /** `str.lower` on ASCII. */
  function Lower(s: string): (r: string)
    ensures |r| == |s|
    ensures forall i :: 0 <= i < |s| ==> r[i] == LowerChar(s[i])
  {
    if s == [] then [] else [LowerChar(s[0])] + Lower(s[1..])
  }

  /** Two characters are the same letter up to case, or the same character. */
  predicate SameIgnoringCase(c: char, d: char)
  {
    c == d || (IsUpper(c) && d as int == c as int + 32) || (IsUpper(d) && c as int == d as int + 32)
  }

  lemma LowerCharEqualIff(c: char, d: char)
    ensures LowerChar(c) == LowerChar(d) <==> SameIgnoringCase(c, d)
  {
  }

  /** Lower-casing identifies exactly the strings that differ only in the
      case of their letters. */
  lemma LowerEqualIff(a: string, b: string)
    ensures Lower(a) == Lower(b) <==>
              |a| == |b| && forall i :: 0 <= i < |a| ==> SameIgnoringCase(a[i], b[i])
  {
    var la, lb := Lower(a), Lower(b);
    if la == lb {
      forall i | 0 <= i < |a| ensures SameIgnoringCase(a[i], b[i]) {
        assert la[i] == lb[i];
        LowerCharEqualIff(a[i], b[i]);
      }
    } else if |a| == |b| {
      var i :| 0 <= i < |a| && la[i] != lb[i];
      LowerCharEqualIff(a[i], b[i]);
    }
  }

  /** A lower-cased string has no upper-case letter, and lower-casing again
      changes nothing. */
  lemma LowerIsLowerCase(s: string)
    ensures forall i :: 0 <= i < |s| ==> !IsUpper(Lower(s)[i])
    ensures Lower(Lower(s)) == Lower(s)
  {
  }

  // ---------------------------------------------------------------------
  // Decimal numbers

  function DigitValue(c: char): (v: nat)
    requires IsDigit(c)
    ensures v < 10
  {
    c as int - '0' as int
  }

  function DigitChar(n: nat): (c: char)
    requires n < 10
    ensures IsDigit(c) && DigitValue(c) == n
  {
    ('0' as int + n) as char
  }

  /** `int(s)` for a string of decimal digits (the empty string reads as 0). */
  function NumberValue(s: string): nat
    requires AllDigits(s)
  {
    if s == [] then 0 else NumberValue(s[..|s| - 1]) * 10 + DigitValue(s[|s| - 1])
  }

  /** The value of two digits. */
  lemma TwoDigitValue(s: string)
    requires |s| == 2 && AllDigits(s)
    ensures NumberValue(s) == 10 * DigitValue(s[0]) + DigitValue(s[1])
  {
    var first := s[..1];
    assert first[..0] == [] && first[0] == s[0];
    assert NumberValue(first) == DigitValue(s[0]);
  }

  /** The decimal digits of `n`, padded with leading zeros to at least
      `width` characters (the `%0Nd` of C's and Python's formatting). */
  function Digits(n: nat, width: nat): (s: string)
    ensures |s| >= 1 && |s| >= width
    decreases n + width
  {
    if n < 10 && width <= 1 then [DigitChar(n)]
    else Digits(n / 10, if width > 0 then width - 1 else 0) + [DigitChar(n % 10)]
  }

  function Pow10(k: nat): (p: nat)
    ensures p >= 1
  {
    if k == 0 then 1 else 10 * Pow10(k - 1)
  }

  /** Formatting a number and reading it back gives the number. */
  lemma {:induction false} DigitsRoundTrip(n: nat, width: nat)
    ensures AllDigits(Digits(n, width)) && NumberValue(Digits(n, width)) == n
    decreases n + width
  {
    if n < 10 && width <= 1 {
    } else {
      var w := if width > 0 then width - 1 else 0;
      DigitsRoundTrip(n / 10, w);
      AppendDigit(Digits(n / 10, w), DigitChar(n % 10));
    }
  }

  /** One more digit at the end multiplies the value by ten and adds it. */
  lemma AppendDigit(p: string, c: char)
    requires AllDigits(p) && IsDigit(c)
    ensures AllDigits(p + [c]) && NumberValue(p + [c]) == NumberValue(p) * 10 + DigitValue(c)
  {
    var s := p + [c];
    assert s[..|s| - 1] == p;
  }

  /** A number below 10^width is written in exactly `width` characters. */
  lemma {:induction false} DigitsWidth(n: nat, width: nat)
    requires width >= 1 && n < Pow10(width)
    ensures |Digits(n, width)| == width
    decreases width
  {
    if n < 10 && width <= 1 {
    } else {
      assert width >= 2;
      DigitsWidth(n / 10, width - 1);
    }
  }

  /** Reading a digit string and formatting it to its own width gives it back. */
  lemma {:induction false} NumberValueRoundTrip(s: string)
    requires |s| >= 1 && AllDigits(s)
    ensures Digits(NumberValue(s), |s|) == s
    decreases |s|
  {
    var init := s[..|s| - 1];
    var n := NumberValue(s);
    assert n == NumberValue(init) * 10 + DigitValue(s[|s| - 1]);
    if |s| == 1 {
      assert NumberValue(init) == 0;
      assert [DigitChar(n)] == s;
    } else {
      NumberValueRoundTrip(init);
      assert n / 10 == NumberValue(init) && n % 10 == DigitValue(s[|s| - 1]);
      assert DigitChar(n % 10) == s[|s| - 1];
      assert s == init + [s[|s| - 1]];
    }
  }

  // ---------------------------------------------------------------------
  // Lines

  /** `s.split(sep)`: the pieces between separators, at least one. */
  function Split(s: string, sep: char): (parts: seq<string>)
    ensures |parts| >= 1
  {
    if s == [] then [[]]
    else if s[0] == sep then [[]] + Split(s[1..], sep)
    else var t := Split(s[1..], sep); [[s[0]] + t[0]] + t[1..]
  }

  /** `sep.join(xs)`. */
  function Join(xs: seq<string>, sep: string): string
  {
    if xs == [] then []
    else if |xs| == 1 then xs[0]
    else xs[0] + sep + Join(xs[1..], sep)
  }

  /** A string without the separator is a single piece. */
  lemma {:induction false} SplitSingle(s: string, sep: char)
    requires sep !in s
    ensures Split(s, sep) == [s]
  {
    if s != [] {
      SplitSingle(s[1..], sep);
      assert [s[0]] + s[1..] == s;
    }
  }

  /** Splitting distributes over a separator: the pieces of `a + sep + b`
      are the pieces of `a` followed by the pieces of `b`. */
  lemma {:induction false} SplitAtSeparator(a: string, sep: char, b: string)
    ensures Split(a + [sep] + b, sep) == Split(a, sep) + Split(b, sep)
  {
    var s := a + [sep] + b;
    if a == [] {
      assert s[0] == sep && s[1..] == b;
    } else {
      SplitAtSeparator(a[1..], sep, b);
      assert s[0] == a[0] && s[1..] == a[1..] + [sep] + b;
      if a[0] != sep {
        PrependToFirst(a[0], Split(a[1..], sep), Split(b, sep));
      } else {
        PrependPiece(Split(a[1..], sep), Split(b, sep));
      }
    }
  }

  lemma PrependToFirst(c: char, u: seq<string>, v: seq<string>)
    requires |u| >= 1
    ensures var t := u + v; [[c] + t[0]] + t[1..] == ([[c] + u[0]] + u[1..]) + v
  {
    var t := u + v;
    assert t[0] == u[0] && t[1..] == u[1..] + v;
  }

  lemma PrependPiece(u: seq<string>, v: seq<string>)
    ensures [[]] + (u + v) == ([[]] + u) + v
  {
  }

  /** The lines of several texts joined by newlines are the lines of each
      text in turn. */
  function LinesOfAll(xs: seq<string>): seq<string>
  {
    if xs == [] then [] else Split(xs[0], '\n') + LinesOfAll(xs[1..])
  }

  lemma {:induction false} SplitJoinLines(xs: seq<string>)
    requires xs != []
    ensures Split(Join(xs, "\n"), '\n') == LinesOfAll(xs)
  {
    if |xs| == 1 {
      assert LinesOfAll(xs[1..]) == [];
    } else {
      SplitJoinLines(xs[1..]);
      assert Join(xs, "\n") == xs[0] + ['\n'] + Join(xs[1..], "\n");
      SplitAtSeparator(xs[0], '\n', Join(xs[1..], "\n"));
    }
  }
}
