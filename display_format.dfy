/** The display formatter and the font-size choice of the calculator widget.

    `FormatDisplay` follows the branch structure of the component's
    `formatDisplay`: what it does with the text is modelled exactly, while
    parsing the text as a number and printing a number in Brazilian
    Portuguese grouping or in exponential notation are calls into the host,
    carried as uninterpreted functions in a `NumberFormat` value. */
module DisplayFormat {

  // ---------------------------------------------------------------------
  // Splitting on a separator

  /** The pieces joined back together with `sep` between each two. */
  function Join(parts: seq<string>, sep: char): string
    requires |parts| > 0
    decreases |parts|
  {
    if |parts| == 1 then parts[0] else parts[0] + [sep] + Join(parts[1..], sep)
  }

  /** Putting a character in front of the first piece puts it in front of
      the joined text. */
  lemma JoinPrepend(c: char, parts: seq<string>, sep: char)
    requires |parts| > 0
    ensures Join([[c] + parts[0]] + parts[1..], sep) == [c] + Join(parts, sep)
  {
    var front := [[c] + parts[0]] + parts[1..];
    assert front[1..] == parts[1..];
  }

  /** `s.split(sep)` for a one-character separator: the runs of characters
      between separators, from left to right. */
  function Split(s: string, sep: char): (parts: seq<string>)
    ensures |parts| > 0
    decreases |s|
  {
    if |s| == 0 then
      [""]
    else
      var rest := Split(s[1..], sep);
      if s[0] == sep then [""] + rest else [[s[0]] + rest[0]] + rest[1..]
  }

  /** A split has one piece more than the text has separators. */
  lemma {:induction false} SplitCount(s: string, sep: char)
    ensures |Split(s, sep)| == multiset(s)[sep] + 1
    decreases |s|
  {
    if |s| > 0 {
      SplitCount(s[1..], sep);
      assert s == [s[0]] + s[1..];
      assert multiset(s) == multiset([s[0]]) + multiset(s[1..]);
    }
  }

  /** No piece of a split contains the separator. */
  lemma {:induction false} SplitPiecesLackSeparator(s: string, sep: char)
    ensures forall i :: 0 <= i < |Split(s, sep)| ==> sep !in Split(s, sep)[i]
    decreases |s|
  {
    if |s| > 0 {
      SplitPiecesLackSeparator(s[1..], sep);
      var rest := Split(s[1..], sep);
      var parts := Split(s, sep);
      if s[0] == sep {
        assert parts[1..] == rest;
      } else {
        assert parts[1..] == rest[1..];
        assert sep !in parts[0];
      }
    }
  }

  /** Joining the pieces of a split with the separator gives the text back. */
  lemma {:induction false} SplitJoins(s: string, sep: char)
    ensures Join(Split(s, sep), sep) == s
    decreases |s|
  {
    if |s| > 0 {
      SplitJoins(s[1..], sep);
      var rest := Split(s[1..], sep);
      assert s == [s[0]] + s[1..];
      if s[0] == sep {
        assert Split(s, sep)[1..] == rest;
      } else {
        JoinPrepend(s[0], rest, sep);
      }
    }
  }

  /** The three properties of a split together. */
  lemma SplitProperties(s: string, sep: char)
    ensures |Split(s, sep)| == multiset(s)[sep] + 1
    ensures forall i :: 0 <= i < |Split(s, sep)| ==> sep !in Split(s, sep)[i]
    ensures Join(Split(s, sep), sep) == s
  {
    SplitCount(s, sep);
    SplitPiecesLackSeparator(s, sep);
    SplitJoins(s, sep);
  }

  /** A text with exactly one separator splits into the text before it and
      the text after it. */
  lemma SplitAtOnlySeparator(s: string, sep: char, i: int)
    requires 0 <= i < |s| && s[i] == sep && multiset(s)[sep] == 1
    ensures Split(s, sep) == [s[..i], s[i + 1..]]
  {
    var parts := Split(s, sep);
    SplitProperties(s, sep);
    assert |parts| == 2;
    assert parts[1..] == [parts[1]];
    assert Join(parts[1..], sep) == parts[1];
    assert s == parts[0] + [sep] + parts[1];
    var k := |parts[0]|;
    forall j | 0 <= j < |s| && j != k
      ensures s[j] != sep
    {
      if j < k {
        assert s[j] == parts[0][j];
      } else {
        assert s[j] == parts[1][j - k - 1];
      }
    }
    assert i == k;
    assert parts[0] == s[..i];
    assert parts[1] == s[i + 1..];
  }

  // ---------------------------------------------------------------------
  // Formatting

  /** The host's number handling, left uninterpreted.
      `isNumber(v)`: parsing the leading number of `v` does not give
      not-a-number. `exponential(v)`: that number in exponential notation
      with four fraction digits. `localeNumber(v)`: that number in
      Brazilian Portuguese notation. `localeInteger(t)`: the integer parsed
      from `t` in Brazilian Portuguese notation. */
  datatype NumberFormat = NumberFormat(
    isNumber: string -> bool,
    exponential: string -> string,
    localeNumber: string -> string,
    localeInteger: string -> string)

  predicate EndsWithDot(value: string) {
    |value| > 0 && value[|value| - 1] == '.'
  }

  /** `formatDisplay`: non-numbers and numbers still waiting for their first
      fraction digit are shown as typed; an integer part longer than nine
      characters switches to exponential notation; otherwise the integer part
      is grouped by the locale and the fraction digits follow a decimal comma
      exactly as typed. */
  function FormatDisplay(value: string, nf: NumberFormat): (r: string)
    ensures !nf.isNumber(value) ==> r == value
    ensures EndsWithDot(value) ==> r == value
    ensures nf.isNumber(value) && '.' !in value ==>
              r == if |value| > 9 then nf.exponential(value) else nf.localeNumber(value)
    ensures nf.isNumber(value) && !EndsWithDot(value) && multiset(value)['.'] == 1 ==>
              forall i :: 0 <= i < |value| && value[i] == '.' ==>
                r == if i > 9 then nf.exponential(value)
                     else nf.localeInteger(value[..i]) + "," + value[i + 1..]
  {
    if !nf.isNumber(value) then
      value
    else if EndsWithDot(value) then
      value
    else
      var parts := Split(value, '.');
      SplitProperties(value, '.');
      assert '.' !in value ==> parts == [value] by {
        if '.' !in value {
          assert multiset(value)['.'] == 0;
          assert |parts| == 1;
        }
      }
      assert multiset(value)['.'] == 1 ==>
        forall i :: 0 <= i < |value| && value[i] == '.' ==> parts == [value[..i], value[i + 1..]]
      by {
        forall i | 0 <= i < |value| && value[i] == '.' && multiset(value)['.'] == 1 {
          SplitAtOnlySeparator(value, '.', i);
        }
      }
      if |parts[0]| > 9 then
        nf.exponential(value)
      else if '.' !in value then
        nf.localeNumber(value)
      else
        nf.localeInteger(parts[0]) + "," + parts[1]
  }

  /** The fraction digits of a well-formed number text are copied verbatim
      after the decimal comma. */
  lemma FractionCopiedVerbatim(intPart: string, fraction: string, nf: NumberFormat)
    requires '.' !in intPart && '.' !in fraction && fraction != ""
    requires nf.isNumber(intPart + "." + fraction) && |intPart| <= 9
    ensures FormatDisplay(intPart + "." + fraction, nf) == nf.localeInteger(intPart) + "," + fraction
  {
    var v := intPart + "." + fraction;
    var i := |intPart|;
    assert v[i] == '.';
    assert multiset(v) == multiset(intPart) + multiset{'.'} + multiset(fraction);
    assert v[..i] == intPart;
    assert v[i + 1..] == fraction;
    assert v[|v| - 1] == fraction[|fraction| - 1];
    SplitAtOnlySeparator(v, '.', i);
  }

  // ---------------------------------------------------------------------
  // Digit grouping

  /** Brazilian Portuguese grouping of a run of digits: a '.' before every
      three digits counted from the right. */
  function GroupThousands(digits: string): string
    decreases |digits|
  {
    if |digits| <= 3 then digits
    else GroupThousands(digits[..|digits| - 3]) + "." + digits[|digits| - 3..]
  }

  /** The text with every '.' taken out. */
  function RemoveDots(s: string): (r: string)
    ensures '.' !in r
    decreases |s|
  {
    if |s| == 0 then ""
    else if s[|s| - 1] == '.' then RemoveDots(s[..|s| - 1])
    else RemoveDots(s[..|s| - 1]) + [s[|s| - 1]]
  }

  lemma {:induction false} RemoveDotsAppend(a: string, b: string)
    ensures RemoveDots(a + b) == RemoveDots(a) + RemoveDots(b)
    decreases |b|
  {
    if |b| == 0 {
      assert a + b == a;
    } else {
      var ab := a + b;
      assert ab[..|ab| - 1] == a + b[..|b| - 1];
      assert ab[|ab| - 1] == b[|b| - 1];
      RemoveDotsAppend(a, b[..|b| - 1]);
    }
  }

  lemma {:induction false} RemoveDotsNoDots(s: string)
    requires '.' !in s
    ensures RemoveDots(s) == s
    decreases |s|
  {
    if |s| > 0 {
      RemoveDotsNoDots(s[..|s| - 1]);
      assert s == s[..|s| - 1] + [s[|s| - 1]];
    }
  }

  /** Grouping only inserts separators: removing them gives the digits
      back, and there is one separator for every full group of three
      digits beyond the first digit. */
  lemma {:induction false} GroupThousandsUngroups(digits: string)
    requires '.' !in digits
    ensures RemoveDots(GroupThousands(digits)) == digits
    ensures |digits| > 0 ==> multiset(GroupThousands(digits))['.'] == (|digits| - 1) / 3
    decreases |digits|
  {
    if |digits| <= 3 {
      RemoveDotsNoDots(digits);
      assert multiset(digits)['.'] == 0;
    } else {
      var front := digits[..|digits| - 3];
      var back := digits[|digits| - 3..];
      assert digits == front + back;
      assert '.' !in front && '.' !in back;
      GroupThousandsUngroups(front);
      RemoveDotsAppend(GroupThousands(front) + ".", back);
      RemoveDotsAppend(GroupThousands(front), ".");
      RemoveDotsNoDots(back);
      assert RemoveDots(".") == "";
      assert multiset(back)['.'] == 0;
      assert multiset(GroupThousands(digits))
          == multiset(GroupThousands(front)) + multiset{'.'} + multiset(back);
    }
  }

  /** The grouping of 1234567 is 1.234.567 and that of 1234 is 1.234. */
  lemma GroupThousandsExamples()
    ensures GroupThousands("1234567") == "1.234.567"
    ensures GroupThousands("1234") == "1.234"
  {
    assert "1234567"[..4] == "1234" && "1234567"[4..] == "567";
    assert "1234"[..1] == "1" && "1234"[1..] == "234";
  }

  /** With a host that groups integers as `GroupThousands` does, a number
      with a fraction is shown as its grouped integer part, a decimal comma
      and its fraction digits. */
  lemma FormatDisplayGroups(intPart: string, fraction: string, nf: NumberFormat)
    requires '.' !in intPart && '.' !in fraction && fraction != ""
    requires nf.isNumber(intPart + "." + fraction) && |intPart| <= 9
    requires nf.localeInteger(intPart) == GroupThousands(intPart)
    ensures FormatDisplay(intPart + "." + fraction, nf) == GroupThousands(intPart) + "," + fraction
  {
    FractionCopiedVerbatim(intPart, fraction, nf);
  }

  // ---------------------------------------------------------------------
  // Font size

  /** The four text sizes the display uses, largest last. */
  datatype FontSize = Text3xl | Text4xl | Text5xl | Text6xl

  /** The size step in the name of each class: larger steps are larger text. */
  function Step(f: FontSize): nat {
    match f
    case Text3xl => 3
    case Text4xl => 4
    case Text5xl => 5
    case Text6xl => 6
  }

  /** `getFontSize`: the display text gets smaller as it gets longer, with
      steps after 6, 9 and 12 characters. */
  function FontSizeFor(display: string): (r: FontSize)
    ensures r == Text6xl <==> |display| <= 6
    ensures r == Text5xl <==> 6 < |display| <= 9
    ensures r == Text4xl <==> 9 < |display| <= 12
    ensures r == Text3xl <==> |display| > 12
    ensures 3 <= Step(r) <= 6
  {
    if |display| > 12 then Text3xl
    else if |display| > 9 then Text4xl
    else if |display| > 6 then Text5xl
    else Text6xl
  }

  /** A longer display never gets a larger font. */
  lemma FontSizeNonIncreasing(shorter: string, longer: string)
    requires |shorter| <= |longer|
    ensures Step(FontSizeFor(longer)) <= Step(FontSizeFor(shorter))
  {
  }
}
