/** The two ways the code reads the hour field of a time text: the route's `Number(field)` and
    the form's `Number.parseInt(field)`. `None` stands for NaN. */
module JsNumbers {
  import opened Options
  import opened Text

  /** `s` without leading whitespace. */
  function TrimStart(s: string): string
  {
    if s != [] && IsJsWhitespace(s[0]) then TrimStart(s[1..]) else s
  }

  /** `s` without trailing whitespace. */
  function TrimEnd(s: string): string
  {
    if s != [] && IsJsWhitespace(s[|s| - 1]) then TrimEnd(s[..|s| - 1]) else s
  }

  /** `TrimStart` drops exactly the leading whitespace: what it keeps is a suffix of `s` that
      does not start with whitespace, and every character it drops is whitespace. */
  lemma {:induction false} TrimStartDrops(s: string)
    ensures |TrimStart(s)| <= |s| && TrimStart(s) == s[|s| - |TrimStart(s)|..]
    ensures TrimStart(s) == [] || !IsJsWhitespace(TrimStart(s)[0])
    ensures forall i | 0 <= i < |s| - |TrimStart(s)| :: IsJsWhitespace(s[i])
  {
    if s != [] && IsJsWhitespace(s[0]) {
      TrimStartDrops(s[1..]);
      forall i | 0 <= i < |s| - |TrimStart(s)| ensures IsJsWhitespace(s[i]) {
        if i > 0 {
          assert s[i] == s[1..][i - 1];
        }
      }
    }
  }

  /** `TrimEnd` drops exactly the trailing whitespace. */
  lemma {:induction false} TrimEndDrops(s: string)
    ensures |TrimEnd(s)| <= |s| && TrimEnd(s) == s[..|TrimEnd(s)|]
    ensures TrimEnd(s) == [] || !IsJsWhitespace(TrimEnd(s)[|TrimEnd(s)| - 1])
    ensures forall i | |TrimEnd(s)| <= i < |s| :: IsJsWhitespace(s[i])
  {
    if s != [] && IsJsWhitespace(s[|s| - 1]) {
      TrimEndDrops(s[..|s| - 1]);
      forall i | |TrimEnd(s)| <= i < |s| ensures IsJsWhitespace(s[i]) {
        if i < |s| - 1 {
          assert s[i] == s[..|s| - 1][i];
        }
      }
    }
  }

  /** `s.trim()`. */
  function Trim(s: string): string {
    TrimEnd(TrimStart(s))
  }

  function Pow10(n: nat): (p: nat)
    ensures p >= 1
  {
    if n == 0 then 1 else 10 * Pow10(n - 1)
  }

  /** An unsigned decimal literal: digits, or digits `.` digits with digits on at least one side. */
  function UnsignedDecimal(body: string): (v: Option<real>)
    ensures v.Some? ==> v.value >= 0.0
  {
    var parts := Split(body, '.');
    if |parts| == 1 && parts[0] != [] && AllDigits(parts[0]) then
      Some(DigitsValue(parts[0]) as real)
    else if |parts| == 2 && AllDigits(parts[0]) && AllDigits(parts[1]) && (parts[0] != [] || parts[1] != []) then
      Some(DigitsValue(parts[0]) as real + DigitsValue(parts[1]) as real / Pow10(|parts[1]|) as real)
    else None
  }

  /** `Number(text)` on decimal notation: surrounding whitespace is ignored, the empty text is 0,
      an optional sign precedes an unsigned decimal literal, anything else is NaN. */
  function JsNumber(text: string): Option<real> {
    var t := Trim(text);
    if t == [] then Some(0.0)
    else if t[0] == '-' then
      match UnsignedDecimal(t[1..])
      case Some(v) => Some(-v)
      case None => None
    else if t[0] == '+' then UnsignedDecimal(t[1..])
    else UnsignedDecimal(t)
  }

  /** `const [hour] = time.split(":").map(Number)`: the number of the text before the first `:`. */
  function HourNumber(time: string): Option<real> {
    JsNumber(Split(time, ':')[0])
  }

  /** The longest prefix of decimal digits. */
  function DigitPrefix(s: string): (d: string)
    ensures |d| <= |s| && d == s[..|d|] && AllDigits(d)
    ensures |d| < |s| ==> !IsDigit(s[|d|])
  {
    if s != [] && IsDigit(s[0]) then
      var rest := DigitPrefix(s[1..]);
      assert [s[0]] + rest == s[..|rest| + 1];
      [s[0]] + rest
    else []
  }

  /** `Number.parseInt(text)` with radix 10: leading whitespace is skipped, an optional sign is
      read, then the longest run of digits; NaN when that run is empty. Trailing text is ignored. */
  function ParseInt(text: string): Option<int> {
    var t := TrimStart(text);
    var negative := t != [] && t[0] == '-';
    var body := if t != [] && (t[0] == '-' || t[0] == '+') then t[1..] else t;
    var digits := DigitPrefix(body);
    if digits == [] then None
    else Some(if negative then -(DigitsValue(digits) as int) else DigitsValue(digits) as int)
  }

  /** A text of digits has no whitespace to trim. */
  lemma TrimDigits(s: string)
    requires AllDigits(s)
    ensures Trim(s) == s
  {
  }

  /** A run of digits reads as its decimal value under `Number`. */
  lemma {:induction false} JsNumberOfDigits(s: string)
    requires s != [] && AllDigits(s)
    ensures JsNumber(s) == Some(DigitsValue(s) as real)
  {
    TrimDigits(s);
    assert '.' !in s;
    SplitWithoutSeparator(s, '.');
  }

  /** Two digits read as their two-digit number under `Number`. */
  lemma JsNumberOfTwoDigits(field: string)
    requires |field| == 2 && IsDigit(field[0]) && IsDigit(field[1])
    ensures JsNumber(field) == Some((10 * DigitValue(field[0]) + DigitValue(field[1])) as real)
  {
    assert field == [field[0], field[1]];
    TwoDigitsValue(field[0], field[1]);
    JsNumberOfDigits(field);
  }

  /** The first field of a time that starts `field:` is `field`. */
  lemma FirstField(time: string, field: string)
    requires ':' !in field && |field| < |time| && time[..|field|] == field && time[|field|] == ':'
    ensures Split(time, ':')[0] == field
  {
    assert time == field + [':'] + time[|field| + 1..];
    SplitAfterField(field, ':', time[|field| + 1..]);
  }

  /** A time whose text before the first `:` is two digits has that two-digit number as hour. */
  lemma HourNumberOfTwoDigits(time: string)
    requires |time| >= 3 && IsDigit(time[0]) && IsDigit(time[1]) && time[2] == ':'
    ensures HourNumber(time) == Some((10 * DigitValue(time[0]) + DigitValue(time[1])) as real)
  {
    var field := time[..2];
    FirstField(time, field);
    JsNumberOfTwoDigits(field);
  }

  /** `Number` reads `17` as 17 and `9` as 9. */
  lemma JsNumberOfHourFields()
    ensures JsNumber("17") == Some(17.0)
    ensures JsNumber("9") == Some(9.0)
  {
    var seventeen := ['1', '7'];
    assert "17" == seventeen;
    TwoDigitsValue('1', '7');
    JsNumberOfDigits(seventeen);
    assert DigitsValue(seventeen) == 17;
    var nine := ['9'];
    assert "9" == nine;
    assert nine[..0] == [];
    JsNumberOfDigits(nine);
    assert DigitsValue(nine) == 9;
  }

  /** One space on each side of a text that neither starts nor ends with whitespace is trimmed. */
  lemma WhitespaceAround(s: string)
    requires s != [] && !IsJsWhitespace(s[0]) && !IsJsWhitespace(s[|s| - 1])
    ensures Trim(" " + s + " ") == s
  {
    assert (" " + s + " ")[1..] == s + " ";
    assert TrimStart(s + " ") == s + " ";
    assert (s + " ")[..|s|] == s;
    assert TrimEnd(s) == s;
    assert TrimEnd(s + " ") == TrimEnd(s);
  }

  /** `Number` ignores surrounding whitespace: ` 9 ` is 9. */
  lemma JsNumberTrims()
    ensures JsNumber(" 9 ") == Some(9.0)
  {
    WhitespaceAround("9");
    assert " " + "9" + " " == " 9 ";
    JsNumberOfHourFields();
  }

  /** `Number` reads the empty field as 0 and `ab` as NaN. */
  lemma JsNumberEmptyAndText()
    ensures JsNumber("") == Some(0.0)
    ensures JsNumber("ab") == None
  {
    assert Trim("ab") == "ab";
    SplitWithoutSeparator("ab", '.');
    assert !IsDigit("ab"[0]);
  }

  /** `parseInt` reads a digit run and stops at the first non-digit. */
  lemma {:induction false} ParseIntOfDigits(s: string, rest: string)
    requires s != [] && AllDigits(s) && (rest == [] || !IsDigit(rest[0]))
    ensures ParseInt(s + rest) == Some(DigitsValue(s) as int)
  {
    DigitPrefixOf(s, rest);
  }

  lemma {:induction false} DigitPrefixOf(s: string, rest: string)
    requires AllDigits(s) && (rest == [] || !IsDigit(rest[0]))
    ensures DigitPrefix(s + rest) == s
  {
    if s != [] {
      assert (s + rest)[1..] == s[1..] + rest;
      DigitPrefixOf(s[1..], rest);
      assert [s[0]] + s[1..] == s;
    } else {
      assert s + rest == rest;
    }
  }

  /** `parseInt` reads two leading digits as their two-digit number. */
  lemma ParseIntTwoDigits(a: char, b: char, rest: string)
    requires IsDigit(a) && IsDigit(b) && (rest == [] || !IsDigit(rest[0]))
    ensures ParseInt([a, b] + rest) == Some(10 * DigitValue(a) + DigitValue(b))
  {
    var field := [a, b];
    TwoDigitsValue(a, b);
    ParseIntOfDigits(field, rest);
    var n := DigitsValue(field);
    assert n == 10 * DigitValue(a) + DigitValue(b);
  }

  /** `parseInt` reads `09` as 9, `17` as 17 and `12abc` as 12. */
  lemma ParseIntOfHourFields()
    ensures ParseInt("09") == Some(9)
    ensures ParseInt("17") == Some(17)
    ensures ParseInt("12abc") == Some(12)
  {
    ParseIntTwoDigits('0', '9', []);
    assert ['0', '9'] + [] == "09";
    ParseIntTwoDigits('1', '7', []);
    assert ['1', '7'] + [] == "17";
    ParseIntTwoDigits('1', '2', "abc");
    assert ['1', '2'] + "abc" == "12abc";
  }

  /** `parseInt` reads `-3` as -3, and `ab` and the empty text as NaN. */
  lemma ParseIntSignAndText()
    ensures ParseInt("-3") == Some(-3)
    ensures ParseInt("ab") == None
    ensures ParseInt("") == None
  {
    assert "-3"[1..] == "3";
    assert DigitPrefix("3") == "3" by {
      assert "3"[1..] == [];
    }
    assert "3"[..0] == [];
    assert !IsDigit("ab"[0]);
  }
}
