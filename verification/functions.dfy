/** The number and day helpers of `scr/functions.py` (`functions.py` at the
    repository root holds the same `get_float` and `get_point_deci`). */
module Functions {
  import opened Results
  import opened Text

  /** The error `get_float` raises. */
  datatype ValueError = ValueError(message: string)

  const NotAFloat: string := "Not a float."

  /** The characters `get_float` keeps before parsing: ASCII digits, '.' and '-'. */
  predicate IsNumberChar(c: char) {
    IsDigit(c) || c == '.' || c == '-'
  }

  /** The filter step of `get_float`. */
  function KeepNumberChars(s: string): (r: string)
    ensures |r| <= |s|
    ensures forall i :: 0 <= i < |r| ==> IsNumberChar(r[i])
  {
    if |s| == 0 then ""
    else (if IsNumberChar(s[0]) then [s[0]] else "") + KeepNumberChars(s[1..])
  }

  /** The filter keeps every occurrence of every number character. */
  lemma {:induction false} KeepNumberCharsCounts(s: string)
    ensures forall c :: IsNumberChar(c) ==> multiset(KeepNumberChars(s))[c] == multiset(s)[c]
  {
    if |s| > 0 {
      KeepNumberCharsCounts(s[1..]);
      assert s == [s[0]] + s[1..];
    }
  }

  /** The filter keeps the original order: it works piecewise on a concatenation. */
  lemma {:induction false} KeepNumberCharsAppend(a: string, b: string)
    ensures KeepNumberChars(a + b) == KeepNumberChars(a) + KeepNumberChars(b)
  {
    if |a| > 0 {
      KeepNumberCharsAppend(a[1..], b);
      assert (a + b)[1..] == a[1..] + b;
      assert (a + b)[0] == a[0];
    } else {
      assert a + b == b;
    }
  }

  /** Text made only of number characters passes the filter unchanged. */
  lemma {:induction false} KeepNumberCharsIdentity(s: string)
    requires forall i :: 0 <= i < |s| ==> IsNumberChar(s[i])
    ensures KeepNumberChars(s) == s
  {
    if |s| > 0 {
      KeepNumberCharsIdentity(s[1..]);
      assert s == [s[0]] + s[1..];
    }
  }

  /** Text without any number character filters to the empty string. */
  lemma {:induction false} KeepNumberCharsNone(s: string)
    requires forall i :: 0 <= i < |s| ==> !IsNumberChar(s[i])
    ensures KeepNumberChars(s) == ""
  {
    if |s| > 0 {
      KeepNumberCharsNone(s[1..]);
    }
  }

  /** The text after an optional leading minus sign. */
  function Unsigned(s: string): string {
    if |s| > 0 && s[0] == '-' then s[1..] else s
  }

  /** An unsigned literal `d+(.d*)?|.d+`: digits with at most one point, and
      not the point alone. */
  predicate IsUnsignedLiteral(u: string) {
    && |u| > 0
    && (forall i :: 0 <= i < |u| ==> IsDigit(u[i]) || u[i] == '.')
    && multiset(u)['.'] <= 1
    && u != "."
  }

  /** What Python's `float()` accepts among strings of number characters:
      `-?(d+(.d*)?|.d+)`. */
  predicate IsDecimalLiteral(s: string) {
    IsUnsignedLiteral(Unsigned(s))
  }

  /** The value of the digits after a decimal point: "56" is 0.56. */
  function FractionValue(f: string): (v: real)
    requires AllDigits(f)
    ensures 0.0 <= v < 1.0
  {
    if |f| == 0 then 0.0 else (DigitValue(f[0]) as real + FractionValue(f[1..])) / 10.0
  }

  /** Index of the first `c` in `s`, or `|s|` when there is none. */
  function FirstIndex(s: string, c: char): (k: nat)
    ensures k <= |s|
    ensures c !in s[..k]
    ensures k < |s| ==> s[k] == c
  {
    if |s| == 0 then 0
    else if s[0] == c then 0
    else
      var k := FirstIndex(s[1..], c);
      assert s[..k + 1] == [s[0]] + s[1..][..k];
      k + 1
  }

  /** The value of an unsigned literal, split at its first point. */
  function ParseUnsigned(u: string): (r: Option<real>)
    ensures r.Some? ==> |u| > 0 && 0.0 <= r.value
  {
    var k := FirstIndex(u, '.');
    if k == |u| then
      if |u| > 0 && AllDigits(u) then Some(DigitsValue(u) as real) else None
    else
      var ip, fp := u[..k], u[k + 1..];
      if |u| > 1 && AllDigits(ip) && AllDigits(fp) then
        Some(DigitsValue(ip) as real + FractionValue(fp))
      else None
  }

  /** Digits only means no point at all. */
  lemma DigitsHaveNoPoint(s: string)
    requires AllDigits(s)
    ensures '.' !in s && multiset(s)['.'] == 0
  {
  }

  /** The first occurrence is unique: an index before which `c` does not occur
      and at which it does is `FirstIndex`. */
  lemma {:induction false} FirstIndexIs(s: string, c: char, k: nat)
    requires k <= |s| && c !in s[..k]
    requires k < |s| ==> s[k] == c
    ensures FirstIndex(s, c) == k
  {
    if |s| > 0 && k > 0 {
      assert s[0] in s[..k];
      assert s[1..][..k - 1] == s[..k][1..];
      FirstIndexIs(s[1..], c, k - 1);
    }
  }

  /** Without a point, a literal is a non-empty run of digits. */
  lemma UnsignedWithoutPoint(u: string)
    requires '.' !in u
    ensures IsUnsignedLiteral(u) <==> |u| > 0 && AllDigits(u)
  {
  }

  /** With a first point between `ip` and `fp`, a literal has digits on both
      sides and at least one of them. */
  lemma UnsignedWithPoint(ip: string, fp: string)
    requires '.' !in ip
    ensures IsUnsignedLiteral(ip + "." + fp) <==> |ip| + |fp| > 0 && AllDigits(ip) && AllDigits(fp)
  {
    var u := ip + "." + fp;
    assert multiset(u)['.'] == multiset(ip)['.'] + 1 + multiset(fp)['.'];
    if IsUnsignedLiteral(u) {
      forall i | 0 <= i < |ip| ensures IsDigit(ip[i]) {
        assert ip[i] == u[i];
      }
      forall i | 0 <= i < |fp| ensures IsDigit(fp[i]) {
        assert fp[i] == u[|ip| + 1 + i];
      }
    }
    if |ip| + |fp| > 0 && AllDigits(ip) && AllDigits(fp) {
      DigitsHaveNoPoint(fp);
      forall i | 0 <= i < |u| ensures IsDigit(u[i]) || u[i] == '.' {
        if i < |ip| { assert u[i] == ip[i]; }
        else if i > |ip| { assert u[i] == fp[i - |ip| - 1]; }
      }
    }
  }

  /** `ParseUnsigned` succeeds exactly on unsigned literals. */
  lemma ParseUnsignedAccepts(u: string)
    ensures ParseUnsigned(u).Some? <==> IsUnsignedLiteral(u)
  {
    var k := FirstIndex(u, '.');
    if k == |u| {
      assert u[..k] == u;
      UnsignedWithoutPoint(u);
    } else {
      assert u == u[..k] + "." + u[k + 1..];
      UnsignedWithPoint(u[..k], u[k + 1..]);
    }
  }

  /** Python's `float()` on a string of number characters: a `real`, or `None`
      when it raises. */
  function ParseDecimal(s: string): (r: Option<real>)
    ensures r.Some? ==> |s| > 0 && (r.value < 0.0 ==> s[0] == '-')
  {
    if |s| > 0 && s[0] == '-' then
      match ParseUnsigned(s[1..])
      case Some(v) => Some(-v)
      case None => None
    else ParseUnsigned(s)
  }

  /** Without a leading minus sign `float()` reads an unsigned literal. */
  lemma ParseDecimalUnsigned(s: string)
    requires |s| == 0 || s[0] != '-'
    ensures ParseDecimal(s) == ParseUnsigned(s)
  {
  }

  /** `float()` succeeds exactly on decimal literals. */
  lemma ParseDecimalAccepts(s: string)
    ensures ParseDecimal(s).Some? <==> IsDecimalLiteral(s)
  {
    ParseUnsignedAccepts(Unsigned(s));
  }

  /** `get_float`: filter, then parse; a string that is not a literal after
      filtering raises "Not a float.". */
  function GetFloat(text: string): Result<real, ValueError> {
    match ParseDecimal(KeepNumberChars(text))
    case Some(v) => Ok(v)
    case None => Err(ValueError(NotAFloat))
  }

  /** `get_float` succeeds exactly when the filtered text is a decimal literal,
      yields that literal's value, and otherwise raises "Not a float.". */
  lemma GetFloatAccepts(text: string)
    ensures GetFloat(text).Ok? <==> IsDecimalLiteral(KeepNumberChars(text))
    ensures GetFloat(text).Err? ==> GetFloat(text).error == ValueError(NotAFloat)
    ensures GetFloat(text).Ok? ==> Some(GetFloat(text).value) == ParseDecimal(KeepNumberChars(text))
  {
    ParseDecimalAccepts(KeepNumberChars(text));
  }

  /** A string that already is a plain decimal literal is parsed as it stands:
      filtering changes nothing. */
  lemma GetFloatOfLiteral(s: string)
    requires IsDecimalLiteral(s)
    ensures KeepNumberChars(s) == s
    ensures GetFloat(s).Ok? && Some(GetFloat(s).value) == ParseDecimal(s)
  {
    var u := Unsigned(s);
    forall i | 0 <= i < |s| ensures IsNumberChar(s[i]) {
      if |s| > 0 && s[0] == '-' && i > 0 { assert s[i] == u[i - 1]; }
    }
    KeepNumberCharsIdentity(s);
    ParseDecimalAccepts(s);
  }

  /** Parsing a string that needs no filtering. */
  lemma GetFloatUnfiltered(u: string, x: real)
    requires forall i :: 0 <= i < |u| ==> IsNumberChar(u[i])
    requires ParseDecimal(u) == Some(x)
    ensures GetFloat(u) == Ok(x)
  {
    KeepNumberCharsIdentity(u);
  }

  /** `digits "." digits` splits at its point. */
  lemma ParseUnsignedDigitsPoint(d: string, f: string)
    requires |d| > 0 && AllDigits(d) && AllDigits(f)
    ensures ParseUnsigned(d + "." + f) == Some(DigitsValue(d) as real + FractionValue(f))
  {
    var u := d + "." + f;
    DigitsHaveNoPoint(d);
    assert u[..|d|] == d;
    FirstIndexIs(u, '.', |d|);
    assert u[|d| + 1..] == f;
    assert |u| > 1 && FirstIndex(u, '.') == |d| < |u|;
  }

  /** `digits "." digits` is made of number characters only. */
  lemma DigitsPointChars(d: string, f: string)
    requires AllDigits(d) && AllDigits(f)
    ensures forall i :: 0 <= i < |d + "." + f| ==> IsNumberChar((d + "." + f)[i])
  {
    var u := d + "." + f;
    forall i | 0 <= i < |u| ensures IsNumberChar(u[i]) {
      if i < |d| { assert u[i] == d[i]; }
      else if i > |d| { assert u[i] == f[i - |d| - 1]; }
    }
  }

  /** `get_float` of `digits "." digits` is the whole part plus the fraction. */
  lemma GetFloatOfDigitsPoint(d: string, f: string)
    requires |d| > 0 && AllDigits(d) && AllDigits(f)
    ensures GetFloat(d + "." + f) == Ok(DigitsValue(d) as real + FractionValue(f))
  {
    var u := d + "." + f;
    ParseUnsignedDigitsPoint(d, f);
    assert ParseUnsigned(u) == Some(DigitsValue(d) as real + FractionValue(f));
    assert u[0] == d[0] && IsDigit(d[0]);
    ParseDecimalUnsigned(u);
    DigitsPointChars(d, f);
    KeepNumberCharsIdentity(u);
  }

  /** `GetFloatOfDigitsPoint` for a string already known to have that shape
      and a value already computed. */
  lemma GetFloatOfParts(s: string, d: string, f: string, x: real)
    requires s == d + "." + f
    requires |d| > 0 && AllDigits(d) && AllDigits(f)
    requires DigitsValue(d) as real + FractionValue(f) == x
    ensures GetFloat(s) == Ok(x)
  {
    GetFloatOfDigitsPoint(d, f);
    assert GetFloat(d + "." + f) == Ok(x);
  }

  /** `get_float` of a run of digits is its integer value. */
  lemma GetFloatOfDigits(d: string)
    requires |d| > 0 && AllDigits(d)
    ensures GetFloat(d) == Ok(DigitsValue(d) as real)
  {
    assert forall i :: 0 <= i < |d| ==> IsNumberChar(d[i]);
    KeepNumberCharsIdentity(d);
    DigitsHaveNoPoint(d);
    FirstIndexIs(d, '.', |d|);
  }

  /** A minus sign in front negates the value. */
  lemma GetFloatOfNegative(u: string)
    requires |u| > 0 && u[0] != '-'
    requires forall i :: 0 <= i < |u| ==> IsNumberChar(u[i])
    ensures GetFloat("-" + u).Ok? == GetFloat(u).Ok?
    ensures GetFloat(u).Ok? ==> GetFloat("-" + u).value == -GetFloat(u).value
  {
    var s := "-" + u;
    assert forall i :: 0 <= i < |s| ==> IsNumberChar(s[i]);
    KeepNumberCharsIdentity(s);
    KeepNumberCharsIdentity(u);
    assert s[1..] == u;
  }

  /** Round trip: `get_float` reads back the integer `str(n)` writes. */
  lemma IntRoundTrip(n: int)
    ensures GetFloat(IntToString(n)) == Ok(n as real)
  {
    if n < 0 {
      NatToStringValue(-n);
      GetFloatOfDigits(NatToString(-n));
      GetFloatOfNegative(NatToString(-n));
    } else {
      NatToStringValue(n);
      GetFloatOfDigits(NatToString(n));
    }
  }

  /** Round trip: `get_float` reads back a fixed-point rendering `whole.fraction`. */
  lemma FixedPointRoundTrip(whole: nat, fraction: string)
    requires AllDigits(fraction)
    ensures GetFloat(NatToString(whole) + "." + fraction) == Ok(whole as real + FractionValue(fraction))
  {
    var d := NatToString(whole);
    NatToStringValue(whole);
    GetFloatOfParts(d + "." + fraction, d, fraction, whole as real + FractionValue(fraction));
  }

  /** Text without any number character is rejected (for example "n/a"). */
  lemma GetFloatRejectsNoDigits(text: string)
    requires forall i :: 0 <= i < |text| ==> !IsNumberChar(text[i])
    ensures GetFloat(text) == Err(ValueError(NotAFloat))
  {
    KeepNumberCharsNone(text);
  }

  /** A string of number characters that is no literal raises. */
  lemma GetFloatRejectsUnfiltered(u: string)
    requires forall i :: 0 <= i < |u| ==> IsNumberChar(u[i])
    requires !IsDecimalLiteral(u)
    ensures GetFloat(u) == Err(ValueError(NotAFloat))
  {
    KeepNumberCharsIdentity(u);
    ParseDecimalAccepts(u);
  }

  /** "n/a" holds no number character: it raises. */
  lemma GetFloatRejectsNotAvailable()
    ensures GetFloat("n/a") == Err(ValueError(NotAFloat))
  {
    var s := "n/a";
    assert forall i :: 0 <= i < |s| ==> !IsNumberChar(s[i]);
    GetFloatRejectsNoDigits(s);
  }

  /** A second decimal point makes any run of digits and points raise. */
  lemma GetFloatRejectsSecondPoint(d: string, e: string, f: string)
    requires AllDigits(d) && AllDigits(e) && AllDigits(f)
    ensures GetFloat(d + "." + e + "." + f) == Err(ValueError(NotAFloat))
  {
    var tail := e + "." + f;
    var u := d + "." + tail;
    assert u == d + "." + e + "." + f;
    forall i | 0 <= i < |u| ensures IsNumberChar(u[i]) {
      if i < |d| {
        assert u[i] == d[i];
      } else if |d| < i < |d| + 1 + |e| {
        assert u[i] == e[i - |d| - 1];
      } else if i > |d| + 1 + |e| {
        assert u[i] == f[i - |d| - |e| - 2];
      }
    }
    DigitsHaveNoPoint(d);
    UnsignedWithPoint(d, tail);
    assert tail[|e|] == '.';
    assert u[0] != '-';
    GetFloatRejectsUnfiltered(u);
  }

  /** "1.2.3" has two points: it raises. */
  lemma GetFloatRejectsTwoPoints()
    ensures GetFloat("1.2.3") == Err(ValueError(NotAFloat))
  {
    assert "1.2.3" == "1" + "." + "2" + "." + "3";
    assert AllDigits("1") && AllDigits("2") && AllDigits("3");
    GetFloatRejectsSecondPoint("1", "2", "3");
  }

  /** "1-2" has a minus sign inside: it raises. */
  lemma GetFloatRejectsInnerMinus()
    ensures GetFloat("1-2") == Err(ValueError(NotAFloat))
  {
    var b := "1-2";
    assert Unsigned(b) == b;
    assert !IsDigit(b[1]) && b[1] != '.';
    GetFloatRejectsUnfiltered(b);
  }

  /** `get_point_deci`: with `changeComma`, every '.' is removed and then every
      ',' becomes '.'; without it the text is returned unchanged. */
  function PointDeci(text: string, changeComma: bool): (r: string)
    ensures !changeComma ==> r == text
    ensures changeComma ==> ',' !in r
  {
    if changeComma then
      var noPoints := RemoveChar(text, '.');
      ReplaceCharCounts(noPoints, ',', '.');
      ReplaceChar(noPoints, ',', '.')
    else text
  }

  /** German conversion keeps the count of every other character, turns each
      ',' into one '.', and drops the original points. */
  lemma PointDeciCounts(text: string)
    ensures multiset(PointDeci(text, true))['.'] == multiset(text)[',']
    ensures forall c :: c != '.' && c != ',' ==> multiset(PointDeci(text, true))[c] == multiset(text)[c]
    ensures |PointDeci(text, true)| == |text| - multiset(text)['.']
  {
    var noPoints := RemoveChar(text, '.');
    RemoveCharCounts(text, '.');
    ReplaceCharCounts(noPoints, ',', '.');
    assert multiset(noPoints)['.'] == 0;
  }

  /** The point-removal step on `whole "," fraction` touches only `whole`. */
  lemma RemovePointsGerman(whole: string, fraction: string)
    requires AllDigits(fraction)
    ensures RemoveChar(whole + "," + fraction, '.') == RemoveChar(whole, '.') + "," + fraction
  {
    assert whole + "," + fraction == whole + ("," + fraction);
    RemoveCharAppend(whole, "," + fraction, '.');
    RemoveCharAppend(",", fraction, '.');
    DigitsHaveNoPoint(fraction);
    RemoveCharAbsent(fraction, '.');
    assert RemoveChar(",", '.') == ",";
  }

  /** The comma step on `d "," f` with comma-free digit runs. */
  lemma ReplaceCommaGerman(d: string, f: string)
    requires AllDigits(d) && AllDigits(f)
    ensures ReplaceChar(d + "," + f, ',', '.') == d + "." + f
  {
    var s := d + "," + f;
    var r := ReplaceChar(s, ',', '.');
    forall i | 0 <= i < |r| ensures r[i] == (d + "." + f)[i] {
      if i < |d| {
        assert s[i] == d[i];
        assert IsDigit(d[i]);
      } else if i > |d| {
        assert s[i] == f[i - |d| - 1];
        assert IsDigit(f[i - |d| - 1]);
      }
    }
  }

  /** German conversion of `whole "," fraction` with a digits-only fraction:
      the points of the whole part go, the comma becomes the point. */
  lemma PointDeciGermanShape(whole: string, fraction: string)
    requires AllDigits(RemoveChar(whole, '.'))
    requires AllDigits(fraction)
    ensures PointDeci(whole + "," + fraction, true) == RemoveChar(whole, '.') + "." + fraction
  {
    RemovePointsGerman(whole, fraction);
    ReplaceCommaGerman(RemoveChar(whole, '.'), fraction);
  }

  /** German format: thousands points anywhere in the whole part are dropped and
      the decimal comma is read as the decimal point. */
  lemma GermanNumberValue(whole: string, fraction: string)
    requires AllDigits(RemoveChar(whole, '.')) && |RemoveChar(whole, '.')| > 0
    requires AllDigits(fraction)
    ensures GetFloat(PointDeci(whole + "," + fraction, true))
            == Ok(DigitsValue(RemoveChar(whole, '.')) as real + FractionValue(fraction))
  {
    var d := RemoveChar(whole, '.');
    PointDeciGermanShape(whole, fraction);
    GetFloatOfDigitsPoint(d, fraction);
    var english := d + "." + fraction;
    assert PointDeci(whole + "," + fraction, true) == english;
    assert GetFloat(english) == Ok(DigitsValue(d) as real + FractionValue(fraction));
  }

  // Worked examples: the number 1234.56 written the German way, "1.234,56",
  // and the English way, "1234.56", reads the same. The first three lemmas
  // are the concrete steps the two examples share.

  lemma DigitsValueExample()
    ensures DigitsValue("1234") == 1234
  {
    assert "1234"[..3] == "123";
    assert "123"[..2] == "12";
    assert "12"[..1] == "1";
  }

  lemma FractionValueExample()
    ensures FractionValue("56") == 0.56
  {
    assert "56"[1..] == "6";
    assert "6"[1..] == "";
  }

  lemma RemovePointsExample()
    ensures RemoveChar("1.234", '.') == "1234"
  {
    assert "1.234"[1..] == ".234";
    assert ".234"[1..] == "234";
    assert '.' !in "234";
    RemoveCharAbsent("234", '.');
  }

  /** The German example: "1.234,56" reads as 1234.56. */
  lemma GermanExample()
    ensures GetFloat(PointDeci("1.234,56", true)) == Ok(1234.56)
  {
    assert "1.234" + "," + "56" == "1.234,56";
    RemovePointsExample();
    assert AllDigits("1234") && AllDigits("56");
    GermanNumberValue("1.234", "56");
    DigitsValueExample();
    FractionValueExample();
  }

  /** The English example: "1234.56" without conversion also reads as 1234.56. */
  lemma EnglishExample()
    ensures GetFloat(PointDeci("1234.56", false)) == Ok(1234.56)
  {
    assert "1234.56" == "1234" + "." + "56";
    assert AllDigits("1234") && AllDigits("56");
    DigitsValueExample();
    FractionValueExample();
    GetFloatOfParts("1234.56", "1234", "56", 1234.56);
  }

  /** The day to use: the given one, or today when none is given. */
  function DayOrToday(day: Option<int>, today: int): int {
    if day.Some? then day.value else today
  }

  /** Local midnight, in epoch seconds, grows strictly from day to day. */
  ghost predicate StrictlyIncreasing(midnight: int -> int) {
    forall a, b :: a < b ==> midnight(a) < midnight(b)
  }

  /** `get_start_end_time`: the whole previous calendar day, from its first
      second `midnight(d - 1)` to the last second before `midnight(d)`. */
  function StartEndTime(day: Option<int>, today: int, midnight: int -> int): (w: (int, int))
    ensures w.0 == midnight(DayOrToday(day, today) - 1)
    ensures w.1 + 1 == midnight(DayOrToday(day, today))
  {
    var d := DayOrToday(day, today);
    (midnight(d - 1), midnight(d) - 1)
  }

  /** With midnights that grow, a window never ends before it starts. */
  lemma StartEndTimeOrdered(day: Option<int>, today: int, midnight: int -> int)
    requires StrictlyIncreasing(midnight)
    ensures StartEndTime(day, today, midnight).0 <= StartEndTime(day, today, midnight).1
  {
    var d := DayOrToday(day, today);
    assert midnight(d - 1) < midnight(d);
  }

  /** The windows of different days never overlap, and those of consecutive
      days touch: together they tile the time line. */
  lemma {:induction false} WindowsTile(d1: int, d2: int, today: int, midnight: int -> int)
    requires StrictlyIncreasing(midnight)
    requires d1 < d2
    ensures StartEndTime(Some(d1), today, midnight).1 < StartEndTime(Some(d2), today, midnight).0
    ensures d2 == d1 + 1 ==> StartEndTime(Some(d1), today, midnight).1 + 1 == StartEndTime(Some(d2), today, midnight).0
  {
    if d1 < d2 - 1 {
      assert midnight(d1) < midnight(d2 - 1);
    }
  }
}
