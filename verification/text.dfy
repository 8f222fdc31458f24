/** String helpers that mirror the Python built-ins the scraper relies on:
    `str.strip`, `str.replace`, `str.split`, `str(int)` and `int(str)`. */
module Text {
  import opened Results

  predicate IsDigit(c: char) {
    '0' <= c <= '9'
  }

  predicate AllDigits(s: string) {
    forall i :: 0 <= i < |s| ==> IsDigit(s[i])
  }

  /** The characters Python's `str.isspace` accepts; `str.strip()` removes exactly these. */
  predicate IsSpace(c: char) {
    var n := c as int;
    || n == 0x20
    || (0x09 <= n <= 0x0D)
    || (0x1C <= n <= 0x1F)
    || n == 0x85 || n == 0xA0 || n == 0x1680
    || (0x2000 <= n <= 0x200A)
    || n == 0x2028 || n == 0x2029 || n == 0x202F || n == 0x205F || n == 0x3000
  }

  /** Length of the longest all-whitespace prefix of `s`. */
  function LeadingSpaces(s: string): (k: nat)
    ensures k <= |s|
    ensures forall i :: 0 <= i < k ==> IsSpace(s[i])
    ensures k == |s| || !IsSpace(s[k])
  {
    if |s| == 0 || !IsSpace(s[0]) then 0 else 1 + LeadingSpaces(s[1..])
  }

  /** Start of the longest all-whitespace suffix of `s`. */
  function TrailingStart(s: string): (k: nat)
    ensures k <= |s|
    ensures forall i :: k <= i < |s| ==> IsSpace(s[i])
    ensures k == 0 || !IsSpace(s[k - 1])
  {
    if |s| == 0 || !IsSpace(s[|s| - 1]) then |s| else TrailingStart(s[..|s| - 1])
  }

  /** Python's `str.strip()`: the text between the whitespace borders. */
  function Strip(s: string): (r: string)
    ensures |r| == 0 || (!IsSpace(r[0]) && !IsSpace(r[|r| - 1]))
    ensures |r| == 0 <==> forall i :: 0 <= i < |s| ==> IsSpace(s[i])
    ensures LeadingSpaces(s) + |r| <= |s| && r == s[LeadingSpaces(s)..LeadingSpaces(s) + |r|]
    ensures forall i :: LeadingSpaces(s) + |r| <= i < |s| ==> IsSpace(s[i])
  {
    var a := LeadingSpaces(s);
    if a == |s| then "" else s[a..TrailingStart(s)]
  }

  /** A string without whitespace at either end is its own `strip()`. */
  lemma StripKeepsTrimmed(s: string)
    requires |s| == 0 || (!IsSpace(s[0]) && !IsSpace(s[|s| - 1]))
    ensures Strip(s) == s
  {
    if |s| > 0 {
      assert LeadingSpaces(s) == 0;
      assert TrailingStart(s) == |s|;
    }
  }

  /** `strip()` is idempotent. */
  lemma StripIdempotent(s: string)
    ensures Strip(Strip(s)) == Strip(s)
  {
    StripKeepsTrimmed(Strip(s));
  }

  /** Python's `s.replace(old, "")` for a one-character `old`. */
  function RemoveChar(s: string, c: char): (r: string)
    ensures |r| <= |s|
    ensures c !in r
  {
    if |s| == 0 then ""
    else if s[0] == c then RemoveChar(s[1..], c) else [s[0]] + RemoveChar(s[1..], c)
  }

  /** Removing `c` drops exactly the occurrences of `c`. */
  lemma {:induction false} RemoveCharCounts(s: string, c: char)
    ensures |RemoveChar(s, c)| == |s| - multiset(s)[c]
    ensures forall d :: d != c ==> multiset(RemoveChar(s, c))[d] == multiset(s)[d]
  {
    if |s| > 0 {
      RemoveCharCounts(s[1..], c);
      assert s == [s[0]] + s[1..];
      if s[0] != c {
        assert RemoveChar(s, c) == [s[0]] + RemoveChar(s[1..], c);
      }
    }
  }

  /** Removal works piecewise on a concatenation. */
  lemma {:induction false} RemoveCharAppend(a: string, b: string, c: char)
    ensures RemoveChar(a + b, c) == RemoveChar(a, c) + RemoveChar(b, c)
  {
    if |a| > 0 {
      RemoveCharAppend(a[1..], b, c);
      assert (a + b)[1..] == a[1..] + b;
      assert (a + b)[0] == a[0];
    } else {
      assert a + b == b;
    }
  }

  /** Removing a character that does not occur changes nothing. */
  lemma {:induction false} RemoveCharAbsent(s: string, c: char)
    requires c !in s
    ensures RemoveChar(s, c) == s
  {
    if |s| > 0 {
      RemoveCharAbsent(s[1..], c);
      assert s == [s[0]] + s[1..];
    }
  }

  /** Python's `s.replace(a, b)` for one-character `a` and `b`. */
  function ReplaceChar(s: string, a: char, b: char): (r: string)
    ensures |r| == |s|
    ensures forall i :: 0 <= i < |s| ==> r[i] == (if s[i] == a then b else s[i])
    ensures a != b ==> a !in r
  {
    if |s| == 0 then ""
    else [if s[0] == a then b else s[0]] + ReplaceChar(s[1..], a, b)
  }

  /** Replacing `a` by a different `b` adds the count of `a` to that of `b`. */
  lemma {:induction false} ReplaceCharCountTarget(s: string, a: char, b: char)
    requires a != b
    ensures multiset(ReplaceChar(s, a, b))[b] == multiset(s)[a] + multiset(s)[b]
  {
    if |s| == 0 {
      assert ReplaceChar(s, a, b) == [];
    } else {
      var t := s[1..];
      ReplaceCharCountTarget(t, a, b);
      var head := if s[0] == a then b else s[0];
      assert s == [s[0]] + t;
      assert ReplaceChar(s, a, b) == [head] + ReplaceChar(t, a, b);
      CountCons(head, ReplaceChar(t, a, b), b);
      CountCons(s[0], t, a);
      CountCons(s[0], t, b);
    }
  }

  /** Replacing `a` by `b` leaves the count of every third character alone. */
  lemma {:induction false} ReplaceCharCountOther(s: string, a: char, b: char, d: char)
    requires d != a && d != b
    ensures multiset(ReplaceChar(s, a, b))[d] == multiset(s)[d]
  {
    if |s| == 0 {
      assert ReplaceChar(s, a, b) == [];
    } else {
      var t := s[1..];
      ReplaceCharCountOther(t, a, b, d);
      var head := if s[0] == a then b else s[0];
      assert s == [s[0]] + t;
      assert ReplaceChar(s, a, b) == [head] + ReplaceChar(t, a, b);
      assert (head == d) == (s[0] == d);
      CountCons(head, ReplaceChar(t, a, b), d);
      CountCons(s[0], t, d);
    }
  }

  /** Counting in a sequence with one more element in front. */
  lemma CountCons<T>(x: T, t: seq<T>, d: T)
    ensures multiset([x] + t)[d] == (if x == d then 1 else 0) + multiset(t)[d]
  {
    assert multiset([x] + t) == multiset{x} + multiset(t);
  }

  /** Replacing `a` by a different `b` moves every `a` into the count of `b`
      and leaves every other character's count alone. */
  lemma ReplaceCharCounts(s: string, a: char, b: char)
    requires a != b
    ensures multiset(ReplaceChar(s, a, b))[b] == multiset(s)[a] + multiset(s)[b]
    ensures forall d :: d != a && d != b ==> multiset(ReplaceChar(s, a, b))[d] == multiset(s)[d]
  {
    ReplaceCharCountTarget(s, a, b);
    forall d | d != a && d != b
      ensures multiset(ReplaceChar(s, a, b))[d] == multiset(s)[d]
    {
      ReplaceCharCountOther(s, a, b, d);
    }
  }

  /** `pat` occurs in `s` starting at index `i`. */
  predicate OccursAt(s: string, pat: string, i: int) {
    0 <= i && i + |pat| <= |s| && s[i..i + |pat|] == pat
  }

  predicate Occurs(s: string, pat: string) {
    exists i | 0 <= i <= |s| :: OccursAt(s, pat, i)
  }

  /** Python's `s.replace(pat, rep)`: every non-overlapping occurrence of `pat`,
      scanned from the left, is replaced by `rep`. */
  function ReplaceAll(s: string, pat: string, rep: string): (r: string)
    requires |pat| > 0
    decreases |s|
  {
    if |s| < |pat| then s
    else if s[..|pat|] == pat then rep + ReplaceAll(s[|pat|..], pat, rep)
    else [s[0]] + ReplaceAll(s[1..], pat, rep)
  }

  /** A string without the pattern comes out of `replace` unchanged. */
  lemma {:induction false} ReplaceAllAbsent(s: string, pat: string, rep: string)
    requires |pat| > 0
    requires !Occurs(s, pat)
    ensures ReplaceAll(s, pat, rep) == s
  {
    if |s| >= |pat| {
      assert !OccursAt(s, pat, 0);
      assert s[..|pat|] != pat;
      forall i | OccursAt(s[1..], pat, i)
        ensures false
      {
        assert s[1..][i..i + |pat|] == s[i + 1..i + 1 + |pat|];
        assert OccursAt(s, pat, i + 1);
      }
      ReplaceAllAbsent(s[1..], pat, rep);
      assert s == [s[0]] + s[1..];
    }
  }

  /** A leading occurrence is replaced and scanning resumes after it. */
  lemma ReplaceAllLeading(pat: string, rest: string, rep: string)
    requires |pat| > 0
    ensures ReplaceAll(pat + rest, pat, rep) == rep + ReplaceAll(rest, pat, rep)
  {
    var s := pat + rest;
    assert s[..|pat|] == pat;
    assert s[|pat|..] == rest;
  }

  /** No occurrence of `pat` in `s` starts before index `n`. */
  predicate NoMatchBefore(s: string, pat: string, n: int) {
    forall i | 0 <= i < n :: !OccursAt(s, pat, i)
  }

  /** A prefix at which no occurrence starts passes through `replace`
      unchanged, and the scan goes on after it. */
  lemma {:induction false} ReplaceAllKeepsPrefix(a: string, t: string, pat: string, rep: string)
    requires |pat| > 0 && NoMatchBefore(a + t, pat, |a|)
    ensures ReplaceAll(a + t, pat, rep) == a + ReplaceAll(t, pat, rep)
  {
    var s := a + t;
    if |a| == 0 {
      assert s == t;
    } else if |s| < |pat| {
      assert ReplaceAll(t, pat, rep) == t;
    } else {
      assert !OccursAt(s, pat, 0);
      assert s[1..] == a[1..] + t;
      forall i | 0 <= i < |a| - 1
        ensures !OccursAt(a[1..] + t, pat, i)
      {
        assert !OccursAt(s, pat, i + 1);
        if i + |pat| <= |s| - 1 {
          assert (a[1..] + t)[i..i + |pat|] == s[i + 1..i + 1 + |pat|];
        }
      }
      ReplaceAllKeepsPrefix(a[1..], t, pat, rep);
      assert a == [a[0]] + a[1..];
    }
  }

  /** A single occurrence, with none starting before it and none after it,
      is the only one replaced. */
  lemma ReplaceAllSingle(a: string, c: string, pat: string, rep: string)
    requires |pat| > 0 && NoMatchBefore(a + pat + c, pat, |a|) && !Occurs(c, pat)
    ensures ReplaceAll(a + pat + c, pat, rep) == a + rep + c
  {
    var t := pat + c;
    var s := a + pat + c;
    assert s == a + t;
    assert NoMatchBefore(a + t, pat, |a|);
    ReplaceAllKeepsPrefix(a, t, pat, rep);
    ReplaceAllLeading(pat, c, rep);
    ReplaceAllAbsent(c, pat, rep);
    assert ReplaceAll(s, pat, rep) == a + (rep + c);
  }

  /** A pattern whose first character does not recur in it cannot overlap
      itself: placed after a text that does not contain it, no occurrence
      starts inside that text. */
  lemma PlaceholderAlone(a: string, pat: string, t: string)
    requires |pat| > 0 && pat[0] !in pat[1..] && !Occurs(a, pat)
    ensures NoMatchBefore(a + pat + t, pat, |a|)
  {
    var s := a + pat + t;
    forall i | 0 <= i < |a|
      ensures !OccursAt(s, pat, i)
    {
      if i + |pat| <= |a| {
        assert a[i..i + |pat|] == s[i..i + |pat|];
        assert !OccursAt(a, pat, i);
      } else {
        var k := |a| - i;
        assert s[|a|] == pat[0];
        assert pat[k] != pat[0] by {
          assert pat[1..][k - 1] == pat[k];
        }
        if i + |pat| <= |s| {
          assert s[i..i + |pat|][k] == s[|a|];
        }
      }
    }
  }

  /** A middle part sharing no character with the pattern keeps the
      pattern from occurring across it. */
  lemma NoOccurrenceAcross(x: string, m: string, y: string, pat: string)
    requires |pat| > 0 && !Occurs(x, pat) && !Occurs(y, pat)
    requires |m| > 0 && forall k | 0 <= k < |m| :: m[k] !in pat
    ensures !Occurs(x + m + y, pat)
  {
    var s := x + m + y;
    forall i | 0 <= i <= |s|
      ensures !OccursAt(s, pat, i)
    {
      if i + |pat| > |s| {
      } else if i + |pat| <= |x| {
        assert x[i..i + |pat|] == s[i..i + |pat|];
        assert !OccursAt(x, pat, i);
      } else if i >= |x| + |m| {
        var j := i - |x| - |m|;
        assert y[j..j + |pat|] == s[i..i + |pat|];
        assert !OccursAt(y, pat, j);
      } else {
        var j := if i < |x| then |x| else i;
        assert s[j] == m[j - |x|] && s[j] !in pat;
        assert s[i..i + |pat|][j - i] == s[j];
      }
    }
  }

  /** Python's `s.split(sep)` for a one-character separator. */
  function Split(s: string, sep: char): (r: seq<string>)
    ensures |r| == multiset(s)[sep] + 1
    ensures forall k :: 0 <= k < |r| ==> sep !in r[k]
  {
    if |s| == 0 then [""]
    else
      assert s == [s[0]] + s[1..];
      var rest := Split(s[1..], sep);
      if s[0] == sep then [""] + rest else [[s[0]] + rest[0]] + rest[1..]
  }

  /** `sep.join(parts)`. */
  function Join(parts: seq<string>, sep: char): string
    requires |parts| > 0
  {
    if |parts| == 1 then parts[0] else parts[0] + [sep] + Join(parts[1..], sep)
  }

  /** Prefixing a character to the first field prefixes it to the joined text. */
  lemma JoinConsFirst(c: char, parts: seq<string>, sep: char)
    requires |parts| > 0
    ensures Join([[c] + parts[0]] + parts[1..], sep) == [c] + Join(parts, sep)
  {
    var r := [[c] + parts[0]] + parts[1..];
    if |parts| > 1 {
      assert r[1..] == parts[1..];
    }
  }

  /** A text without the separator is a single field. */
  lemma {:induction false} SplitNoSeparator(s: string, sep: char)
    requires sep !in s
    ensures Split(s, sep) == [s]
  {
    if |s| > 0 {
      SplitNoSeparator(s[1..], sep);
      assert s == [s[0]] + s[1..];
    }
  }

  /** The first separator ends the first field; the rest is split on its own. */
  lemma {:induction false} SplitAtFirst(a: string, b: string, sep: char)
    requires sep !in a
    ensures Split(a + [sep] + b, sep) == [a] + Split(b, sep)
  {
    var s := a + [sep] + b;
    if |a| == 0 {
      assert s == [sep] + b;
      assert s[1..] == b;
    } else {
      assert s[1..] == a[1..] + [sep] + b;
      SplitAtFirst(a[1..], b, sep);
      var rest := Split(s[1..], sep);
      assert rest[0] == a[1..] && rest[1..] == Split(b, sep);
      assert s[0] == a[0] && s[0] != sep;
      assert Split(s, sep) == [[s[0]] + rest[0]] + rest[1..];
      assert [s[0]] + rest[0] == a;
    }
  }

  /** Splitting loses nothing: joining the fields back gives the input. */
  lemma {:induction false} SplitJoin(s: string, sep: char)
    ensures Join(Split(s, sep), sep) == s
  {
    if |s| > 0 {
      SplitJoin(s[1..], sep);
      var rest := Split(s[1..], sep);
      if s[0] != sep {
        JoinConsFirst(s[0], rest, sep);
      } else {
        assert ([""] + rest)[1..] == rest;
      }
      assert s == [s[0]] + s[1..];
    }
  }

  function DigitValue(c: char): nat
    requires IsDigit(c)
  {
    (c as int - '0' as int) as nat
  }

  function DigitChar(d: nat): (c: char)
    requires d < 10
    ensures IsDigit(c) && DigitValue(c) == d
  {
    ('0' as int + d) as char
  }

  /** The value of a run of decimal digits, most significant first. */
  function DigitsValue(s: string): nat
    requires AllDigits(s)
  {
    if |s| == 0 then 0 else DigitsValue(s[..|s| - 1]) * 10 + DigitValue(s[|s| - 1])
  }

  /** Python's `str(n)` for a natural number. */
  function NatToString(n: nat): (r: string)
    ensures |r| > 0 && AllDigits(r)
  {
    if n < 10 then [DigitChar(n)] else NatToString(n / 10) + [DigitChar(n % 10)]
  }

  /** Python's `str(n)` for any integer. */
  function IntToString(n: int): (r: string)
    ensures |r| > 0 && (r[0] == '-' <==> n < 0)
  {
    if n < 0 then "-" + NatToString(-n) else NatToString(n)
  }

  /** `str(n)` writes only digits and, for a negative number, a leading minus. */
  lemma IntToStringChars(n: int)
    ensures forall k :: 0 <= k < |IntToString(n)| ==> IsDigit(IntToString(n)[k]) || IntToString(n)[k] == '-'
  {
    var d := NatToString(if n < 0 then -n else n);
    if n < 0 {
      assert IntToString(n) == "-" + d;
      assert forall k :: 1 <= k < |IntToString(n)| ==> IntToString(n)[k] == d[k - 1];
    }
  }

  /** Reading back the digits `str(n)` writes gives `n`. */
  lemma {:induction false} NatToStringValue(n: nat)
    ensures DigitsValue(NatToString(n)) == n
  {
    if n >= 10 {
      NatToStringValue(n / 10);
      var s := NatToString(n);
      assert s[..|s| - 1] == NatToString(n / 10);
    }
  }

  /** Python's `int(s)` on text: surrounding whitespace, an optional sign and at
      least one digit; anything else raises, which is `None` here. */
  function ParseInt(s: string): Option<int> {
    var t := Strip(s);
    if |t| > 0 && (t[0] == '-' || t[0] == '+') then
      var u := t[1..];
      if |u| > 0 && AllDigits(u) then
        Some(if t[0] == '-' then -(DigitsValue(u) as int) else DigitsValue(u))
      else None
    else if |t| > 0 && AllDigits(t) then
      Some(DigitsValue(t))
    else None
  }

  /** `int()` accepts a text only if its stripped form holds a digit. */
  lemma ParseIntNeedsDigit(s: string)
    ensures ParseInt(s).Some? ==> exists k :: 0 <= k < |Strip(s)| && IsDigit(Strip(s)[k])
  {
    var t := Strip(s);
    if ParseInt(s).Some? {
      if t[0] == '-' || t[0] == '+' {
        assert t[1..][0] == t[1] && IsDigit(t[1]);
      } else {
        assert IsDigit(t[0]);
      }
    }
  }

  /** `int` of a run of digits is its value. */
  lemma ParseIntOfDigits(t: string, v: nat)
    requires |t| > 0 && AllDigits(t) && DigitsValue(t) == v
    ensures ParseInt(t) == Some(v)
  {
    assert IsDigit(t[0]) && IsDigit(t[|t| - 1]);
    StripKeepsTrimmed(t);
  }

  /** `int` of a minus sign and a run of digits is the negated value. */
  lemma ParseIntOfNegative(u: string, v: nat)
    requires |u| > 0 && AllDigits(u) && DigitsValue(u) == v
    ensures ParseInt("-" + u) == Some(-(v as int))
  {
    var s := "-" + u;
    assert s[1..] == u;
    assert s[|s| - 1] == u[|u| - 1] && IsDigit(u[|u| - 1]);
    StripKeepsTrimmed(s);
  }

  /** `int(str(n)) == n`. */
  lemma IntToStringParses(n: int)
    ensures ParseInt(IntToString(n)) == Some(n)
  {
    if n < 0 {
      NatToStringValue(-n);
      ParseIntOfNegative(NatToString(-n), -n);
    } else {
      NatToStringValue(n);
      ParseIntOfDigits(NatToString(n), n);
    }
  }
}
