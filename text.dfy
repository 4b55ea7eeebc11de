/**
 * String helpers shared by the services: the part of JavaScript's `parseInt`,
 * `String(n)`, `padStart`, `split('-').join('')`, string comparison and the
 * case-insensitive regular-expression tests that the core relies on.
 * A `char` stands for one Unicode code point; JavaScript strings count UTF-16
 * code units, so lengths differ for characters outside the Basic Multilingual Plane.
 */
module Text {
  import opened Wrappers

  predicate IsDigit(c: char) { '0' <= c <= '9' }
  predicate IsLower(c: char) { 'a' <= c <= 'z' }
  predicate IsUpper(c: char) { 'A' <= c <= 'Z' }
  predicate IsLetter(c: char) { IsLower(c) || IsUpper(c) }
  predicate IsAlphanumeric(c: char) { IsLetter(c) || IsDigit(c) }

  function DigitValue(c: char): (d: nat)
    requires IsDigit(c)
    ensures d < 10
  {
    (c as int) - ('0' as int)
  }

  function DigitChar(d: nat): (c: char)
    requires d < 10
    ensures IsDigit(c) && DigitValue(c) == d
  {
    (('0' as int) + d) as char
  }

  predicate AllDigits(s: string) {
    forall i :: 0 <= i < |s| ==> IsDigit(s[i])
  }

  function Pow10(k: nat): (r: nat)
    ensures r >= 1
  {
    if k == 0 then 1 else 10 * Pow10(k - 1)
  }

  /** The decimal value of a digit string, read from left to right. */
  function DigitsValue(s: string): nat
    requires AllDigits(s)
  {
    if s == [] then 0 else DigitsValue(s[..|s| - 1]) * 10 + DigitValue(s[|s| - 1])
  }

  lemma ShiftDigit(x: int, p: int, y: int, d: int)
    ensures (x * p + y) * 10 + d == x * (10 * p) + (y * 10 + d)
  {
  }

  lemma {:induction false} DigitsValueAppend(a: string, b: string)
    requires AllDigits(a) && AllDigits(b)
    ensures AllDigits(a + b)
    ensures DigitsValue(a + b) == DigitsValue(a) * Pow10(|b|) + DigitsValue(b)
  {
    if b == [] {
      assert a + b == a;
    } else {
      var b' := b[..|b| - 1];
      var d := DigitValue(b[|b| - 1]);
      assert (a + b)[..|a + b| - 1] == a + b';
      assert (a + b)[|a + b| - 1] == b[|b| - 1];
      DigitsValueAppend(a, b');
      var x: int, p: int, y: int := DigitsValue(a), Pow10(|b'|), DigitsValue(b');
      assert Pow10(|b|) == 10 * p;
      assert DigitsValue(b) == y * 10 + d;
      assert DigitsValue(a + b) == (x * p + y) * 10 + d;
      ShiftDigit(x, p, y, d);
    }
  }

  /** Leading zeros do not change the value of a digit string. */
  lemma LeadingZeroValue(s: string)
    requires AllDigits(s)
    ensures AllDigits("0" + s) && DigitsValue("0" + s) == DigitsValue(s)
  {
    DigitsValueAppend("0", s);
    assert DigitsValue("0") == DigitsValue("") * 10 + 0;
  }

  /** `String(n)` for a non-negative integer: decimal digits, no leading zero. */
  function NatToString(n: nat): (s: string)
    ensures 1 <= |s| && AllDigits(s)
    ensures DigitsValue(s) == n
    ensures |s| > 1 ==> s[0] != '0'
  {
    if n < 10 then [DigitChar(n)]
    else
      var t := NatToString(n / 10);
      assert (t + [DigitChar(n % 10)])[..|t|] == t;
      t + [DigitChar(n % 10)]
  }

  lemma LeadingDigitsOfDigits(s: string)
    requires AllDigits(s)
    ensures LeadingDigits(s) == s
  {
  }

  /** The longest prefix of `s` made of decimal digits. */
  function LeadingDigits(s: string): (d: string)
    ensures AllDigits(d) && |d| <= |s| && d == s[..|d|]
    ensures |d| < |s| ==> !IsDigit(s[|d|])
  {
    if s == [] || !IsDigit(s[0]) then [] else [s[0]] + LeadingDigits(s[1..])
  }

  /**
   * The characters `parseInt` skips before the number: the white space
   * (tab, vertical tab, form feed, space, no-break space, byte-order mark and
   * the space separators of Unicode category Zs) and the line terminators.
   */
  predicate IsJsSpace(c: char) {
    var n := c as int;
    (9 <= n <= 13) || n == 32 || n == 0xA0 || n == 0x1680 || (0x2000 <= n <= 0x200A)
    || n == 0x2028 || n == 0x2029 || n == 0x202F || n == 0x205F || n == 0x3000 || n == 0xFEFF
  }

  /** `s` without its leading white space. */
  function TrimStart(s: string): string {
    if s != [] && IsJsSpace(s[0]) then TrimStart(s[1..]) else s
  }

  /** Trimming keeps a suffix of the string, and that suffix starts with no white space. */
  lemma {:induction false} TrimStartSuffix(s: string)
    ensures |TrimStart(s)| <= |s| && TrimStart(s) == s[|s| - |TrimStart(s)|..]
    ensures TrimStart(s) != [] ==> !IsJsSpace(TrimStart(s)[0])
  {
    if s != [] && IsJsSpace(s[0]) {
      TrimStartSuffix(s[1..]);
    }
  }

  /** A string that starts with a digit has no white space to skip. */
  lemma NoSpaceToTrim(s: string)
    requires s != [] && IsDigit(s[0])
    ensures TrimStart(s) == s
  {
    assert !IsJsSpace(s[0]);
  }

  predicate IsHexDigit(c: char) { IsDigit(c) || 'a' <= c <= 'f' || 'A' <= c <= 'F' }

  function HexDigitValue(c: char): (d: nat)
    requires IsHexDigit(c)
    ensures d < 16
    ensures IsDigit(c) ==> d == DigitValue(c)
  {
    if IsDigit(c) then DigitValue(c)
    else if 'a' <= c <= 'f' then (c as int) - ('a' as int) + 10
    else (c as int) - ('A' as int) + 10
  }

  predicate AllHexDigits(s: string) {
    forall i :: 0 <= i < |s| ==> IsHexDigit(s[i])
  }

  /** The hexadecimal value of a digit string, read from left to right. */
  function HexDigitsValue(s: string): nat
    requires AllHexDigits(s)
  {
    if s == [] then 0 else HexDigitsValue(s[..|s| - 1]) * 16 + HexDigitValue(s[|s| - 1])
  }

  /** The longest prefix of `s` made of hexadecimal digits. */
  function LeadingHexDigits(s: string): (d: string)
    ensures AllHexDigits(d) && |d| <= |s| && d == s[..|d|]
    ensures |d| < |s| ==> !IsHexDigit(s[|d|])
  {
    if s == [] || !IsHexDigit(s[0]) then [] else [s[0]] + LeadingHexDigits(s[1..])
  }

  /** After the sign: does the number start with the prefix `0x` or `0X`? */
  predicate HexPrefixed(body: string) {
    |body| >= 2 && body[0] == '0' && (body[1] == 'x' || body[1] == 'X')
  }

  /** The digits after the sign: hexadecimal after `0x`/`0X`, decimal otherwise. */
  function ParseMagnitude(body: string): (r: Option<nat>)
    ensures r.Some? ==> body != [] && IsDigit(body[0])
  {
    if HexPrefixed(body) then
      var digits := LeadingHexDigits(body[2..]);
      if digits == [] then None else Some(HexDigitsValue(digits))
    else
      var digits := LeadingDigits(body);
      if digits == [] then None else Some(DigitsValue(digits))
  }

  /** An optional sign, then the magnitude; only a leading minus makes it negative. */
  function ParseSigned(t: string): (r: Option<int>)
    ensures (t == [] || t[0] != '-') && r.Some? ==> r.value >= 0
  {
    if t != [] && (t[0] == '-' || t[0] == '+') then
      match ParseMagnitude(t[1..])
      case None => None
      case Some(m) =>
        var v: int := m;
        if t[0] == '-' then Some(-v) else Some(v)
    else
      match ParseMagnitude(t)
      case None => None
      case Some(m) => Some(m)
  }

  /**
   * `parseInt(s)` with no radix: leading white space skipped, an optional
   * sign, then either `0x`/`0X` and the longest run of hexadecimal digits,
   * or the longest run of decimal digits. `None` stands for NaN (no digit).
   */
  function ParseInt(s: string): Option<int> {
    ParseSigned(TrimStart(s))
  }

  /** A non-empty decimal digit string parses to its value. */
  lemma ParseIntOfDigits(s: string)
    requires s != [] && AllDigits(s)
    ensures ParseInt(s) == Some(DigitsValue(s))
  {
    NoSpaceToTrim(s);
    assert !HexPrefixed(s);
    assert LeadingDigits(s) == s by { LeadingDigitsOfDigits(s); }
  }

  /** A string without a minus sign never parses to a negative number. */
  lemma ParseIntNoMinus(s: string)
    requires forall i :: 0 <= i < |s| ==> s[i] != '-'
    ensures ParseInt(s).Some? ==> ParseInt(s).value >= 0
  {
    var t := TrimStart(s);
    TrimStartSuffix(s);
    assert t != [] ==> t[0] == s[|s| - |t|];
  }

  /** White space before the number is skipped. */
  lemma ParseIntSkipsSpace(c: char, s: string)
    requires IsJsSpace(c)
    ensures ParseInt([c] + s) == ParseInt(s)
  {
    assert ([c] + s)[1..] == s;
  }

  /** White space before the number is skipped, as in `parseInt(" 7")`. */
  lemma ParseIntSpaceExample()
    ensures ParseInt(" 7") == Some(7)
  {
    assert " 7" == [' '] + "7";
    ParseIntSkipsSpace(' ', "7");
    ParseIntOfDigits("7");
  }

  /** A `0x` prefix reads the digits after it in base 16, as in `parseInt("0x10")`. */
  lemma ParseIntHexExample()
    ensures ParseInt("0x10") == Some(16)
  {
    var s := "0x10";
    NoSpaceToTrim(s);
    assert HexPrefixed(s) && s[2..] == "10";
    assert LeadingHexDigits("10") == "10" by { assert "10"[1..] == "0"; }
    assert HexDigitsValue("10") == 16 by { assert "10"[..1] == "1"; }
  }

  /** A sign comes before the prefix, as in `parseInt("-0X1f")`. */
  lemma ParseIntSignedHexExample()
    ensures ParseInt("-0X1f") == Some(-31)
  {
    var s := "-0X1f";
    assert TrimStart(s) == s by { assert !IsJsSpace(s[0]); }
    assert s[1..] == "0X1f" && HexPrefixed(s[1..]) && s[1..][2..] == "1f";
    assert LeadingHexDigits("1f") == "1f" by { assert "1f"[1..] == "f"; }
    assert HexDigitsValue("1f") == 31 by { assert "1f"[..1] == "1"; }
  }

  /** Reading stops at the first character that is not a digit; no digit at all is NaN. */
  lemma ParseIntPrefixExamples()
    ensures ParseInt("12abc") == Some(12)
    ensures ParseInt("0x") == None
  {
    var s := "12abc";
    NoSpaceToTrim(s);
    assert !HexPrefixed(s);
    assert s[1..] == "2abc" && "2abc"[1..] == "abc";
    assert LeadingDigits(s) == "12";
    assert DigitsValue("12") == 12 by { assert "12"[..1] == "1"; }
    var h := "0x";
    NoSpaceToTrim(h);
    assert HexPrefixed(h) && h[2..] == [];
  }

  lemma ParseIntNatToString(n: nat)
    ensures ParseInt(NatToString(n)) == Some(n)
  {
    ParseIntOfDigits(NatToString(n));
  }

  /** No element occurs twice. */
  predicate NoDup<T(==)>(s: seq<T>) {
    forall i, j :: 0 <= i < j < |s| ==> s[i] != s[j]
  }

  /** `s.split(c).join('')`: every occurrence of `c` removed, the rest kept in order. */
  function RemoveAll(s: string, c: char): (r: string)
    ensures |r| <= |s|
    ensures forall i :: 0 <= i < |r| ==> r[i] != c
    ensures (forall i :: 0 <= i < |s| ==> s[i] != c) ==> r == s
  {
    if s == [] then []
    else if s[0] == c then RemoveAll(s[1..], c)
    else [s[0]] + RemoveAll(s[1..], c)
  }

  /** `s.padStart(2, '0')`. */
  function PadStart2(s: string): (r: string)
    ensures |r| == if |s| >= 2 then |s| else 2
    ensures r[|r| - |s|..] == s
    ensures forall i :: 0 <= i < |r| - |s| ==> r[i] == '0'
  {
    if |s| >= 2 then s else if |s| == 1 then "0" + s else "00"
  }

  lemma PadStart2Value(s: string)
    requires AllDigits(s)
    ensures AllDigits(PadStart2(s)) && DigitsValue(PadStart2(s)) == DigitsValue(s)
  {
    if |s| == 1 {
      LeadingZeroValue(s);
    } else if |s| == 0 {
      LeadingZeroValue("0");
    }
  }

  /** JavaScript's `a <= b` on strings: lexicographic order on code units. */
  predicate LexLeq(a: string, b: string)
    decreases |a|
  {
    a == [] || (b != [] && (a[0] < b[0] || (a[0] == b[0] && LexLeq(a[1..], b[1..]))))
  }

  /** ASCII case folding, which is what an `/i` regular expression does to these patterns. */
  function ToLowerAscii(c: char): char {
    if IsUpper(c) then ((c as int) + 32) as char else c
  }

  predicate MatchesAt(s: string, pattern: string, i: nat) {
    i + |pattern| <= |s| && forall j :: 0 <= j < |pattern| ==> ToLowerAscii(s[i + j]) == pattern[j]
  }

  /** `/pattern/i.test(s)` for a lower-case literal `pattern`. */
  predicate ContainsIgnoreCase(s: string, pattern: string) {
    exists i: nat :: i <= |s| && MatchesAt(s, pattern, i)
  }

  lemma {:induction false} RemoveAllAppend(a: string, b: string, c: char)
    ensures RemoveAll(a + b, c) == RemoveAll(a, c) + RemoveAll(b, c)
  {
    if a == [] {
      assert a + b == b;
    } else {
      assert (a + b)[0] == a[0] && (a + b)[1..] == a[1..] + b;
      RemoveAllAppend(a[1..], b, c);
    }
  }

  /** A number below 100 has at most two digits. */
  lemma NatToStringShort(n: nat)
    requires n < 100
    ensures |NatToString(n)| <= 2
  {
  }

  /** `${year}-${String(month).padStart(2, '0')}-${String(day).padStart(2, '0')}` */
  function FormatDate(year: nat, month: nat, day: nat): string {
    NatToString(year) + "-" + PadStart2(NatToString(month)) + "-" + PadStart2(NatToString(day))
  }

  lemma DashFreeDigits(s: string)
    requires AllDigits(s)
    ensures RemoveAll(s, '-') == s
  {
    assert forall i :: 0 <= i < |s| ==> s[i] != '-';
  }

  lemma FormatDateRemoveDashes(y: string, m: string, d: string)
    requires AllDigits(y) && AllDigits(m) && AllDigits(d)
    ensures RemoveAll(y + "-" + m + "-" + d, '-') == y + (m + d)
  {
    assert y + "-" + m + "-" + d == y + ("-" + (m + ("-" + d)));
    RemoveAllAppend(y, "-" + (m + ("-" + d)), '-');
    RemoveAllAppend("-", m + ("-" + d), '-');
    RemoveAllAppend(m, "-" + d, '-');
    RemoveAllAppend("-", d, '-');
    assert RemoveAll("-", '-') == [];
    DashFreeDigits(y);
    DashFreeDigits(m);
    DashFreeDigits(d);
  }

  /** With the dashes removed, a date reads as the number `year * 10000 + month * 100 + day`. */
  lemma FormatDateDigits(year: nat, month: nat, day: nat)
    requires month < 100 && day < 100
    ensures var digits := RemoveAll(FormatDate(year, month, day), '-');
      digits != [] && AllDigits(digits) && DigitsValue(digits) == year * 10000 + month * 100 + day
  {
    var y, m, d := NatToString(year), PadStart2(NatToString(month)), PadStart2(NatToString(day));
    NatToStringShort(month);
    NatToStringShort(day);
    PadStart2Value(NatToString(month));
    PadStart2Value(NatToString(day));
    FormatDateRemoveDashes(y, m, d);
    DigitsValueAppend(m, d);
    DigitsValueAppend(y, m + d);
    assert Pow10(2) == 100;
    assert Pow10(4) == 10000;
    assert DigitsValue(m + d) == month * 100 + day;
  }

  /** Distinct days of one month format to distinct strings. */
  lemma FormatDateInjective(year: nat, month: nat, d1: nat, d2: nat)
    requires month < 100 && d1 < 100 && d2 < 100
    requires FormatDate(year, month, d1) == FormatDate(year, month, d2)
    ensures d1 == d2
  {
    FormatDateDigits(year, month, d1);
    FormatDateDigits(year, month, d2);
  }
}
