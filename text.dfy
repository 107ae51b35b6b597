/**
 * The string facts the core leans on: Java's decimal rendering and parsing of
 * a `long` (keys such as "lock:order:" + userId, lock tokens, zset members
 * that are ids), hutool's notion of a blank string, and the byte order Redis
 * uses to break ties between zset members.
 */
module Text {
  import opened Common

  const LONG_MIN: int := -0x8000_0000_0000_0000
  const LONG_MAX: int := 0x7FFF_FFFF_FFFF_FFFF

  /** The values a Java `long` can hold. */
  predicate IsLong(n: int) { LONG_MIN <= n <= LONG_MAX }

  predicate IsDigit(c: char) { '0' <= c <= '9' }

  predicate AllDigits(s: string) { forall i :: 0 <= i < |s| ==> IsDigit(s[i]) }

  function DigitChar(d: nat): (c: char)
    requires d < 10
    ensures IsDigit(c)
  {
    ('0' as int + d) as char
  }

  function DigitValue(c: char): (d: nat)
    requires IsDigit(c)
    ensures d < 10 && DigitChar(d) == c
  {
    c as int - '0' as int
  }

  /** The decimal digits of `n`, most significant first, without leading zeros. */
  function NatToString(n: nat): (s: string)
    ensures |s| >= 1 && AllDigits(s)
    ensures (|s| == 1) == (n < 10)
    decreases n
  {
    if n < 10 then [DigitChar(n)] else NatToString(n / 10) + [DigitChar(n % 10)]
  }

  /** String.valueOf(long): a leading '-' for negative numbers, then the digits. */
  function LongToString(n: int): (s: string)
    ensures |s| >= 1
    ensures n >= 0 ==> AllDigits(s)
    ensures n < 0 ==> s[0] == '-' && AllDigits(s[1..])
  {
    if n < 0 then "-" + NatToString(-n) else NatToString(n)
  }

  /** The number a non-empty run of decimal digits spells. */
  function DigitsValue(s: string): nat
    requires AllDigits(s)
  {
    if |s| == 0 then 0 else DigitsValue(s[..|s| - 1]) * 10 + DigitValue(s[|s| - 1])
  }

  /**
   * Long.valueOf(String): an optional sign, one or more decimal digits, and a
   * value that fits in a `long`; anything else is a NumberFormatException,
   * modelled as None.
   */
  function ParseLong(s: string): (r: Option<int>)
    ensures r.Some? ==> IsLong(r.value)
    ensures r.Some? ==> |s| >= 1
  {
    var signed := |s| > 0 && (s[0] == '-' || s[0] == '+');
    var digits := if signed then s[1..] else s;
    if |digits| == 0 || !AllDigits(digits) then None
    else
      var v: int := if signed && s[0] == '-' then 0 - (DigitsValue(digits) as int) else DigitsValue(digits);
      if IsLong(v) then Some(v) else None
  }

  lemma {:induction false} DigitsOfNat(n: nat)
    ensures DigitsValue(NatToString(n)) == n
    decreases n
  {
    var s := NatToString(n);
    if n >= 10 {
      DigitsOfNat(n / 10);
      assert s[..|s| - 1] == NatToString(n / 10);
    }
  }

  /** Long.valueOf(String.valueOf(n)) == n for every long n. */
  lemma ParseLongRoundTrip(n: int)
    requires IsLong(n)
    ensures ParseLong(LongToString(n)) == Some(n)
  {
    var s := LongToString(n);
    if n < 0 {
      DigitsOfNat(-n);
      assert s[1..] == NatToString(-n);
    } else {
      DigitsOfNat(n);
    }
  }

  /** Distinct longs render as distinct strings. */
  lemma LongToStringInjective(a: int, b: int)
    requires IsLong(a) && IsLong(b)
    ensures LongToString(a) == LongToString(b) <==> a == b
  {
    if LongToString(a) == LongToString(b) {
      ParseLongRoundTrip(a);
      ParseLongRoundTrip(b);
    }
  }

  /**
   * hutool's CharUtil.isBlankChar: Java whitespace, Unicode space separators,
   * and a few invisible characters (BOM, U+202A, NUL, U+3164, U+2800, U+180E).
   */
  predicate IsBlankChar(c: char)
  {
    c == ' ' || c == '\t' || c == '\n' || c == '\r' || c == '\U{B}' || c == '\U{C}'
    || ('\U{1C}' <= c <= '\U{1F}') || c == '\U{A0}' || c == '\U{1680}'
    || ('\U{2000}' <= c <= '\U{200A}') || c == '\U{2028}' || c == '\U{2029}' || c == '\U{202F}'
    || c == '\U{205F}' || c == '\U{3000}'
    || c == '\U{FEFF}' || c == '\U{202A}' || c == '\U{0}' || c == '\U{3164}' || c == '\U{2800}' || c == '\U{180E}'
  }

  /** CharSequenceUtil.isBlank for a string that is present: empty or blank characters only. */
  predicate IsBlank(s: string)
  {
    forall i :: 0 <= i < |s| ==> IsBlankChar(s[i])
  }

  /** The order Redis gives zset members of equal score: lexicographic on the characters. */
  predicate StrLess(a: string, b: string)
    decreases |a|
  {
    if |a| == 0 then |b| > 0
    else if |b| == 0 then false
    else if a[0] != b[0] then a[0] < b[0]
    else StrLess(a[1..], b[1..])
  }

  lemma {:induction false} StrLessTotal(a: string, b: string)
    ensures a == b || StrLess(a, b) || StrLess(b, a)
    decreases |a|
  {
    if |a| > 0 && |b| > 0 && a[0] == b[0] {
      StrLessTotal(a[1..], b[1..]);
      if a[1..] == b[1..] {
        assert a == [a[0]] + a[1..] && b == [b[0]] + b[1..];
      }
    }
  }

  lemma {:induction false} StrLessIrreflexive(a: string)
    ensures !StrLess(a, a)
    decreases |a|
  {
    if |a| > 0 {
      StrLessIrreflexive(a[1..]);
    }
  }

  lemma {:induction false} StrLessTransitive(a: string, b: string, c: string)
    requires StrLess(a, b) && StrLess(b, c)
    ensures StrLess(a, c)
    decreases |a|
  {
    if |a| > 0 && a[0] == b[0] && b[0] == c[0] {
      StrLessTransitive(a[1..], b[1..], c[1..]);
    }
  }

  /** Long.valueOf on each name, in order; None where one of them throws. */
  function ParseAll(names: seq<string>): (r: Option<seq<int>>)
    ensures r.None? <==> exists i :: 0 <= i < |names| && ParseLong(names[i]).None?
    ensures r.Some? ==> |r.value| == |names| && forall i :: 0 <= i < |names| ==> ParseLong(names[i]) == Some(r.value[i])
  {
    if names == [] then Some([])
    else
      match ParseLong(names[0])
      case None => None
      case Some(n) =>
        match ParseAll(names[1..])
        case None => (assert forall i :: 0 <= i < |names| - 1 ==> names[1..][i] == names[i + 1]; None)
        case Some(rest) => Some([n] + rest)
  }

  /** Names written from ids parse back to those ids. */
  lemma ParseAllRoundTrip(ids: seq<int>)
    requires forall i :: 0 <= i < |ids| ==> IsLong(ids[i])
    ensures ParseAll(seq(|ids|, i requires 0 <= i < |ids| => LongToString(ids[i]))) == Some(ids)
  {
    var names := seq(|ids|, i requires 0 <= i < |ids| => LongToString(ids[i]));
    forall i | 0 <= i < |ids|
      ensures ParseLong(names[i]) == Some(ids[i])
    {
      ParseLongRoundTrip(ids[i]);
    }
    ParseAllUnique(names, ids);
  }

  /** ParseAll is determined by the names' parses. */
  lemma ParseAllUnique(names: seq<string>, ids: seq<int>)
    requires |ids| == |names|
    requires forall i :: 0 <= i < |names| ==> ParseLong(names[i]) == Some(ids[i])
    ensures ParseAll(names) == Some(ids)
  {
    var r := ParseAll(names);
    assert forall i :: 0 <= i < |ids| ==> r.value[i] == ids[i];
    assert r.value == ids;
  }

  /** The Long.valueOf loop over a list of names: their ids in order, or None at the first that does not parse. */
  method ParseEach(names: seq<string>) returns (ids: Option<seq<int>>)
    ensures ids == ParseAll(names)
  {
    var acc: seq<int> := [];
    var i := 0;
    while i < |names|
      invariant 0 <= i <= |names| && |acc| == i
      invariant forall k :: 0 <= k < i ==> ParseLong(names[k]) == Some(acc[k])
    {
      var n := ParseLong(names[i]);
      if n.None? {
        return None;
      }
      acc := acc + [n.value];
      i := i + 1;
    }
    ParseAllUnique(names, acc);
    ids := Some(acc);
  }
}
