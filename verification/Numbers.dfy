/** Decimal text: what snprintf prints and what strtol/strtoull accept when the whole string must be consumed. */
module Numbers {
  import opened Text

  const UINT32_MAX: int := 0xFFFF_FFFF
  const UINT64_MAX: int := 0xFFFF_FFFF_FFFF_FFFF
  const INT_MAX: int := 0x7FFF_FFFF
  const LONG_MIN: int := -0x8000_0000_0000_0000
  const LONG_MAX: int := 0x7FFF_FFFF_FFFF_FFFF

  predicate IsDigit(c: char) { '0' <= c <= '9' }

  predicate AllDigits(s: string) { forall c :: c in s ==> IsDigit(c) }

  function DigitChar(d: nat): (c: char)
    requires d < 10
    ensures IsDigit(c) && c as int - '0' as int == d
  {
    '0' + d as char
  }

  function DigitsValue(s: string): nat
    requires AllDigits(s)
  {
    if s == [] then 0
    else
      var last := s[|s| - 1];
      assert last in s;
      10 * DigitsValue(s[..|s| - 1]) + (last as int - '0' as int)
  }

  /** "%u", "%llu", and "%d" for a non-negative value. Reading the digits back gives the number,
      and no superfluous leading zero is printed. */
  function PrintNat(n: nat): (s: string)
    ensures s != [] && AllDigits(s) && DigitsValue(s) == n
    ensures |s| > 1 ==> s[0] != '0'
    ensures s[0] == '0' ==> n == 0
  {
    if n < 10 then [DigitChar(n)]
    else
      var front := PrintNat(n / 10);
      var s := front + [DigitChar(n % 10)];
      assert s[..|s| - 1] == front;
      s
  }

  function PrintInt(n: int): string
  {
    if n < 0 then ['-'] + PrintNat(-n) else PrintNat(n)
  }

  function Pow10(k: nat): (p: nat)
    ensures p > 0
  {
    if k == 0 then 1 else 10 * Pow10(k - 1)
  }

  lemma {:induction false} PrintNatLength(n: nat, k: nat)
    requires k > 0 && n < Pow10(k)
    ensures |PrintNat(n)| <= k
  {
    if n >= 10 {
      assert k > 1 by {
        assert Pow10(1) == 10 * Pow10(0) == 10;
      }
      PrintNatLength(n / 10, k - 1);
    }
  }

  /** A 32-bit number prints as at most ten digits. */
  lemma {:induction false} PrintUint32Length(n: nat)
    requires n <= UINT32_MAX
    ensures |PrintNat(n)| <= 10
  {
    assert Pow10(4) == 10000;
    assert Pow10(8) == 10 * Pow10(7) == 100 * Pow10(6) == 1000 * Pow10(5) == 10000 * Pow10(4);
    assert Pow10(10) == 10 * Pow10(9) == 100 * Pow10(8);
    PrintNatLength(n, 10);
  }

  /** Digits without a superfluous leading zero are exactly what PrintNat prints. */
  lemma {:induction false} PrintNatCanonical(s: string)
    requires s != [] && AllDigits(s) && (|s| > 1 ==> s[0] != '0')
    ensures PrintNat(DigitsValue(s)) == s
  {
    if |s| == 1 {
      assert s[..0] == [];
      assert s[0] in s;
      assert s == [s[0]];
    } else {
      var front, last := s[..|s| - 1], s[|s| - 1];
      assert last in s;
      forall c | c in front ensures IsDigit(c) { assert c in s; }
      PrintNatCanonical(front);
      assert front[0] == s[0];
      var d := last as int - '0' as int;
      LeadingDigit(front);
      assert DigitsValue(s) == 10 * DigitsValue(front) + d;
      assert DigitsValue(s) / 10 == DigitsValue(front) && DigitsValue(s) % 10 == d;
      assert s == front + [last];
    }
  }

  lemma {:induction false} LeadingDigit(s: string)
    requires s != [] && AllDigits(s) && s[0] != '0'
    ensures DigitsValue(s) > 0
  {
    assert s[0] in s;
    if |s| > 1 {
      var front := s[..|s| - 1];
      forall c | c in front ensures IsDigit(c) { assert c in s; }
      LeadingDigit(front);
      assert s[|s| - 1] in s;
    }
  }

  predicate IsSpace(c: char)
  {
    c == ' ' || c == '\t' || c == '\n' || c == '\U{000B}' || c == '\U{000C}' || c == '\r'
  }

  function SkipSpace(s: string): string
  {
    if s != [] && IsSpace(s[0]) then SkipSpace(s[1..]) else s
  }

  datatype Scan = NotNumber | Scan(negative: bool, magnitude: nat)

  /** The common part of strtol and strtoull: white space, an optional sign, digits, then the end of the string. */
  function ScanInteger(s: string): Scan
  {
    var t := SkipSpace(s);
    var signed := t != [] && (t[0] == '-' || t[0] == '+');
    var digits := if signed then t[1..] else t;
    if digits == [] || !AllDigits(digits) then NotNumber
    else Scan(signed && t[0] == '-', DigitsValue(digits))
  }

  /** td_parse_long: errno and the caller's range decide; `end` must be the end of the text. */
  function ParseLong(s: string, minimum: int, maximum: int): Option<int>
  {
    match ScanInteger(s)
    case NotNumber => None
    case Scan(negative, magnitude) =>
      var v := if negative then 0 - magnitude as int else magnitude as int;
      if LONG_MIN <= v <= LONG_MAX && minimum <= v <= maximum then Some(v) else None
  }

  /** strtoull with base 10: a minus sign negates modulo 2^64, and only a too large magnitude sets errno. */
  function ParseUint64(s: string): (r: Option<nat>)
    ensures r.Some? ==> r.value <= UINT64_MAX
  {
    match ScanInteger(s)
    case NotNumber => None
    case Scan(negative, magnitude) =>
      if magnitude > UINT64_MAX then None
      else if negative && magnitude > 0 then Some(UINT64_MAX + 1 - magnitude)
      else Some(magnitude)
  }

  lemma {:induction false} ScanPrinted(n: nat)
    ensures ScanInteger(PrintNat(n)) == Scan(false, n)
  {
    var s := PrintNat(n);
    assert s[0] in s;
  }

  lemma {:induction false} ParseLongPrinted(n: int, minimum: int, maximum: int)
    requires LONG_MIN <= minimum && maximum <= LONG_MAX
    ensures ParseLong(PrintInt(n), minimum, maximum) == if minimum <= n <= maximum then Some(n) else None
  {
    if n >= 0 {
      ScanPrinted(n);
    } else {
      var s := PrintInt(n);
      assert s[1..] == PrintNat(-n);
      assert ScanInteger(s) == Scan(true, -n);
    }
  }

  lemma {:induction false} ParseUint64Printed(n: nat)
    requires n <= UINT64_MAX
    ensures ParseUint64(PrintNat(n)) == Some(n)
  {
    ScanPrinted(n);
  }

  /** Every character of an accepted number is white space, a sign or a digit. */
  lemma {:induction false} ScanChars(s: string, c: char)
    requires ScanInteger(s) != NotNumber && c in s
    ensures IsSpace(c) || c == '+' || c == '-' || IsDigit(c)
  {
    if IsSpace(s[0]) {
      assert SkipSpace(s) == SkipSpace(s[1..]);
      if c != s[0] {
        assert s == [s[0]] + s[1..];
        assert c in s[1..];
        assert ScanInteger(s[1..]) == ScanInteger(s);
        ScanChars(s[1..], c);
      }
    } else {
      assert s == [s[0]] + s[1..];
    }
  }
}
