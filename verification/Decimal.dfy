/** Decimal printing and parsing of integers, as strconv does it in base 10. */
module Decimal {
  import opened Base

  function DigitChar(d: nat): char
    requires d < 10
  {
    '0' + d as char
  }

  predicate IsDigit(c: char) {
    '0' <= c <= '9'
  }

  function PrintNat(n: nat): (s: string)
    ensures s != [] && forall i :: 0 <= i < |s| ==> IsDigit(s[i])
  {
    if n < 10 then [DigitChar(n)] else PrintNat(n / 10) + [DigitChar(n % 10)]
  }

  function Print(n: int): string {
    if n < 0 then "-" + PrintNat(-n) else PrintNat(n)
  }

  /** The value of a run of digits; None on any other character or on the empty string. */
  function ParseDigits(s: string): Option<nat> {
    if s == "" || !IsDigit(s[|s| - 1]) then None
    else
      var d := (s[|s| - 1] - '0') as int;
      if |s| == 1 then Some(d)
      else
        var rest := ParseDigits(s[..|s| - 1]);
        if rest.None? then None else Some(10 * rest.value + d)
  }

  const MIN_INT64 := -0x8000_0000_0000_0000
  const MAX_INT64 := 0x7fff_ffff_ffff_ffff

  /** strconv.ParseInt(s, 10, 64): an optional sign, digits, and a range check. */
  function ParseInt64(s: string): Option<int> {
    var negative := s != "" && s[0] == '-';
    var digits := if s != "" && (s[0] == '-' || s[0] == '+') then s[1..] else s;
    var magnitude := ParseDigits(digits);
    if magnitude.None? then None
    else
      var m: int := magnitude.value;
      var n := if negative then -m else m;
      if MIN_INT64 <= n <= MAX_INT64 then Some(n) else None
  }

  lemma {:induction false} ParsePrintedNat(n: nat)
    ensures ParseDigits(PrintNat(n)) == Some(n)
  {
    if n >= 10 {
      var s := PrintNat(n);
      assert s[..|s| - 1] == PrintNat(n / 10);
      ParsePrintedNat(n / 10);
    }
  }

  /** Parsing undoes printing for every 64-bit integer. */
  lemma ParsePrinted(n: int)
    requires MIN_INT64 <= n <= MAX_INT64
    ensures ParseInt64(Print(n)) == Some(n)
  {
    var m: nat := if n < 0 then -n else n;
    var digits := PrintNat(m);
    ParsePrintedNat(m);
    assert IsDigit(digits[0]);
    if n < 0 {
      var s := Print(n);
      assert s[0] == '-' && s[1..] == digits;
    }
  }

  /** Different numbers print differently. */
  lemma PrintNatInjective(m: nat, n: nat)
    requires PrintNat(m) == PrintNat(n)
    ensures m == n
  {
    ParsePrintedNat(m);
    ParsePrintedNat(n);
  }

  function Pow10(k: nat): nat {
    if k == 0 then 1 else 10 * Pow10(k - 1)
  }

  /** A number has k digits iff it lies between the k-th power of ten and the one before; none is printed with a leading zero. */
  lemma {:induction false} PrintedLength(n: nat)
    ensures n > 0 ==> Pow10(|PrintNat(n)| - 1) <= n < Pow10(|PrintNat(n)|) && PrintNat(n)[0] != '0'
    ensures n == 0 ==> PrintNat(n) == "0"
  {
    if n >= 10 {
      PrintedLength(n / 10);
      assert |PrintNat(n)| == |PrintNat(n / 10)| + 1;
    } else {
      assert Pow10(1) == 10 * Pow10(0);
    }
  }

  /** Only runs of digits are numbers. */
  lemma {:induction false} ParsesIff(s: string)
    ensures ParseDigits(s).Some? <==> s != "" && forall i :: 0 <= i < |s| ==> IsDigit(s[i])
  {
    if |s| > 1 {
      ParsesIff(s[..|s| - 1]);
    }
  }

  /** A number that does not fit in 64 bits is refused. */
  lemma OutOfRangeIsRefused(n: int)
    requires !(MIN_INT64 <= n <= MAX_INT64)
    ensures ParseInt64(Print(n)).None?
  {
    var m: nat := if n < 0 then -n else n;
    var digits := PrintNat(m);
    ParsePrintedNat(m);
    assert IsDigit(digits[0]);
    if n < 0 {
      var s := Print(n);
      assert s[0] == '-' && s[1..] == digits;
    }
  }
}
