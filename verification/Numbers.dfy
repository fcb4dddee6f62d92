/** Decimal numbers as Go's strconv package writes and reads them. */
module Numbers {
  import opened Common

  const MAX_INT64 := 0x7FFF_FFFF_FFFF_FFFF
  const MIN_INT64 := -0x8000_0000_0000_0000
  const MAX_UINT64 := 0xFFFF_FFFF_FFFF_FFFF

  predicate IsDigit(c: char) { '0' <= c <= '9' }

  function DigitOf(d: nat): (c: char)
    requires d < 10
    ensures IsDigit(c) && ValueOf(c) == d
  {
    (d + '0' as int) as char
  }

  function ValueOf(c: char): nat {
    if IsDigit(c) then c as int - '0' as int else 0
  }

  /** strconv.FormatUint(n, 10) */
  function Digits(n: nat): (s: string)
    ensures s != "" && forall c :: c in s ==> IsDigit(c)
  {
    if n < 10 then [DigitOf(n)] else Digits(n / 10) + [DigitOf(n % 10)]
  }

  /** The number written by a string of digits. */
  function Value(s: string): nat {
    if s == "" then 0 else Value(s[..|s| - 1]) * 10 + ValueOf(s[|s| - 1])
  }

  lemma {:induction false} ValueDigits(n: nat)
    ensures Value(Digits(n)) == n
  {
    if n >= 10 {
      ValueDigits(n / 10);
      assert (Digits(n / 10) + [DigitOf(n % 10)])[..|Digits(n)| - 1] == Digits(n / 10);
    } else {
      assert [DigitOf(n)][..0] == "";
    }
  }

  predicate AllDigits(s: string) { s != "" && forall c :: c in s ==> IsDigit(c) }

  /** strconv.ParseInt(s, 10, 64): None for the error. */
  function ParseInt(s: string): Option<int> {
    if s == "" then None
    else
      var digits := if s[0] == '-' || s[0] == '+' then s[1..] else s;
      if !AllDigits(digits) then None
      else
        var n: int := Value(digits);
        var v := if s[0] == '-' then -n else n;
        if MIN_INT64 <= v <= MAX_INT64 then Some(v) else None
  }

  /** Digits, with a sign in front or without, for a number that is an int64. */
  ghost predicate IsDecimal(s: string, v: int) {
    MIN_INT64 <= v <= MAX_INT64 && exists digits :: AllDigits(digits) && SignedBy(s, digits, v)
  }

  predicate SignedBy(s: string, digits: string, v: int) {
    (v == Value(digits) && (s == digits || s == "+" + digits)) || (v + Value(digits) == 0 && s == "-" + digits)
  }

  /** What ParseInt reads. */
  lemma ParseIntIff(s: string, v: int)
    ensures ParseInt(s) == Some(v) <==> IsDecimal(s, v)
  {
    hide Value;
    if ParseInt(s) == Some(v) {
      var digits := if s[0] == '-' || s[0] == '+' then s[1..] else s;
      assert s[0] == '-' ==> s == "-" + digits;
      assert s[0] == '+' ==> s == "+" + digits;
      assert SignedBy(s, digits, v);
    }
    if MIN_INT64 <= v <= MAX_INT64 {
      if digits :| AllDigits(digits) && SignedBy(s, digits, v) {
        assert digits[0] in digits;
        assert s != digits ==> s[1..] == digits;
      }
    }
  }

  /** strconv.FormatInt(n, 10) */
  function FormatInt(n: int): string {
    if n < 0 then "-" + Digits(-n) else Digits(n)
  }

  lemma ParseFormat(n: int)
    requires MIN_INT64 <= n <= MAX_INT64
    ensures ParseInt(FormatInt(n)) == Some(n)
  {
    hide Digits, Value;
    if n < 0 {
      ValueDigits(-n);
      assert FormatInt(n)[1..] == Digits(-n);
    } else {
      ValueDigits(n);
      assert Digits(n)[0] in Digits(n);
    }
  }
}
