/** strconv.Atoi and strconv.Itoa for Go's 64-bit `int`. */
module Numbers {
  import opened Outcomes

  const MinInt: int := -0x8000_0000_0000_0000
  const MaxInt: int := 0x7FFF_FFFF_FFFF_FFFF

  /** The range of Go's `int` on a 64-bit platform. */
  predicate IsInt(n: int)
  {
    MinInt <= n <= MaxInt
  }

  predicate IsDigit(c: char)
  {
    '0' <= c <= '9'
  }

  predicate AllDigits(s: string)
  {
    forall i :: 0 <= i < |s| ==> IsDigit(s[i])
  }

  function DigitChar(d: nat): (c: char)
    requires d < 10
    ensures IsDigit(c)
  {
    ('0' as int + d) as char
  }

  /** The value of a string of decimal digits. */
  function DigitsValue(s: string): nat
    requires AllDigits(s)
  {
    if |s| == 0 then 0
    else 10 * DigitsValue(s[..|s| - 1]) + (s[|s| - 1] as int - '0' as int)
  }

  /** The shortest decimal spelling of a natural number. */
  function NatDigits(n: nat): (s: string)
    ensures |s| >= 1 && AllDigits(s)
  {
    if n < 10 then [DigitChar(n)] else NatDigits(n / 10) + [DigitChar(n % 10)]
  }

  /** strconv.Itoa */
  function Itoa(n: int): (s: string)
    ensures |s| >= 1
    ensures forall i :: 0 <= i < |s| ==> IsDigit(s[i]) || (i == 0 && s[i] == '-' && n < 0)
  {
    if n < 0 then "-" + NatDigits(-n) else NatDigits(n)
  }

  /** strconv.Atoi: an optional sign followed by at least one decimal digit,
      whose value fits Go's `int`; None stands for the returned error. */
  function Atoi(s: string): (r: Option<int>)
    ensures r.Some? ==> IsInt(r.value)
    ensures r.Some? ==> |s| >= 1 && (IsDigit(s[0]) || s[0] == '-' || s[0] == '+')
  {
    var signed := |s| > 0 && (s[0] == '-' || s[0] == '+');
    var digits := if signed then s[1..] else s;
    if |digits| == 0 || !AllDigits(digits) then None
    else
      var v: int := if signed && s[0] == '-' then -(DigitsValue(digits) as int) else DigitsValue(digits);
      if IsInt(v) then Some(v) else None
  }

  lemma {:induction false} DigitsValueOfNatDigits(n: nat)
    ensures DigitsValue(NatDigits(n)) == n
  {
    if n >= 10 {
      DigitsValueOfNatDigits(n / 10);
      var s := NatDigits(n);
      assert s[..|s| - 1] == NatDigits(n / 10);
    }
  }

  /** Atoi reads back what Itoa writes, for every Go `int`. */
  lemma AtoiItoa(n: int)
    requires IsInt(n)
    ensures Atoi(Itoa(n)) == Some(n)
  {
    if n < 0 {
      DigitsValueOfNatDigits(-n);
      assert Itoa(n)[1..] == NatDigits(-n);
    } else {
      DigitsValueOfNatDigits(n);
    }
  }

  /** Atoi rejects a string with a non-digit past its first character. */
  lemma AtoiRejectsNonDigit(s: string, k: int)
    requires 0 < k < |s| && !IsDigit(s[k])
    ensures Atoi(s).None?
  {
    var signed := |s| > 0 && (s[0] == '-' || s[0] == '+');
    var digits := if signed then s[1..] else s;
    if signed {
      assert digits[k - 1] == s[k];
    } else {
      assert digits[k] == s[k];
    }
  }
}
