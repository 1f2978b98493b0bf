/**
  Python's `int(s)` on a string, as `get_data` applies it to the provider's
  `date` field, together with the decimal rendering it inverts.
 */
module IntParse {
  import opened Wrappers

  predicate IsDigit(c: char) { '0' <= c <= '9' }

  predicate IsDigits(s: string) { forall i :: 0 <= i < |s| ==> IsDigit(s[i]) }

  function DigitValue(c: char): (d: nat)
    requires IsDigit(c)
    ensures d <= 9
  {
    c as int - '0' as int
  }

  function DigitChar(d: nat): (c: char)
    requires d <= 9
    ensures IsDigit(c) && DigitValue(c) == d
  {
    ('0' as int + d) as char
  }

  /** The number a run of decimal digits denotes, most significant digit first. */
  function DigitsValue(s: string): (n: nat)
    requires IsDigits(s)
  {
    if s == [] then 0 else DigitsValue(s[..|s| - 1]) * 10 + DigitValue(s[|s| - 1])
  }

  /**
    `int(s)`: an optional sign followed by at least one decimal digit; anything
    else raises. A run of digits denotes its decimal value.
   */
  function ParseInt(s: string): (r: Option<int>)
  {
    if |s| > 0 && (s[0] == '-' || s[0] == '+') then
      if |s| > 1 && IsDigits(s[1..]) then
        Some(if s[0] == '-' then -(DigitsValue(s[1..]) as int) else DigitsValue(s[1..]))
      else None
    else if |s| > 0 && IsDigits(s) then Some(DigitsValue(s))
    else None
  }

  /** Decimal rendering of a natural number, without leading zeros. */
  function ShowNat(n: nat): (s: string)
    ensures |s| > 0 && IsDigits(s)
  {
    if n < 10 then [DigitChar(n)] else ShowNat(n / 10) + [DigitChar(n % 10)]
  }

  /** Decimal rendering of an integer, as the provider writes a year. */
  function ShowInt(n: int): (s: string)
    ensures |s| > 0
    ensures n < 0 <==> s[0] == '-'
  {
    if n < 0 then "-" + ShowNat(-n) else ShowNat(n)
  }

  lemma {:induction false} DigitsValueShowNat(n: nat)
    ensures DigitsValue(ShowNat(n)) == n
  {
    if n >= 10 {
      var s := ShowNat(n);
      assert s[..|s| - 1] == ShowNat(n / 10);
      DigitsValueShowNat(n / 10);
    }
  }

  /** Every integer's decimal rendering parses back to that integer. */
  lemma ParseShowRoundTrip(n: int)
    ensures ParseInt(ShowInt(n)) == Some(n)
  {
    if n < 0 {
      DigitsValueShowNat(-n);
      assert ("-" + ShowNat(-n))[1..] == ShowNat(-n);
    } else {
      DigitsValueShowNat(n);
    }
  }

  /**
    What `int(s)` accepts: a success is a non-empty string whose characters
    after the first are digits, and whose first character is a digit or a sign
    followed by more; a run of digits gives its decimal value.
   */
  lemma ParseIntAccepts(s: string)
    ensures ParseInt(s).Some? ==> |s| > 0 && forall k :: 0 < k < |s| ==> IsDigit(s[k])
    ensures ParseInt(s).Some? && !IsDigit(s[0]) ==> |s| > 1 && (s[0] == '-' || s[0] == '+')
    ensures |s| > 0 && IsDigits(s) ==> ParseInt(s) == Some(DigitsValue(s) as int)
  {
    if ParseInt(s).Some? && |s| > 0 && (s[0] == '-' || s[0] == '+') {
      assert forall k :: 0 < k < |s| ==> s[k] == s[1..][k - 1];
    }
  }

  /**
    A string holding a character that is neither a digit nor a leading sign
    does not parse.
   */
  lemma ParseIntRejectsNonDigit(s: string, i: nat)
    requires i < |s| && !IsDigit(s[i]) && (i > 0 || (s[0] != '-' && s[0] != '+'))
    ensures ParseInt(s) == None
  {
    ParseIntAccepts(s);
  }

  /** Neither does the empty string or a sign with no digits after it. */
  lemma ParseIntRejectsSignOnly(s: string)
    requires s == "" || s == "-" || s == "+"
    ensures ParseInt(s) == None
  {
  }

  /** A four-digit year parses to the number its digits denote. */
  lemma ParseFourDigits(s: string)
    requires |s| == 4 && IsDigits(s)
    ensures ParseInt(s) ==
      Some(1000 * DigitValue(s[0]) + 100 * DigitValue(s[1]) + 10 * DigitValue(s[2]) + DigitValue(s[3]))
  {
    assert s[..3][..2] == s[..2] && s[..2][..1] == s[..1] && s[..1][..0] == [];
    assert DigitsValue(s[..1]) == DigitValue(s[0]);
    assert DigitsValue(s[..2]) == 10 * DigitValue(s[0]) + DigitValue(s[1]);
    assert DigitsValue(s[..3]) == 100 * DigitValue(s[0]) + 10 * DigitValue(s[1]) + DigitValue(s[2]);
    assert DigitsValue(s) == DigitsValue(s[..3]) * 10 + DigitValue(s[3]);
  }
}
