/** Decimal printing and parsing of integers, as Go's strconv.Itoa and strconv.Atoi do it.
    Use counts are stored as such strings, and an HTTP Content-Range is written with them. */
module Decimal {
  import opened Wrappers

  predicate IsDigit(c: char) {
    '0' <= c <= '9'
  }

  predicate AllDigits(s: string) {
    forall i | 0 <= i < |s| :: IsDigit(s[i])
  }

  function Digits(n: nat): (s: string)
    ensures |s| > 0 && AllDigits(s)
  {
    if n < 10 then [(48 + n) as char] else Digits(n / 10) + [(48 + n % 10) as char]
  }

  function Itoa(n: int): string {
    if n < 0 then "-" + Digits(-n) else Digits(n)
  }

  function DigitsValue(s: string): nat
    requires AllDigits(s)
  {
    if s == [] then 0 else 10 * DigitsValue(s[..|s| - 1]) + (s[|s| - 1] as int - 48)
  }

  /** An optional sign and at least one digit; anything else is a syntax error. */
  function Atoi(s: string): Option<int> {
    if s != [] && AllDigits(s) then Some(DigitsValue(s))
    else if |s| > 1 && s[0] == '-' && AllDigits(s[1..]) then Some(0 - DigitsValue(s[1..]))
    else if |s| > 1 && s[0] == '+' && AllDigits(s[1..]) then Some(DigitsValue(s[1..]))
    else None
  }

  /** The texts that are numbers: at least one digit, after at most one sign. */
  lemma {:induction false} NumberTexts(s: string)
    ensures Atoi(s).Some? <==>
            exists sign: string, digits: string | sign in ["", "+", "-"] && digits != [] && AllDigits(digits) ::
              s == sign + digits
  {
    if Atoi(s).Some? {
      if AllDigits(s) {
        assert s == "" + s && "" in ["", "+", "-"];
      } else {
        assert s == s[..1] + s[1..] && s[..1] == [s[0]];
        assert s[..1] in ["", "+", "-"];
      }
    }
    if sign: string, digits: string :|
      sign in ["", "+", "-"] && digits != [] && AllDigits(digits) && s == sign + digits
    {
      assert s[|sign|..] == digits;
      assert sign != "" ==> s[0] == sign[0] && !IsDigit(s[0]);
    }
  }

  /** The sign decides that of the number, and each digit counts ten times what the next one does. */
  lemma {:induction false} NumberValues(digits: string, d: char)
    requires AllDigits(digits) && IsDigit(d)
    ensures Atoi([d]) == Some(d as int - '0' as int)
    ensures digits != [] ==>
              var n := Atoi(digits);
              && n.Some? && Atoi(digits + [d]) == Some(10 * n.value + (d as int - '0' as int))
              && Atoi("+" + digits) == n && Atoi("-" + digits) == Some(-n.value)
  {
    assert AllDigits([d]) && [d][..0] == [] && DigitsValue([]) == 0;
    if digits != [] {
      assert (digits + [d])[..|digits|] == digits;
      assert ("+" + digits)[1..] == digits && ("-" + digits)[1..] == digits;
      assert !IsDigit(("+" + digits)[0]) && !IsDigit(("-" + digits)[0]);
    }
  }

  lemma {:induction false} NoLeadingZero(n: nat)
    ensures |Digits(n)| > 1 ==> Digits(n)[0] != '0'
  {
    if n >= 10 {
      NoLeadingZero(n / 10);
    }
  }

  /** A number is written with digits alone, after a minus if it is negative, and with no zero in
      front of another digit. */
  lemma {:induction false} WrittenPlainly(n: int)
    ensures n < 0 ==> Itoa(n) == "-" + Itoa(-n)
    ensures n >= 0 ==> AllDigits(Itoa(n)) && (|Itoa(n)| > 1 ==> Itoa(n)[0] != '0')
  {
    if n >= 0 {
      NoLeadingZero(n);
    }
  }

  lemma {:induction false} DigitsRoundTrip(n: nat)
    ensures DigitsValue(Digits(n)) == n
  {
    if n < 10 {
      assert Digits(n)[..0] == [];
    } else {
      var s := Digits(n);
      assert s[..|s| - 1] == Digits(n / 10);
      DigitsRoundTrip(n / 10);
    }
  }

  lemma {:induction false} AtoiItoa(n: int)
    ensures Atoi(Itoa(n)) == Some(n)
  {
    if n < 0 {
      DigitsRoundTrip(-n);
      assert Itoa(n)[1..] == Digits(-n);
      assert !IsDigit(Itoa(n)[0]);
    } else {
      DigitsRoundTrip(n);
    }
  }

  lemma {:induction false} ItoaInjective(a: int, b: int)
    requires Itoa(a) == Itoa(b)
    ensures a == b
  {
    AtoiItoa(a);
    AtoiItoa(b);
  }

  /** The digits a text starts with. */
  function LeadingDigits(s: string): (d: string)
    ensures AllDigits(d) && d <= s
  {
    if s != [] && IsDigit(s[0]) then [s[0]] + LeadingDigits(s[1..]) else []
  }

  /** A text that starts with digits and then something else starts with just those digits. */
  lemma {:induction false} LeadingDigitsStop(d: string, rest: string)
    requires AllDigits(d) && (rest == [] || !IsDigit(rest[0]))
    ensures LeadingDigits(d + rest) == d
  {
    if d == [] {
      assert d + rest == rest;
    } else {
      LeadingDigitsStop(d[1..], rest);
      assert (d + rest)[1..] == d[1..] + rest;
      assert [d[0]] + d[1..] == d;
    }
  }
}
