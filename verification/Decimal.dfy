/** Decimal rendering of integers, as %d does it. */
module Decimal {

  function Digit(d: nat): char
    requires d < 10
  {
    '0' + d as char
  }

  function Digits(n: nat): string {
    if n < 10 then [Digit(n)] else Digits(n / 10) + [Digit(n % 10)]
  }

  function Itoa(n: int): string {
    if n < 0 then "-" + Digits(-n) else Digits(n)
  }

  lemma {:induction false} DigitsAreDigits(n: nat)
    ensures |Digits(n)| > 0 && forall k :: 0 <= k < |Digits(n)| ==> '0' <= Digits(n)[k] <= '9'
  {
    if n >= 10 {
      DigitsAreDigits(n / 10);
    }
  }

  lemma {:induction false} DigitsInjective(m: nat, n: nat)
    requires Digits(m) == Digits(n)
    ensures m == n
  {
    DigitsAreDigits(m / 10);
    DigitsAreDigits(n / 10);
    var last := |Digits(m)| - 1;
    assert Digits(m)[last] == Digits(n)[last];
    if m >= 10 && n >= 10 {
      assert Digits(m)[..last] == Digits(m / 10) && Digits(n)[..last] == Digits(n / 10);
      DigitsInjective(m / 10, n / 10);
    }
  }

  predicate IsDigit(c: char) {
    '0' <= c <= '9'
  }

  /** The digits a text begins with. */
  function LeadingDigits(s: string): (ds: string)
    ensures ds <= s
  {
    if s == [] || !IsDigit(s[0]) then [] else [s[0]] + LeadingDigits(s[1..])
  }

  function AfterDigits(s: string): string {
    s[|LeadingDigits(s)|..]
  }

  /** What digits say, most significant first. */
  function Number(s: string): nat {
    if s == [] || !IsDigit(s[|s| - 1]) then 0 else Number(s[..|s| - 1]) * 10 + (s[|s| - 1] - '0') as nat
  }

  lemma {:induction false} NumberReadsBack(n: nat)
    ensures Number(Digits(n)) == n
  {
    if n >= 10 {
      NumberReadsBack(n / 10);
      assert Digits(n)[..|Digits(n)| - 1] == Digits(n / 10);
    } else {
      assert Digits(n)[..0] == [];
    }
  }

  lemma {:induction false} LeadingDigitsEnd(ds: string, rest: string)
    requires forall k :: 0 <= k < |ds| ==> IsDigit(ds[k])
    requires rest == [] || !IsDigit(rest[0])
    ensures LeadingDigits(ds + rest) == ds && AfterDigits(ds + rest) == rest
  {
    if ds == [] {
      assert ds + rest == rest;
    } else {
      LeadingDigitsEnd(ds[1..], rest);
      assert (ds + rest)[1..] == ds[1..] + rest;
    }
  }

  /** A number printed before something that is no digit reads back, and so does what follows. */
  lemma PrintedNumberReadsBack(n: nat, rest: string)
    requires rest == [] || !IsDigit(rest[0])
    ensures Number(LeadingDigits(Itoa(n) + rest)) == n && AfterDigits(Itoa(n) + rest) == rest
  {
    DigitsAreDigits(n);
    NumberReadsBack(n);
    LeadingDigitsEnd(Digits(n), rest);
  }

  lemma ItoaStarts(n: int)
    ensures |Itoa(n)| > 0 && (n < 0 <==> Itoa(n)[0] == '-')
    ensures ':' !in Itoa(n)
  {
    if n < 0 {
      DigitsAreDigits(-n);
    } else {
      DigitsAreDigits(n);
    }
  }

  /** Distinct integers never print alike, and no printed integer contains a colon. */
  lemma ItoaInjective(m: int, n: int)
    ensures Itoa(m) == Itoa(n) ==> m == n
    ensures ':' !in Itoa(m)
  {
    ItoaStarts(m);
    ItoaStarts(n);
    if Itoa(m) == Itoa(n) {
      if m < 0 {
        assert Digits(-m) == Itoa(m)[1..] && Digits(-n) == Itoa(n)[1..];
        DigitsInjective(-m, -n);
      } else {
        DigitsInjective(m, n);
      }
    }
  }
}
