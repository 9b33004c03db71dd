/** Natural numbers as decimal text. */
module Decimals {

  predicate IsDigit(c: char) {
    '0' <= c <= '9'
  }

  predicate AllDigits(s: string) {
    forall i :: 0 <= i < |s| ==> IsDigit(s[i])
  }

  function Digits(n: nat): string {
    var last := ['0' + (n % 10) as char];
    if n < 10 then last else Digits(n / 10) + last
  }

  function PadStart(s: string, width: nat): string
    decreases width - |s|
  {
    if |s| < width then PadStart("0" + s, width) else s
  }

  lemma {:induction false} DigitsOnly(n: nat)
    ensures AllDigits(Digits(n)) && Digits(n) != []
  {
    if n >= 10 {
      DigitsOnly(n / 10);
    }
  }

  /** No number is written with leading zeros. */
  lemma {:induction false} DigitsCanonical(n: nat)
    ensures Digits(n) != [] && (|Digits(n)| > 1 ==> Digits(n)[0] != '0')
  {
    DigitsOnly(n);
    if n >= 10 {
      DigitsOnly(n / 10);
      DigitsCanonical(n / 10);
      if n < 100 {
        assert Digits(n / 10) == ['0' + (n / 10) as char];
      }
    }
  }

  lemma {:induction false} PaddedDigits(s: string, width: nat)
    requires AllDigits(s)
    ensures AllDigits(PadStart(s, width)) && |PadStart(s, width)| == if |s| < width then width else |s|
    decreases width - |s|
  {
    if |s| < width {
      PaddedDigits("0" + s, width);
    }
  }

  function Zeros(n: nat): string {
    seq(n, i => '0')
  }

  /** Padding puts zeros in front, as many as are missing. */
  lemma {:induction false} PadsWithZeros(s: string, width: nat)
    ensures PadStart(s, width) == Zeros(if |s| < width then width - |s| else 0) + s
    decreases width - |s|
  {
    if |s| < width {
      PadsWithZeros("0" + s, width);
      assert Zeros(width - |s|) == Zeros(width - |s| - 1) + "0";
    }
  }

  /** The number a text of digits denotes. */
  function Value(s: string): nat
    requires AllDigits(s)
  {
    if s == [] then 0 else Value(s[..|s| - 1]) * 10 + (s[|s| - 1] as int - '0' as int)
  }

  lemma {:induction false} ValueOfDigits(n: nat)
    ensures AllDigits(Digits(n)) && Value(Digits(n)) == n
  {
    var s := Digits(n);
    DigitsOnly(n);
    if n >= 10 {
      ValueOfDigits(n / 10);
      assert s[..|s| - 1] == Digits(n / 10);
    }
  }

  lemma {:induction false} LeadingZero(s: string)
    requires AllDigits(s)
    ensures Value("0" + s) == Value(s)
  {
    if s == [] {
      assert ("0" + s)[..0] == [];
    } else {
      LeadingZero(s[..|s| - 1]);
      assert ("0" + s)[..|s|] == "0" + s[..|s| - 1];
    }
  }

  lemma {:induction false} ValueOfPadded(s: string, width: nat)
    requires AllDigits(s)
    ensures AllDigits(PadStart(s, width)) && Value(PadStart(s, width)) == Value(s)
    decreases width - |s|
  {
    PaddedDigits(s, width);
    if |s| < width {
      LeadingZero(s);
      ValueOfPadded("0" + s, width);
    }
  }

  lemma ValueOfTwoMore(s: string, two: string)
    requires AllDigits(s) && AllDigits(two) && |two| == 2
    ensures AllDigits(s + two) && Value(s + two) == Value(s) * 100 + Value(two)
  {
    var all := s + two;
    assert all[..|all| - 1] == s + two[..1];
    assert (s + two[..1])[..|s|] == s;
    var x, y := two[0] as int - '0' as int, two[1] as int - '0' as int;
    assert Value(s + two[..1]) == Value(s) * 10 + x;
    assert Value(all) == Value(s + two[..1]) * 10 + y;
    assert two[..1][..0] == [];
    assert Value(two[..1]) == x && Value(two) == Value(two[..1]) * 10 + y;
  }
}
