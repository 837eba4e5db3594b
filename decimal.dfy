/** Decimal rendering of counters: `str(n)` and the format `{n:03d}`. */
module Decimal {

  predicate IsDigit(c: char) { '0' <= c <= '9' }

  predicate AllDigits(s: string) { forall i :: 0 <= i < |s| ==> IsDigit(s[i]) }

  function DigitChar(d: nat): (c: char)
    requires d < 10
    ensures IsDigit(c)
  {
    ('0' as int + d) as char
  }

  /** `str(n)` for a non-negative integer: no leading zeros. */
  function Digits(n: nat): (s: string)
    ensures 1 <= |s| && AllDigits(s)
  {
    if n < 10 then [DigitChar(n)] else Digits(n / 10) + [DigitChar(n % 10)]
  }

  /** The number a digit string denotes (`int(s)`). */
  function Value(s: string): nat
    requires AllDigits(s)
  {
    if s == [] then 0 else Value(s[..|s| - 1]) * 10 + (s[|s| - 1] as int - '0' as int)
  }

  /** `format(n, "03d")`: `str(n)` left-padded with zeros to three
      characters; wider numbers are not truncated. */
  function Pad3(n: nat): (s: string)
    ensures AllDigits(s)
  {
    var d := Digits(n);
    if |d| < 3 then seq(3 - |d|, _ => '0') + d else d
  }

  /** Reading `str(n)` back gives `n`. */
  lemma {:induction false} ValueDigits(n: nat)
    ensures Value(Digits(n)) == n
  {
    if n >= 10 {
      ValueDigits(n / 10);
      var s := Digits(n);
      assert s[..|s| - 1] == Digits(n / 10);
    }
  }

  /** A leading zero does not change the value. */
  lemma {:induction false} ValueLeadingZero(s: string)
    requires AllDigits(s)
    ensures Value("0" + s) == Value(s)
  {
    if s != [] {
      var t := "0" + s;
      assert t[..|t| - 1] == "0" + s[..|s| - 1];
      ValueLeadingZero(s[..|s| - 1]);
    }
  }

  /** Reading `{n:03d}` back gives `n`. */
  lemma Pad3Value(n: nat)
    ensures Value(Pad3(n)) == n
  {
    var d := Digits(n);
    ValueDigits(n);
    if |d| == 1 {
      ValueLeadingZero(d);
      assert "0" + d == seq(1, _ => '0') + d;
      ValueLeadingZero("0" + d);
      assert "0" + ("0" + d) == Pad3(n);
    } else if |d| == 2 {
      ValueLeadingZero(d);
      assert "0" + d == Pad3(n);
    }
  }

  /** Distinct counters get distinct padded numbers. */
  lemma Pad3Injective(a: nat, b: nat)
    requires a != b
    ensures Pad3(a) != Pad3(b)
  {
    Pad3Value(a);
    Pad3Value(b);
  }

  /** Below 1000, `{n:03d}` is exactly the hundreds, tens and units digits. */
  lemma Pad3Small(n: nat)
    requires n < 1000
    ensures Pad3(n) == [DigitChar(n / 100), DigitChar(n / 10 % 10), DigitChar(n % 10)]
  {
    if n >= 100 {
      assert n / 10 >= 10 && n / 10 / 10 == n / 100 && n / 100 < 10;
      assert Digits(n / 10) == [DigitChar(n / 100), DigitChar(n / 10 % 10)];
    } else if n >= 10 {
      assert n / 10 < 10 && n / 10 % 10 == n / 10 && n / 100 == 0;
      assert Digits(n) == [DigitChar(n / 10), DigitChar(n % 10)];
      assert Pad3(n) == seq(1, _ => '0') + Digits(n);
      assert DigitChar(0) == '0';
    } else {
      assert Pad3(n) == seq(2, _ => '0') + [DigitChar(n)];
      assert DigitChar(0) == '0' && n / 100 == 0 && n / 10 % 10 == 0 && n % 10 == n;
    }
  }
}
