/** Decimal text and its value: Python's `int()` on a digit string and
    `f"{n}"` / `str(n)` on a non-negative integer. */
module Decimal {
  import opened PyStr

  function DigitValue(c: char): nat
    requires IsDigit(c)
  {
    c as int - '0' as int
  }

  function DigitChar(d: nat): (c: char)
    requires d < 10
    ensures IsDigit(c) && DigitValue(c) == d
  {
    ('0' as int + d) as char
  }

  /** `int(s)` for a string of ASCII digits (leading zeros allowed); 0 for "". */
  function Value(s: string): nat
    requires AllDigits(s)
  {
    if |s| == 0 then 0 else Value(s[..|s| - 1]) * 10 + DigitValue(s[|s| - 1])
  }

  /** `f"{n}"`: the decimal digits of n, most significant first, with no
      leading zero. Reading the text back gives n. */
  function Text(n: nat): (r: string)
    ensures IsDigits(r) && Value(r) == n
    ensures n > 0 ==> r[0] != '0'
  {
    if n < 10 then
      [DigitChar(n)]
    else
      var t := Text(n / 10);
      var c := DigitChar(n % 10);
      assert (t + [c])[..|t + [c]| - 1] == t;
      t + [c]
  }

  /** A run of k zero digits. */
  function Zeros(k: nat): (r: string)
    ensures |r| == k && AllDigits(r)
    ensures forall i :: 0 <= i < k ==> r[i] == '0'
  {
    if k == 0 then [] else ['0'] + Zeros(k - 1)
  }

  lemma {:induction false} ValueOfZeros(k: nat)
    ensures Value(Zeros(k)) == 0
  {
    if k > 0 {
      assert Zeros(k)[..k - 1] == Zeros(k - 1);
      ValueOfZeros(k - 1);
    }
  }

  /** Leading zeros do not change the value `int()` reads. */
  lemma {:induction false} ValueIgnoresLeadingZeros(k: nat, s: string)
    requires AllDigits(s)
    ensures AllDigits(Zeros(k) + s)
    ensures Value(Zeros(k) + s) == Value(s)
  {
    var z := Zeros(k) + s;
    assert AllDigits(z) by {
      forall i | 0 <= i < |z| ensures IsDigit(z[i]) {
        if i < k { assert z[i] == Zeros(k)[i]; } else { assert z[i] == s[i - k]; }
      }
    }
    if |s| == 0 {
      assert z == Zeros(k);
      ValueOfZeros(k);
    } else {
      assert z[..|z| - 1] == Zeros(k) + s[..|s| - 1];
      ValueIgnoresLeadingZeros(k, s[..|s| - 1]);
    }
  }

  /** A digit string that does not start with '0' has a positive value. */
  lemma {:induction false} LeadingDigitPositive(s: string)
    requires IsDigits(s) && s[0] != '0'
    ensures Value(s) >= 1
  {
    if |s| > 1 {
      LeadingDigitPositive(s[..|s| - 1]);
    }
  }

  /** A digit string without a leading zero is the text of its own value. */
  lemma {:induction false} TextOfValue(s: string)
    requires IsDigits(s) && s[0] != '0'
    ensures Text(Value(s)) == s
  {
    var p, c := s[..|s| - 1], s[|s| - 1];
    if |p| == 0 {
      assert s == [c];
    } else {
      LeadingDigitPositive(p);
      TextOfValue(p);
      var a, d := Value(p), DigitValue(c);
      assert Value(s) == a * 10 + d;
      TextAppend(a, d);
      assert DigitChar(d) == c;
      assert s == p + [c];
    }
  }

  /** Appending a digit to the text of a positive number gives the text of
      ten times the number plus that digit. */
  lemma TextAppend(a: nat, d: nat)
    requires a >= 1 && d < 10
    ensures Text(a * 10 + d) == Text(a) + [DigitChar(d)]
  {
    DivMod10(a, d);
  }

  lemma DivMod10(a: nat, d: nat)
    requires d < 10
    ensures (a * 10 + d) / 10 == a && (a * 10 + d) % 10 == d
  {
  }

  /** Every digit string with a positive value is its canonical text preceded
      by zero or more zeros. */
  lemma {:induction false} ZerosThenText(s: string)
    requires IsDigits(s) && Value(s) >= 1
    ensures |Text(Value(s))| <= |s|
    ensures s == Zeros(|s| - |Text(Value(s))|) + Text(Value(s))
  {
    if s[0] != '0' {
      TextOfValue(s);
      assert s == Zeros(0) + s;
    } else {
      var tail := s[1..];
      assert s == Zeros(1) + tail;
      ValueIgnoresLeadingZeros(1, tail);
      assert |tail| > 0;
      ZerosThenText(tail);
      ZeroInFront(|tail| - |Text(Value(tail))|, Text(Value(tail)));
    }
  }

  lemma ZeroInFront(k: nat, t: string)
    ensures Zeros(1) + (Zeros(k) + t) == Zeros(k + 1) + t
  {
    assert Zeros(k + 1) == ['0'] + Zeros(k);
    assert Zeros(1) == ['0'];
  }
}
