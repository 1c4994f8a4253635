/** Decimal digit strings: reading them as Python's `int()` does on ASCII
    digits, writing naturals as `str()` does, and left zero-padding as the
    `02d` format specification does. */
module Decimal {
  import opened Results

  /** An ASCII decimal digit. Python's `\d` and `int()` also accept other
      Unicode decimal digits; the model keeps to '0'..'9'. */
  predicate IsDigit(c: char) {
    '0' <= c <= '9'
  }

  predicate AllDigits(s: string) {
    forall i :: 0 <= i < |s| ==> IsDigit(s[i])
  }

  function DigitValue(c: char): (d: nat)
    requires IsDigit(c)
    ensures d < 10
  {
    c as int - '0' as int
  }

  function Digit(d: nat): (c: char)
    requires d < 10
    ensures IsDigit(c) && DigitValue(c) == d
  {
    ('0' as int + d) as char
  }

  /** The number a digit string denotes, most significant digit first;
      leading zeros are allowed and the empty string denotes 0. */
  function Value(s: string): nat
    requires AllDigits(s)
    decreases |s|
  {
    if s == [] then 0 else Value(s[..|s| - 1]) * 10 + DigitValue(s[|s| - 1])
  }

  lemma {:induction false} ValueSnoc(s: string, c: char)
    requires AllDigits(s) && IsDigit(c)
    ensures AllDigits(s + [c])
    ensures Value(s + [c]) == Value(s) * 10 + DigitValue(c)
  {
    assert (s + [c])[..|s|] == s;
  }

  /** Reads a string that must be all digits: its number, or None when
      some character is not a digit. */
  function ReadDigits(s: string): Option<nat>
    decreases |s|
  {
    if s == [] then Some(0)
    else
      match ReadDigits(s[..|s| - 1])
      case None => None
      case Some(v) => if IsDigit(s[|s| - 1]) then Some(v * 10 + DigitValue(s[|s| - 1])) else None
  }

  /** ReadDigits accepts exactly the digit strings and reads them as Value. */
  lemma {:induction false} ReadDigitsValue(s: string)
    ensures AllDigits(s) ==> ReadDigits(s) == Some(Value(s))
    ensures !AllDigits(s) ==> ReadDigits(s) == None
    decreases |s|
  {
    if s != [] {
      var p := s[..|s| - 1];
      ReadDigitsValue(p);
      assert AllDigits(s) <==> AllDigits(p) && IsDigit(s[|s| - 1]) by {
        assert forall i :: 0 <= i < |p| ==> p[i] == s[i];
      }
    }
  }

  /** `str(n)`: the shortest decimal spelling of `n`. */
  function Show(n: nat): (s: string)
    ensures |s| >= 1 && AllDigits(s) && Value(s) == n
    ensures |s| == 1 || s[0] != '0'
    ensures |s| == 1 <==> n < 10
    ensures |s| <= 2 <==> n < 100
    decreases n
  {
    if n < 10 then
      [Digit(n)]
    else
      var prefix := Show(n / 10);
      ValueSnoc(prefix, Digit(n % 10));
      prefix + [Digit(n % 10)]
  }

  function Zeros(k: nat): (z: string)
    ensures |z| == k && AllDigits(z)
    ensures forall i | 0 <= i < k :: z[i] == '0'
  {
    if k == 0 then [] else ['0'] + Zeros(k - 1)
  }

  /** Left-pads a digit string with '0' up to `width` characters, as the
      format specification `0<width>d` does for a non-negative number. */
  function PadLeft(s: string, width: nat): (r: string)
    requires AllDigits(s)
    ensures AllDigits(r)
    ensures |r| == if |s| < width then width else |s|
    ensures |s| >= width ==> r == s
    ensures r[|r| - |s|..] == s
    ensures forall i | 0 <= i < |r| - |s| :: r[i] == '0'
  {
    if |s| < width then Zeros(width - |s|) + s else s
  }

  /** A leading zero does not change the number a digit string denotes. */
  lemma {:induction false} ValueLeadingZero(s: string)
    requires AllDigits(s)
    ensures AllDigits(['0'] + s)
    ensures Value(['0'] + s) == Value(s)
    decreases |s|
  {
    if s == [] {
      assert ['0'] + s == ['0'];
    } else {
      var p, c := s[..|s| - 1], s[|s| - 1];
      assert s == p + [c];
      assert ['0'] + s == (['0'] + p) + [c];
      ValueLeadingZero(p);
      ValueSnoc(['0'] + p, c);
      ValueSnoc(p, c);
    }
  }

  /** Any run of leading zeros leaves the value unchanged. */
  lemma {:induction false} ValueZerosPrefix(k: nat, s: string)
    requires AllDigits(s)
    ensures AllDigits(Zeros(k) + s)
    ensures Value(Zeros(k) + s) == Value(s)
    decreases k
  {
    if k == 0 {
      assert Zeros(k) + s == s;
    } else {
      assert Zeros(k) + s == ['0'] + (Zeros(k - 1) + s);
      ValueZerosPrefix(k - 1, s);
      ValueLeadingZero(Zeros(k - 1) + s);
    }
  }

  /** Zero-padding preserves the value: `int(f"{n:0Wd}") == n`. */
  lemma {:induction false} PadLeftValue(s: string, width: nat)
    requires AllDigits(s)
    ensures Value(PadLeft(s, width)) == Value(s)
  {
    if |s| < width {
      var padded := Zeros(width - |s|) + s;
      assert PadLeft(s, width) == padded;
      ValueZerosPrefix(width - |s|, s);
    }
  }
}
