/** Numbers in messages: how they are printed and what reading them back gives. */
module Numbers {
  import opened Orders

  predicate IsDigit(c: char) {
    '0' <= c <= '9'
  }

  function DigitOf(n: nat): char
    requires n < 10
  {
    '0' + n as char
  }

  function Digits(n: nat): string {
    if n < 10 then [DigitOf(n)] else Digits(n / 10) + [DigitOf(n % 10)]
  }

  /** A number as printed with %d. */
  function Decimal(n: int): string {
    if n < 0 then "-" + Digits(-n) else Digits(n)
  }

  /** The value of a digit in the bases up to 36; 36 if it is none. */
  function DigitValue(c: char): nat {
    if IsDigit(c) then (c - '0') as nat
    else if 'a' <= c <= 'z' then (c - 'a') as nat + 10
    else if 'A' <= c <= 'Z' then (c - 'A') as nat + 10
    else 36
  }

  /** The value of the leading digits below the base, after a value read already. */
  function Scan(base: nat, s: string, value: nat): nat {
    if s != [] && DigitValue(s[0]) < base then Scan(base, s[1..], value * base + DigitValue(s[0])) else value
  }

  predicate IsHex(s: string) {
    |s| > 2 && s[0] == '0' && (s[1] == 'x' || s[1] == 'X') && DigitValue(s[2]) < 16
  }

  /** The value of a number without its sign: 0x means hexadecimal and another leading
      zero octal. */
  function Magnitude(s: string): nat {
    if IsHex(s) then Scan(16, s[2..], 0) else Scan(if s != [] && s[0] == '0' then 8 else 10, s, 0)
  }

  function SkipBlanks(s: string): string {
    if s != [] && (s[0] == ' ' || '\t' <= s[0] <= '\r') then SkipBlanks(s[1..]) else s
  }

  function Clamp(x: int): int {
    if x < -LONG_LIMIT then -LONG_LIMIT else if x >= LONG_LIMIT then LONG_LIMIT - 1 else x
  }

  /** strtol with base 0 (section 7.22.1.4 of ISO/IEC 9899:2011), stored in an int. */
  function ReadNumber(s: string): Int {
    var t := SkipBlanks(s);
    var unsigned := if t != [] && (t[0] == '-' || t[0] == '+') then t[1..] else t;
    var value: int := Magnitude(unsigned);
    Narrow(Clamp(if t != [] && t[0] == '-' then -value else value))
  }

  predicate AllDigits(s: string) {
    forall i :: 0 <= i < |s| ==> IsDigit(s[i])
  }

  function Pow10(k: nat): nat {
    if k == 0 then 1 else 10 * Pow10(k - 1)
  }

  lemma {:induction false} DigitsShape(n: nat)
    ensures AllDigits(Digits(n)) && Digits(n) != []
    ensures n > 0 ==> Digits(n)[0] != '0'
  {
    if n >= 10 { DigitsShape(n / 10); }
  }

  /** A number has at most k digits exactly if it is below ten to the k. */
  lemma {:induction false} DigitsLength(n: nat, k: nat)
    requires k > 0
    ensures |Digits(n)| <= k <==> n < Pow10(k)
  {
    if n >= 10 {
      if k == 1 {
        DigitsShape(n / 10);
        assert Pow10(1) == 10;
      } else {
        DigitsLength(n / 10, k - 1);
      }
    } else {
      assert Pow10(k) == 10 * Pow10(k - 1);
      Pow10Positive(k - 1);
    }
  }

  lemma {:induction false} Pow10Positive(k: nat)
    ensures Pow10(k) > 0
  {
    if k > 0 { Pow10Positive(k - 1); }
  }

  /** Reading what was printed gives the number back, and goes on behind it. */
  lemma {:induction false} ScanDigits(n: nat, rest: string)
    ensures Scan(10, Digits(n) + rest, 0) == Scan(10, rest, n)
  {
    if n < 10 {
      assert (Digits(n) + rest)[1..] == rest;
    } else {
      var c := DigitOf(n % 10);
      ScanDigits(n / 10, [c] + rest);
      assert Digits(n) + rest == Digits(n / 10) + ([c] + rest);
      assert ([c] + rest)[1..] == rest;
    }
  }

  lemma MagnitudePrinted(n: nat, rest: string)
    requires rest == "" || DigitValue(rest[0]) == 36
    ensures Magnitude(Digits(n) + rest) == n
  {
    ScanDigits(n, rest);
    DigitsShape(n);
    var s := Digits(n) + rest;
    assert s[0] == Digits(n)[0];
    if n == 0 {
      assert s[0] == '0' && s[1..] == rest && Scan(8, rest, 0) == 0;
      assert Scan(8, s, 0) == Scan(8, rest, 0);
    }
  }

  lemma StoredClamped(x: int)
    ensures Narrow(Clamp(x)) == x <==> FitsInt(x)
  {
    StoredExactly(Clamp(x));
  }

  /** Without a sign and not hexadecimal. */
  lemma ReadUnsigned(s: string)
    requires s != "" && IsDigit(s[0]) && (|s| > 1 ==> s[1] != 'x' && s[1] != 'X')
    ensures Magnitude(s) == Scan(if s[0] == '0' then 8 else 10, s, 0)
    ensures ReadNumber(s) == Narrow(Clamp(Magnitude(s)))
  {
  }

  /** A printed number is read back, whatever follows that is no digit or letter, exactly
      if it fits an int. */
  lemma ReadPrinted(n: int, rest: string)
    requires rest == "" || DigitValue(rest[0]) == 36
    ensures ReadNumber(Decimal(n) + rest) == n <==> FitsInt(n)
  {
    var m: nat := if n < 0 then -n else n;
    var s := Decimal(n) + rest;
    DigitsShape(m);
    assert ReadNumber(s) == Narrow(Clamp(n)) by {
      MagnitudePrinted(m, rest);
      if n < 0 {
        assert s[1..] == Digits(m) + rest && SkipBlanks(s) == s;
      } else {
        assert s == Digits(m) + rest && s[0] == Digits(m)[0] && SkipBlanks(s) == s;
      }
    }
    StoredClamped(n);
  }

  lemma {:induction false} OctalLess(s: string, octal: nat, decimal: nat)
    requires AllDigits(s) && octal <= decimal
    ensures Scan(8, s, octal) <= Scan(10, s, decimal)
    ensures octal < decimal ==> Scan(8, s, octal) < Scan(10, s, decimal)
  {
    if s != [] {
      var d := DigitValue(s[0]);
      ScanGrows(s[1..], decimal * 10 + d);
      if d < 8 { OctalLess(s[1..], octal * 8 + d, decimal * 10 + d); }
    }
  }

  lemma {:induction false} OctalEqual(s: string)
    requires AllDigits(s)
    ensures Scan(8, s, 0) == Scan(10, s, 0) <==> Scan(10, s, 0) <= 7
  {
    if s != [] {
      var d, t := DigitValue(s[0]), s[1..];
      ScanGrows(t, d);
      if d == 0 {
        OctalEqual(t);
      } else if d < 8 && t != [] {
        var e := DigitValue(t[0]);
        ScanGrows(t[1..], d * 10 + e);
        if e < 8 { OctalLess(t[1..], d * 8 + e, d * 10 + e); }
      }
    }
  }

  lemma {:induction false} ScanGrows(s: string, value: nat)
    ensures Scan(10, s, value) >= value
  {
    if s != [] && IsDigit(s[0]) { ScanGrows(s[1..], value * 10 + DigitValue(s[0])); }
  }

  /** Digits are read as the decimal number they show exactly if that fits an int and
      there is no leading zero or it is at most 7: after a leading zero they are octal. */
  lemma NumberAsShown(s: string)
    requires AllDigits(s) && s != []
    ensures ReadNumber(s) == Scan(10, s, 0) <==>
      Scan(10, s, 0) < INT_LIMIT && (s[0] != '0' || Scan(10, s, 0) <= 7)
  {
    assert IsDigit(s[0]) && (|s| > 1 ==> IsDigit(s[1]));
    ReadUnsigned(s);
    StoredClamped(Magnitude(s));
    if s[0] == '0' {
      OctalEqual(s);
      OctalLess(s, 0, 0);
    }
  }

  lemma {:induction false} ScanBound(base: nat, s: string, value: nat, rest: string, k: nat)
    requires AllDigits(s) && (base == 8 || base == 10) && (rest == "" || !IsDigit(rest[0])) && value < Pow10(k)
    ensures Scan(base, s + rest, value) < Pow10(k + |s|)
    decreases |s|
  {
    Pow10Grows(k, k + |s|);
    if s == [] {
      assert s + rest == rest;
    } else {
      var d := DigitValue(s[0]);
      assert (s + rest)[1..] == s[1..] + rest;
      if d < base { ScanBound(base, s[1..], value * base + d, rest, k + 1); }
    }
  }

  lemma {:induction false} Pow10Grows(a: nat, b: nat)
    requires a <= b
    ensures Pow10(a) <= Pow10(b)
  {
    if a < b { Pow10Grows(a, b - 1); }
  }
}
