/** What strtol with base 0 makes of a field: blanks, a sign, a prefix that tells the base,
    digits, and whatever follows them. */
module Radix {
  import opened Orders
  import opened Numbers
  import opened Messages
  import opened Grammar

  /** Each digit is worth its place in the alphabet, in either case. */
  lemma DigitWorth(k: nat)
    ensures k < 10 ==> DigitValue("0123456789"[k]) == k
    ensures k < 26 ==> DigitValue("abcdefghijklmnopqrstuvwxyz"[k]) == 10 + k
  {
  }

  lemma CapitalWorth(k: nat)
    requires k < 26
    ensures DigitValue("ABCDEFGHIJKLMNOPQRSTUVWXYZ"[k]) == 10 + k
  {
  }

  lemma NoDigit(c: char)
    ensures DigitValue(c) >= 36 <==>
      c !in "0123456789" && c !in "abcdefghijklmnopqrstuvwxyz" && c !in "ABCDEFGHIJKLMNOPQRSTUVWXYZ"
  {
    Alphabets(c);
  }

  /** The digits of a base, and none of it behind them. */
  predicate Written(base: nat, digits: string, rest: string) {
    && (forall i :: 0 <= i < |digits| ==> DigitValue(digits[i]) < base)
    && (rest == "" || DigitValue(rest[0]) >= base)
  }

  /** The number that digits of a base show, from the last digit on. */
  function Shows(base: nat, digits: string): nat {
    if digits == "" then 0
    else
      var n := |digits| - 1;
      base * Shows(base, digits[..n]) + DigitValue(digits[n])
  }

  lemma LastDigit(base: nat, c: char, rest: string, value: nat)
    requires DigitValue(c) < base
    ensures Scan(base, [c] + rest, value) == Scan(base, rest, base * value + DigitValue(c))
  {
    assert ([c] + rest)[1..] == rest;
  }

  lemma {:induction false} ScanShows(base: nat, digits: string, rest: string)
    requires Written(base, digits, "")
    ensures Scan(base, digits + rest, 0) == Scan(base, rest, Shows(base, digits))
    decreases |digits|
  {
    if digits == "" {
      assert digits + rest == rest;
    } else {
      var n := |digits| - 1;
      LastDigit(base, digits[n], rest, Shows(base, digits[..n]));
      assert digits + rest == digits[..n] + ([digits[n]] + rest);
      ScanShows(base, digits[..n], [digits[n]] + rest);
    }
  }

  /** The scan reads the digits there are, to their end. */
  lemma ScanReads(base: nat, digits: string, rest: string)
    requires Written(base, digits, rest)
    ensures Scan(base, digits + rest, 0) == Shows(base, digits)
  {
    ScanShows(base, digits, rest);
  }

  datatype Notation = Dec | Oct | Hex

  function Base(notation: Notation): nat {
    match notation
    case Dec => 10
    case Oct => 8
    case Hex => 16
  }

  predicate Prefix(notation: Notation, prefix: string) {
    match notation
    case Dec => prefix == ""
    case Oct => prefix == "0"
    case Hex => prefix == "0x" || prefix == "0X"
  }

  /** A number without its sign: a prefix and digits, of which only an octal one may have
      none; a decimal one does not begin with 0, and no hexadecimal one with that prefix. */
  predicate Numeral(notation: Notation, prefix: string, digits: string, rest: string) {
    && Prefix(notation, prefix) && Written(Base(notation), digits, rest)
    && (notation.Dec? ==> digits != "" && digits[0] != '0')
    && (notation.Hex? ==> digits != "")
    && (notation.Oct? && digits == "" ==> |rest| < 2 || rest[0] !in "xX" || DigitValue(rest[1]) >= 16)
  }

  lemma DecimalReads(digits: string, rest: string)
    requires Numeral(Dec, "", digits, rest)
    ensures Magnitude(digits + rest) == Shows(10, digits)
  {
    var s := digits + rest;
    assert s[0] == digits[0];
    ScanReads(10, digits, rest);
  }

  lemma OctalReads(digits: string, rest: string)
    requires Numeral(Oct, "0", digits, rest)
    ensures Magnitude("0" + digits + rest) == Shows(8, digits)
  {
    var s := "0" + digits + rest;
    assert s[0] == '0' && s[1..] == digits + rest;
    assert !IsHex(s) by {
      if digits == "" { assert s[1..] == rest; } else { assert s[1] == digits[0]; }
    }
    ScanReads(8, digits, rest);
    assert Scan(8, s, 0) == Scan(8, s[1..], 0);
  }

  lemma HexReads(prefix: string, digits: string, rest: string)
    requires Numeral(Hex, prefix, digits, rest)
    ensures Magnitude(prefix + digits + rest) == Shows(16, digits)
  {
    var s := prefix + digits + rest;
    assert s[2..] == digits + rest && s[2] == digits[0];
    ScanReads(16, digits, rest);
  }

  lemma NumeralReads(notation: Notation, prefix: string, digits: string, rest: string)
    requires Numeral(notation, prefix, digits, rest)
    ensures Magnitude(prefix + digits + rest) == Shows(Base(notation), digits)
    ensures var s := prefix + digits + rest; s != "" && IsDigit(s[0])
  {
    match notation {
      case Dec =>
        assert prefix + digits + rest == digits + rest;
        DecimalReads(digits, rest);
      case Oct => OctalReads(digits, rest);
      case Hex => HexReads(prefix, digits, rest);
    }
  }

  lemma {:induction false} BlanksSkipped(blanks: string, s: string)
    requires forall i :: 0 <= i < |blanks| ==> blanks[i] in " \t\n\U{000b}\U{000c}\r"
    requires s == "" || s[0] !in " \t\n\U{000b}\U{000c}\r"
    ensures SkipBlanks(blanks + s) == s
    decreases |blanks|
  {
    if blanks == "" {
      assert blanks + s == s;
    } else {
      assert (blanks + s)[1..] == blanks[1..] + s;
      BlanksSkipped(blanks[1..], s);
    }
  }

  function Signed(sign: string, n: int): int {
    if sign == "-" then -n else n
  }

  lemma SignRead(sign: string, s: string)
    requires sign in ["", "+", "-"] && s != "" && IsDigit(s[0])
    ensures ReadNumber(sign + s) == Narrow(Clamp(Signed(sign, Magnitude(s))))
  {
    var t := sign + s;
    assert t[0] !in " \t\n\U{000b}\U{000c}\r";
    assert SkipBlanks(t) == t;
    if sign == "" { assert t == s; } else { assert t[1..] == s; }
  }

  lemma BlanksRead(blanks: string, s: string)
    requires forall i :: 0 <= i < |blanks| ==> blanks[i] in " \t\n\U{000b}\U{000c}\r"
    requires s == "" || s[0] !in " \t\n\U{000b}\U{000c}\r"
    ensures ReadNumber(blanks + s) == ReadNumber(s)
  {
    BlanksSkipped(blanks, s);
    BlanksSkipped("", s);
    assert "" + s == s;
  }

  /** What an int holds of a number of any size: the number if it fits, otherwise its last
      32 bits, and beyond a long those of the largest or smallest long, -1 or 0. */
  predicate Holds(n: int, x: int) {
    && (-0x8000_0000 <= x < 0x8000_0000 ==> n == x)
    && (-0x8000_0000_0000_0000 <= x < 0x8000_0000_0000_0000 ==> (n - x) % 0x1_0000_0000 == 0)
    && (x >= 0x8000_0000_0000_0000 ==> n == -1)
    && (x < -0x8000_0000_0000_0000 ==> n == 0)
  }

  lemma IntHolds(x: int)
    ensures Holds(Narrow(Clamp(x)), x)
  {
  }

  /** A field is read as the number it shows in the base its prefix tells, with its sign,
      as far as an int holds that: blanks before it and anything behind it do not matter. */
  lemma FieldReads(blanks: string, sign: string, notation: Notation, prefix: string, digits: string, rest: string)
    requires forall i :: 0 <= i < |blanks| ==> blanks[i] in " \t\n\U{000b}\U{000c}\r"
    requires sign in ["", "+", "-"] && Numeral(notation, prefix, digits, rest)
    ensures Holds(ReadNumber(blanks + (sign + (prefix + digits + rest))), Signed(sign, Shows(Base(notation), digits)))
  {
    var s := prefix + digits + rest;
    NumeralReads(notation, prefix, digits, rest);
    SignRead(sign, s);
    BlanksRead(blanks, sign + s);
    IntHolds(Signed(sign, Magnitude(s)));
  }

  lemma NoMagnitude(s: string)
    requires s == "" || s[0] !in "0123456789"
    ensures Magnitude(s) == 0
  {
    if s != "" { Alphabets(s[0]); }
  }

  lemma SignAlone(sign: string, rest: string)
    requires sign in ["", "+", "-"] && (rest == "" || rest[0] !in "0123456789+-")
    requires SkipBlanks(sign + rest) == sign + rest
    ensures ReadNumber(sign + rest) == 0
  {
    NoMagnitude(rest);
    assert sign == "" ==> sign + rest == rest;
    assert sign != "" ==> (sign + rest)[0] == sign[0] && (sign + rest)[1..] == rest;
  }

  /** Where no digit is found the number is 0. */
  lemma NothingRead(blanks: string, sign: string, rest: string)
    requires forall i :: 0 <= i < |blanks| ==> blanks[i] in " \t\n\U{000b}\U{000c}\r"
    requires sign in ["", "+", "-"]
    requires rest == "" || (rest[0] !in "0123456789+-" && rest[0] !in " \t\n\U{000b}\U{000c}\r")
    ensures ReadNumber(blanks + (sign + rest)) == 0
  {
    var t := sign + rest;
    assert t == "" || t[0] == (if sign == "" then rest[0] else sign[0]);
    BlanksRead(blanks, t);
    BlanksSkipped("", t);
    assert "" + t == t;
    SignAlone(sign, rest);
  }
}
