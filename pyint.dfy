/**
 * The two conversions between integers and decimal text that the add-on relies on:
 * Python 2's `int(s)` on a settings string, and the `"%d" % n` formatting used to
 * build setting names such as `alarm3`.
 */
module PyInt {
  import opened Wrappers

  /** The characters C's `isspace` accepts in the C locale; `int(s)` ignores them at both ends. */
  predicate IsSpace(c: char) {
    c == ' ' || 9 <= c as int <= 13  // tab, line feed, vertical tab, form feed, carriage return
  }

  predicate IsDigit(c: char) {
    '0' <= c <= '9'
  }

  predicate AllDigits(s: string) {
    forall i :: 0 <= i < |s| ==> IsDigit(s[i])
  }

  function DigitValue(c: char): (d: nat)
    requires IsDigit(c)
    ensures d < 10
  {
    c as int - '0' as int
  }

  function DigitChar(d: nat): (c: char)
    requires d < 10
    ensures IsDigit(c) && DigitValue(c) == d
  {
    ('0' as int + d) as char
  }

  function StripLeft(s: string): string {
    if s != [] && IsSpace(s[0]) then StripLeft(s[1..]) else s
  }

  function StripRight(s: string): string {
    if s != [] && IsSpace(s[|s| - 1]) then StripRight(s[..|s| - 1]) else s
  }

  /** `s.strip()`: the text with the surrounding white space removed. */
  function Strip(s: string): string {
    StripRight(StripLeft(s))
  }

  /** The value of a non-empty run of decimal digits, most significant first (leading zeros allowed). */
  function DigitsValue(s: string): (n: nat)
    requires AllDigits(s)
  {
    if s == [] then 0 else DigitsValue(s[..|s| - 1]) * 10 + DigitValue(s[|s| - 1])
  }

  /** Python 2's `int(s)` for a decimal string: white space, an optional sign, white space
      again, at least one digit, and white space; anything else raises `ValueError`, modelled as
      `None`. */
  function ParseInt(s: string): Option<int> {
    ParseSigned(Strip(s))
  }

  /** A sign-prefixed run of digits with nothing around it; white space may follow the sign. */
  function ParseSigned(t: string): Option<int> {
    var negative := t != [] && t[0] == '-';
    var digits := if t != [] && (t[0] == '-' || t[0] == '+') then StripLeft(t[1..]) else t;
    if digits != [] && AllDigits(digits) then
      var magnitude: int := DigitsValue(digits);
      Some(if negative then -magnitude else magnitude)
    else
      None
  }

  /** `"%d" % n` for a natural number: its shortest decimal representation. */
  function NatToString(n: nat): (s: string)
    ensures s != [] && AllDigits(s)
    ensures |s| > 1 ==> s[0] != '0'
  {
    if n < 10 then [DigitChar(n)] else NatToString(n / 10) + [DigitChar(n % 10)]
  }

  /** `"%d" % n` for any integer. */
  function IntToString(n: int): string {
    if n < 0 then "-" + NatToString(-n) else NatToString(n)
  }

  lemma {:induction false} DigitsValueOfNatToString(n: nat)
    ensures DigitsValue(NatToString(n)) == n
  {
    if n >= 10 {
      var p := NatToString(n / 10);
      var s := NatToString(n);
      assert s[..|s| - 1] == p;
      DigitsValueOfNatToString(n / 10);
    }
  }

  lemma StripUnchanged(s: string)
    requires s != [] && !IsSpace(s[0]) && !IsSpace(s[|s| - 1])
    ensures Strip(s) == s
  {
  }

  /** Reading back what `"%d"` wrote gives the number again. */
  lemma ParseIntOfIntToString(n: int)
    ensures ParseInt(IntToString(n)) == Some(n)
  {
    var s := IntToString(n);
    StripUnchanged(s);
    if n < 0 {
      assert s[1..] == NatToString(-n);
      DigitsValueOfNatToString(-n);
    } else {
      DigitsValueOfNatToString(n);
    }
  }

  predicate AllSpace(s: string) {
    forall i :: 0 <= i < |s| ==> IsSpace(s[i])
  }

  /** White space around a number does not change what `int()` reads. */
  lemma ParseIntIgnoresSurroundingSpace(a: string, s: string, b: string)
    requires AllSpace(a) && AllSpace(b)
    ensures ParseInt(a + s + b) == ParseInt(s)
  {
    assert a + s + b == a + (s + b);
    StripLeftDropsSpace(a, s + b);
    StripLeftAppendSpaces(s, b);
    StripRightDropsSpaces(StripLeft(s), b);
  }

  /** White space between the sign and the digits is skipped: `int("- 5")` is -5. */
  lemma ParseIntSpaceAfterSign(sign: char, w: string, d: string)
    requires (sign == '+' || sign == '-') && AllSpace(w) && d != [] && AllDigits(d)
    ensures var v: int := DigitsValue(d);
      ParseInt([sign] + w + d) == Some(if sign == '-' then -v else v)
  {
    var t := [sign] + w + d;
    assert t[0] == sign && t[|t| - 1] == d[|d| - 1];
    StripUnchanged(t);
    assert t[1..] == w + d;
    StripLeftDropsSpace(w, d);
  }

  lemma {:induction false} StripLeftDropsSpace(a: string, s: string)
    requires AllSpace(a)
    ensures StripLeft(a + s) == StripLeft(s)
    decreases |a|
  {
    if a == [] {
      assert a + s == s;
    } else {
      assert (a + s)[0] == a[0];
      assert (a + s)[1..] == a[1..] + s;
      StripLeftDropsSpace(a[1..], s);
    }
  }

  lemma {:induction false} StripRightDropsSpaces(s: string, b: string)
    requires AllSpace(b)
    ensures StripRight(s + b) == StripRight(s)
    decreases |b|
  {
    if b != [] {
      var init := b[..|b| - 1];
      assert (s + b)[|s + b| - 1] == b[|b| - 1];
      assert (s + b)[..|s + b| - 1] == s + init;
      StripRightDropsSpaces(s, init);
    } else {
      assert s + b == s;
    }
  }

  lemma {:induction false} StripLeftAppendSpaces(s: string, b: string)
    requires AllSpace(b)
    ensures StripLeft(s + b) == if StripLeft(s) == [] then [] else StripLeft(s) + b
    decreases |s|
  {
    if s == [] {
      assert s + b == b + [];
      StripLeftDropsSpace(b, []);
    } else {
      assert (s + b)[0] == s[0];
      if IsSpace(s[0]) {
        assert (s + b)[1..] == s[1..] + b;
        StripLeftAppendSpaces(s[1..], b);
      }
    }
  }

  /** Space after the sign is skipped. */
  lemma ParseIntSignedExamples()
    ensures ParseInt("+ 30") == Some(30) && ParseInt("- 5") == Some(-5)
  {
    ParseIntSpaceAfterSign('+', " ", "30");
    assert "+ 30" == ['+'] + " " + "30";
    ParseIntSpaceAfterSign('-', " ", "5");
    assert "- 5" == ['-'] + " " + "5";
  }

  /** Space around the literal is skipped, and leading zeros are allowed. */
  lemma ParseIntPaddedExample()
    ensures ParseInt(" 07\n") == Some(7)
  {
    ParseIntIgnoresSurroundingSpace(" ", "07", "\n");
    assert " 07\n" == " " + "07" + "\n";
    StripUnchanged("07");
    assert "07"[..1] == "0" && DigitsValue("0") == 0;
    assert DigitsValue("07") == 7;
  }

  /** Space inside the digits, a lone sign and a doubled sign are errors. */
  lemma ParseIntRejectsExamples()
    ensures ParseInt("5 5") == None && ParseInt("+") == None && ParseInt("+-5") == None
  {
    StripUnchanged("5 5");
    assert "5 5"[1] == ' ' && !IsDigit(' ');
    StripUnchanged("+-5");
    assert "+-5"[1..] == "-5";
  }

  /** The empty setting, which is what the add-on host returns for an unknown name, is not a number. */
  lemma ParseIntEmpty()
    ensures ParseInt("") == None
  {
  }
}
