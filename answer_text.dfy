/**
 The correct answer of a drill problem and the text it is compared against.

 The application compares the typed entry with `str(correct_answer)`, so the
 answer's printed form is part of its meaning: an `int` answer prints as a
 plain numeral ("81"), a float answer (always a quotient rounded to two
 decimal places) prints with a point and one or two fraction digits ("2.0",
 "1.5", "0.33"). `Read` recognises exactly those texts and gives back the
 answer, which makes "the entry equals the printed answer" a statement about
 numbers.
 */
module AnswerText {

  datatype Option<T> = None | Some(value: T)

  /** A correct answer: an integer for +, - and ×, a float for ÷. The float is
      kept exactly, as a whole number of hundredths. */
  datatype Answer = Int(n: nat) | Float(hundredths: nat)

  predicate IsDigit(c: char) {
    '0' <= c <= '9'
  }

  function DigitChar(d: nat): (c: char)
    requires d < 10
    ensures IsDigit(c)
  {
    ('0' as int + d) as char
  }

  function DigitValue(c: char): (d: nat)
    requires IsDigit(c)
    ensures d < 10
  {
    c as int - '0' as int
  }

  /** The character of a digit has that digit as its value. */
  lemma DigitCharValue(d: nat)
    requires d < 10
    ensures DigitValue(DigitChar(d)) == d
  {
  }

  /** A digit character is the character of its value. */
  lemma DigitValueChar(c: char)
    requires IsDigit(c)
    ensures DigitChar(DigitValue(c)) == c
  {
  }

  predicate AllDigits(s: string) {
    forall i :: 0 <= i < |s| ==> IsDigit(s[i])
  }

  /** A decimal numeral as `str` writes a non-negative int: at least one
      digit, and no leading zero unless the numeral is "0". */
  predicate IsNumeral(s: string) {
    |s| >= 1 && AllDigits(s) && (|s| > 1 ==> s[0] != '0')
  }

  /** `str(n)` for a non-negative int. */
  function NatText(n: nat): (s: string)
    ensures |s| >= 1 && AllDigits(s)
  {
    if n < 10 then [DigitChar(n)] else NatText(n / 10) + [DigitChar(n % 10)]
  }

  /** The number a string of decimal digits denotes. */
  function DigitsValue(s: string): nat
    requires AllDigits(s)
  {
    if s == [] then 0 else DigitsValue(s[..|s| - 1]) * 10 + DigitValue(s[|s| - 1])
  }

  lemma {:induction false} LeadingDigitPositive(s: string)
    requires |s| >= 1 && AllDigits(s) && s[0] != '0'
    ensures DigitsValue(s) >= 1
    ensures |s| > 1 ==> DigitsValue(s) >= 10
  {
    if |s| > 1 {
      LeadingDigitPositive(s[..|s| - 1]);
    } else {
      assert DigitsValue(s) == DigitValue(s[0]);
    }
  }

  /** `str(n)` is a numeral, and it denotes n. */
  lemma {:induction false} NatTextIsNumeral(n: nat)
    ensures IsNumeral(NatText(n)) && DigitsValue(NatText(n)) == n
  {
    var s := NatText(n);
    if n < 10 {
      assert DigitsValue(s) == DigitsValue([]) * 10 + DigitValue(s[0]);
    } else {
      var t := NatText(n / 10);
      NatTextIsNumeral(n / 10);
      assert s[..|s| - 1] == t;
      if |t| == 1 {
        assert DigitsValue(t) == DigitsValue([]) * 10 + DigitValue(t[0]);
      }
      assert s[0] == t[0];
    }
  }

  /** Every numeral is `str` of the number it denotes. */
  lemma {:induction false} NumeralIsNatText(s: string)
    requires IsNumeral(s)
    ensures NatText(DigitsValue(s)) == s
  {
    var v := DigitsValue(s);
    if |s| == 1 {
      assert s[..0] == [];
      assert v == DigitsValue(s[..0]) * 10 + DigitValue(s[0]);
      DigitValueChar(s[0]);
      assert NatText(v) == [DigitChar(v)];
    } else {
      var p := s[..|s| - 1];
      assert p[0] == s[0];
      LeadingDigitPositive(s);
      NumeralIsNatText(p);
      assert v / 10 == DigitsValue(p) && v % 10 == DigitValue(s[|s| - 1]);
      DigitValueChar(s[|s| - 1]);
      assert NatText(v) == p + [s[|s| - 1]];
    }
  }

  /** The digits after the point of a float with `f` hundredths past the
      whole part: trailing zeros dropped, but at least one digit kept. */
  function FractionText(f: nat): (t: string)
    requires f < 100
    ensures 1 <= |t| <= 2
  {
    if f % 10 == 0 then [DigitChar(f / 10)] else [DigitChar(f / 10), DigitChar(f % 10)]
  }

  /** `str(correct_answer)`: "81" for an int, "<whole>.<fraction>" for a
      float; only a float prints with a point. */
  function Text(a: Answer): (t: string)
    ensures '.' in t <==> a.Float?
  {
    match a
    case Int(n) => NatText(n)
    case Float(h) => NatText(h / 100) + "." + FractionText(h % 100)
  }

  /** The fraction digits a printed float can end with. */
  predicate IsFraction(t: string) {
    AllDigits(t) && (|t| == 1 || (|t| == 2 && t[1] != '0'))
  }

  function FractionValue(t: string): (f: nat)
    requires IsFraction(t)
    ensures f < 100
  {
    if |t| == 1 then 10 * DigitValue(t[0]) else 10 * DigitValue(t[0]) + DigitValue(t[1])
  }

  function ReadFloat(whole: string, fraction: string): Option<Answer> {
    if IsNumeral(whole) && IsFraction(fraction)
    then Some(Float(DigitsValue(whole) * 100 + FractionValue(fraction)))
    else None
  }

  /** The answer whose printed form is `s`, if there is one. */
  function Read(s: string): Option<Answer> {
    if |s| >= 2 && s[|s| - 2] == '.' then ReadFloat(s[..|s| - 2], s[|s| - 1..])
    else if |s| >= 3 && s[|s| - 3] == '.' then ReadFloat(s[..|s| - 3], s[|s| - 2..])
    else if IsNumeral(s) then Some(Int(DigitsValue(s)))
    else None
  }

  /** The fraction digits of a float read back as its hundredths. */
  lemma ReadFractionText(f: nat)
    requires f < 100
    ensures IsFraction(FractionText(f)) && FractionValue(FractionText(f)) == f
  {
    DigitCharValue(f / 10);
    DigitCharValue(f % 10);
  }

  /** A numeral, a point and one or two digits go to `ReadFloat`. */
  lemma ReadPointed(w: string, f: string)
    requires IsNumeral(w) && 1 <= |f| <= 2 && AllDigits(f)
    ensures Read(w + "." + f) == ReadFloat(w, f)
  {
    var s := w + "." + f;
    if |f| == 1 {
      assert s[..|s| - 2] == w && s[|s| - 1..] == f;
    } else {
      assert s[|s| - 2] == f[0];
      assert s[..|s| - 3] == w && s[|s| - 2..] == f;
    }
  }

  /** Reading the printed form of an answer gives that answer back. */
  lemma ReadText(a: Answer)
    ensures Read(Text(a)) == Some(a)
  {
    match a
    case Int(n) =>
      var s := NatText(n);
      NatTextIsNumeral(n);
      assert |s| >= 2 ==> IsDigit(s[|s| - 2]);
      assert |s| >= 3 ==> IsDigit(s[|s| - 3]);
    case Float(h) =>
      NatTextIsNumeral(h / 100);
      ReadFractionText(h % 100);
      ReadPointed(NatText(h / 100), FractionText(h % 100));
  }

  /** A whole part and fraction digits that `ReadFloat` accepts are exactly
      how the float it returns prints. */
  lemma TextReadFloat(w: string, f: string)
    requires ReadFloat(w, f).Some?
    ensures Text(ReadFloat(w, f).value) == w + "." + f
  {
    NumeralIsNatText(w);
    var h := DigitsValue(w) * 100 + FractionValue(f);
    assert h / 100 == DigitsValue(w) && h % 100 == FractionValue(f);
    DigitValueChar(f[0]);
    if |f| == 2 {
      DigitValueChar(f[1]);
    }
    assert FractionText(h % 100) == f;
  }

  /** Whatever `Read` accepts is exactly the printed form of what it returns. */
  lemma TextRead(s: string)
    requires Read(s).Some?
    ensures Text(Read(s).value) == s
  {
    if |s| >= 2 && s[|s| - 2] == '.' {
      TextReadFloat(s[..|s| - 2], s[|s| - 1..]);
      assert s == s[..|s| - 2] + "." + s[|s| - 1..];
    } else if |s| >= 3 && s[|s| - 3] == '.' {
      TextReadFloat(s[..|s| - 3], s[|s| - 2..]);
      assert s == s[..|s| - 3] + "." + s[|s| - 2..];
    } else {
      NumeralIsNatText(s);
    }
  }

  /** The entry matches the printed answer exactly when it reads back as that
      answer; in particular two different answers never print alike. */
  lemma MatchesIffReadsAs(s: string, a: Answer)
    ensures s == Text(a) <==> Read(s) == Some(a)
  {
    ReadText(a);
    if Read(s) == Some(a) {
      TextRead(s);
    }
  }

  lemma TextInjective(a: Answer, b: Answer)
    requires Text(a) == Text(b)
    ensures a == b
  {
    ReadText(a);
    ReadText(b);
  }

  /** How division answers below 1 print. */
  lemma FractionTextExamples()
    ensures Text(Float(12)) == "0.12" && Text(Float(8)) == "0.08" && Text(Float(50)) == "0.5"
  {
  }

  /** How division answers of 1 or more print. */
  lemma FloatTextExamples()
    ensures Text(Float(175)) == "1.75" && Text(Float(150)) == "1.5" && Text(Float(200)) == "2.0"
  {
  }
}
