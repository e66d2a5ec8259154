/**
 Which texts the reader takes for numbers, said of the text, and what whole numbers they are.
 */
module YamlNumbers {
  import opened Wrappers
  import opened YamlText
  import opened YamlScalar
  import opened YamlEmitter
  import opened YamlPlain

  /** The reader knows ASCII digits only. */
  function Ascii(): Unicode {
    Unicode(c => false, c => false)
  }

  /** A sign up to `a`, digits and underscores up to `b`, a point and digits up to `c`, and an exponent. There are
      digits in front, or behind the point. */
  ghost predicate IsFloatAt(s: string, a: nat, b: nat, c: nat) {
    && a <= b <= c <= |s| && IsSign(s[..a]) && (a < b || b + 1 < c)
    && (a < b ==> IsDigit(s[a])) && DigitsOrUnderscores(s[a..b], Ascii())
    && (b == c || (s[b] == '.' && DigitChars(s[b + 1..c], Ascii())))
    && (c == |s| || IsExponentText(s[c..], Ascii()))
  }

  /** A sign, and 0 or digits and underscores that do not start with 0. */
  predicate IsIntAt(s: string, a: nat) {
    && a < |s| && IsSign(s[..a])
    && (s[a..] == "0" || (IsDigit(s[a]) && s[a] != '0' && DigitsOrUnderscores(s[a..], Ascii())))
  }

  lemma AsciiDigits(s: string)
    ensures forall c :: IsAnyDigit(c, Ascii()) <==> IsDigit(c)
    ensures DigitChars(s, Ascii()) <==> AllDigits(s)
    ensures DigitsOrUnderscores(s, Ascii()) <==> AllDigitsOrUnderscores(s)
  {
    forall c ensures CountsAsDigit(c, Ascii()) <==> IsDigit(c) {
    }
  }

  lemma {:induction false} AsciiRun(s: string, underscores: bool)
    ensures Run(s, underscores) == DigitRun(s, underscores, Ascii())
  {
    hide IsAnyDigit;
    AsciiDigits(s);
    if s != "" {
      AsciiRun(s[1..], underscores);
    }
  }

  lemma AsciiExponent(s: string)
    ensures IsExponent(s) <==> s == "" || IsExponentText(s, Ascii())
  {
    hide IsExponentText, DigitRun, DropSign, AllDigits;
    ExponentIs(s, Ascii());
    if s != "" {
      AllDigitsRun(DropSign(s[1..]));
    }
  }

  lemma AllDigitsRun(t: string)
    ensures AllDigits(t) <==> DigitRun(t, false, Ascii()) == |t|
  {
    hide DigitRun, IsAnyDigit;
    AsciiDigits(t);
    RunIs(t, false, Ascii());
    if AllDigits(t) {
      RunEnds(t, false, Ascii(), |t|);
    }
  }

  /** What the reader takes for a float, or for a whole number it does not take for an integer. */
  lemma FloatsAre(s: string)
    ensures IsFloat(s) <==> exists a, b, c :: IsFloatAt(s, a, b, c)
  {
    hide IsFloat, IsFloatAt;
    if IsFloat(s) {
      FloatParts(s);
    }
    if a, b, c :| IsFloatAt(s, a, b, c) {
      PartsAreFloat(s, a, b, c);
    }
  }

  lemma FloatParts(s: string)
    requires IsFloat(s)
    ensures exists a, b, c :: IsFloatAt(s, a, b, c)
  {
    hide IsFloat, IsFloatAt, DropSign;
    assert DropSign(s) != "" by { FloatHasText(s); }
    if DropSign(s)[0] == '.' {
      PointParts(s);
    } else {
      DigitParts(s);
    }
  }

  lemma FloatHasText(s: string)
    requires IsFloat(s)
    ensures DropSign(s) != ""
  {
  }

  lemma PointParts(s: string)
    requires IsFloat(s) && DropSign(s) != "" && DropSign(s)[0] == '.'
    ensures exists a, b, c :: IsFloatAt(s, a, b, c)
  {
    hide IsAnyDigit, DigitRun, Run, DigitChars, DigitsOrUnderscores, IsSign, IsExponent, IsExponentText;
    var t := DropSign(s);
    var a := |s| - |t|;
    assert t == s[a..] && t[1..] == s[a + 1..];
    SignIs(s, a);
    AsciiRun(t[1..], false);
    var c := a + 1 + Run(t[1..], false);
    FractionParts(s, Ascii(), a, c);
    assert t[c - a..] == s[c..];
    AsciiExponent(s[c..]);
    NoDigitsInNothing(s, a);
    assert IsFloatAt(s, a, a, c);
  }

  lemma DigitParts(s: string)
    requires IsFloat(s) && DropSign(s) != "" && DropSign(s)[0] != '.'
    ensures exists a, b, c :: IsFloatAt(s, a, b, c)
  {
    hide IsAnyDigit, DigitRun, Run, DigitChars, DigitsOrUnderscores, IsSign, IsExponent, IsExponentText, DropSign;
    var t := DropSign(s);
    AsciiDigits(s);
    AsciiRun(t, true);
    var a, b := WholeParts(s, Ascii());
    var n := Run(t, true);
    assert t[n..] == s[b..];
    assert s[a..a + 1][0] == s[a] && IsDigit(s[a]) by { AsciiDigits(s[a..a + 1]); }
    if n < |t| && t[n] == '.' {
      assert s[b] == s[b..][0] == t[n..][0];
      assert t[n..][1..] == t[n + 1..] && s[b..][1..] == s[b + 1..];
      AsciiRun(t[n + 1..], false);
      var c := b + 1 + Run(t[n + 1..], false);
      FractionParts(s, Ascii(), b, c);
      assert t[n..][c - b..] == t[n + (c - b)..] && s[b..][c - b..] == s[c..];
      AsciiExponent(s[c..]);
      assert IsFloatAt(s, a, b, c);
    } else {
      AsciiExponent(s[b..]);
      assert IsFloatAt(s, a, b, b);
    }
  }

  lemma NoDigitsInNothing(s: string, a: nat)
    requires a <= |s|
    ensures DigitsOrUnderscores(s[a..a], Ascii())
  {
  }

  lemma PartsAreFloat(s: string, a: nat, b: nat, c: nat)
    requires IsFloatAt(s, a, b, c)
    ensures IsFloat(s)
  {
    hide IsAnyDigit, DigitRun, Run, DigitChars, DigitsOrUnderscores, IsSign, IsExponent, IsExponentText, DropSign;
    AsciiDigits(s);
    AsciiExponent(s[c..]);
    ExponentStarts(s[c..], Ascii());
    assert c < |s| ==> s[c..][0] == s[c];
    var t := s[a..];
    if a < b {
      FirstDigit(s, a);
      WholeRun(s, Ascii(), a, b);
      AsciiRun(t, true);
      assert t[b - a..] == s[b..];
    } else {
      SignedPoint(s, a);
    }
    if b < c {
      FractionRun(s, Ascii(), b, c);
      assert t[b - a + 1..] == s[b + 1..] && s[b + 1..][c - b - 1..] == s[c..];
      AsciiRun(s[b + 1..], false);
      assert t[1 + (b - a) + (c - b - 1)..] == s[c..];
    }
  }

  lemma FirstDigit(s: string, a: nat)
    requires a < |s| && IsDigit(s[a])
    ensures DigitChars(s[a..a + 1], Ascii())
  {
  }

  lemma SignedPoint(s: string, a: nat)
    requires a < |s| && IsSign(s[..a]) && s[a] == '.'
    ensures DropSign(s) == s[a..]
  {
    SignIs(s, a);
  }

  /** What the reader takes for an integer. */
  lemma IntsAre(s: string)
    ensures IsInt(s) <==> exists a :: IsIntAt(s, a)
  {
    hide IsSign, DigitsOrUnderscores, AllDigitsOrUnderscores;
    var t := DropSign(s);
    var n := |s| - |t|;
    assert t == s[n..];
    SignIs(s, n);
    AsciiDigits(t);
    if IsInt(s) {
      assert IsIntAt(s, n);
    }
    if a: nat :| IsIntAt(s, a) {
      SignIs(s, a);
      assert s[a..][0] == s[a];
      assert a == n;
    }
  }

  /** An integer is read as the number that its digits stand for, with underscores passed over and a plus sign or
      none. */
  lemma IntsRead(s: string, n: int)
    requires IsInt(s)
    requires WithoutUnderscores(s) == IntText(n) || (n >= 0 && WithoutUnderscores(s) == ['+'] + IntText(n))
    ensures Scalar(s) == Ok(Int(n))
  {
    hide IntText, WithoutUnderscores, IsFloat, HalveQuotes, UnterminatedFrom, Unescaped, IsInt, Strip;
    NoBlankInInt(s);
    StripTrimmed(s);
    IntReadsBack(n);
    if WithoutUnderscores(s) != IntText(n) {
      PlusReads(n);
    }
    IntIsNoWord(s);
  }

  lemma NoBlankInInt(s: string)
    requires IsInt(s)
    ensures Trimmed(s) && BeforeDollar(s) == s
    ensures s[0] != '"' && s[0] != '\'' && s[0] != '[' && s[0] != '{'
  {
    var t := DropSign(s);
    assert t != "" && s[|s| - 1] == t[|t| - 1];
  }

  lemma IntIsNoWord(s: string)
    requires IsInt(s)
    ensures s != "null" && s != "Null" && s != "NULL" && s != "~" && s != "true" && s != "True" && s != "TRUE"
    ensures s != "false" && s != "False" && s != "FALSE"
  {
  }

  lemma PlusReads(n: int)
    requires n >= 0
    ensures ParseInt(['+'] + IntText(n)) == n
  {
    var digits := NaturalText(n);
    assert IsDigit(digits[0]);
    assert (['+'] + digits)[1..] == digits;
  }

  // --- single-quoted texts -----------------------------------------------------------------------------------------

  lemma {:induction false} DoubledEnds(p: string, s: string, q: string)
    requires q == "" || q == "'"
    ensures UnterminatedFrom(p + DoubleQuotes(s) + q, '\'', |p|) <==> q == ""
    decreases |s|
  {
    var t := p + DoubleQuotes(s) + q;
    if s != "" {
      var e := if s[0] == '\'' then ['\'', '\''] else [s[0]];
      assert t == (p + e) + DoubleQuotes(s[1..]) + q;
      assert t[|p|] == e[0] && (s[0] == '\'' ==> t[|p| + 1] == '\'');
      DoubledEnds(p + e, s[1..], q);
    }
  }

  /** A single-quoted text is taken to end exactly at the quote that is not doubled; without that quote it goes on. */
  lemma SingleQuotesEnd(s: string)
    ensures !UnterminatedFrom(['\''] + DoubleQuotes(s) + ['\''], '\'', 1)
    ensures UnterminatedFrom(['\''] + DoubleQuotes(s), '\'', 1)
  {
    DoubledEnds(['\''], s, "'");
    DoubledEnds(['\''], s, "");
    assert ['\''] + DoubleQuotes(s) + "" == ['\''] + DoubleQuotes(s);
  }
}
