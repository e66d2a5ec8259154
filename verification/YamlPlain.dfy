/**
 Which strings the emitter leaves without quotes, said of the text: the characters it takes for harmless, and what looks
 like a number or a word with a meaning.
 */
module YamlPlain {
  import opened YamlText
  import opened YamlScalar
  import opened YamlEmitter

  // --- characters --------------------------------------------------------------------------------------------------

  /** Letters and digits by their codes. */
  predicate IsSmallLetter(c: char) {
    97 <= c as int <= 122
  }

  predicate IsCapital(c: char) {
    65 <= c as int <= 90
  }

  predicate CountsAsDigit(c: char, u: Unicode) {
    48 <= c as int <= 57 || (c as int >= 128 && u.digit(c))
  }

  /** A letter, digit or underscore, or what counts as a word character beyond ASCII. */
  predicate WordChar(c: char, u: Unicode) {
    || IsSmallLetter(c) || IsCapital(c) || 48 <= c as int <= 57 || c as int == 95
    || (c as int >= 128 && u.word(c))
  }

  /** The ASCII characters a string may have, and start with, to go plain; and a key. */
  lemma PlainCharacters(c: char, u: Unicode)
    ensures IsPlainChar(c, u) <==> WordChar(c, u) || c in " ./@%+:-"
    ensures IsPlainMark(c) <==> c in "./@%+-"
    ensures IsWord(c, u) <==> WordChar(c, u)
  {
  }

  // --- words -------------------------------------------------------------------------------------------------------

  /** The same letters, small or capital; `word` is in small ones. */
  predicate InAnyCapitals(s: string, word: string) {
    |s| == |word| && forall i :: 0 <= i < |s| ==> s[i] == word[i] || IsCapitalOf(s[i], word[i])
  }

  predicate IsCapitalOf(c: char, small: char) {
    IsCapital(c) && small as int - c as int == 32
  }

  predicate IsSmall(word: string) {
    forall i :: 0 <= i < |word| ==> !IsCapital(word[i])
  }

  lemma CapitalIs(c: char, small: char)
    requires !IsCapital(small)
    ensures LowerChar(c) == small <==> c == small || IsCapitalOf(c, small)
  {
  }

  lemma LowerIs(s: string, word: string)
    requires IsSmall(word)
    ensures Lower(s) == word <==> InAnyCapitals(s, word)
  {
    hide LowerChar, IsCapitalOf;
    forall i | 0 <= i < |s| && i < |word|
      ensures LowerChar(s[i]) == word[i] <==> s[i] == word[i] || IsCapitalOf(s[i], word[i])
    {
      CapitalIs(s[i], word[i]);
    }
    if InAnyCapitals(s, word) {
      assert forall i :: 0 <= i < |s| ==> Lower(s)[i] == word[i];
    }
    if Lower(s) == word {
      assert forall i :: 0 <= i < |s| ==> LowerChar(s[i]) == word[i];
    }
  }

  /** A word with a meaning to some reader of YAML, in any capitals. */
  predicate HasMeaning(s: string) {
    || InAnyCapitals(s, "true") || InAnyCapitals(s, "false") || InAnyCapitals(s, "null")
    || InAnyCapitals(s, "yes") || InAnyCapitals(s, "no") || InAnyCapitals(s, "on")
    || InAnyCapitals(s, "off") || s == "~" || s == ""
  }

  /** The words that always get quotes. */
  lemma ReservedWords(s: string)
    ensures IsReserved(s) <==> HasMeaning(s)
  {
    hide InAnyCapitals, Lower;
    LowerIs(s, "true");
    LowerIs(s, "false");
    LowerIs(s, "null");
    LowerIs(s, "yes");
    LowerIs(s, "no");
    LowerIs(s, "on");
    LowerIs(s, "off");
    LowerOfMark(s);
  }

  lemma LowerOfMark(s: string)
    ensures (Lower(s) == "~" <==> s == "~") && (Lower(s) == "" <==> s == "")
  {
    if |s| == 1 {
      assert Lower(s) == [LowerChar(s[0])] && s == [s[0]];
    }
  }

  // --- numbers -----------------------------------------------------------------------------------------------------

  predicate DigitChars(s: string, u: Unicode) {
    forall i :: 0 <= i < |s| ==> CountsAsDigit(s[i], u)
  }

  predicate DigitsOrUnderscores(s: string, u: Unicode) {
    forall i :: 0 <= i < |s| ==> CountsAsDigit(s[i], u) || s[i] == '_'
  }

  predicate IsSign(s: string) {
    s == "" || s == "-" || s == "+"
  }

  /** `e` or `E`, perhaps a sign, and digits. */
  ghost predicate IsExponentText(s: string, u: Unicode) {
    && s != "" && (s[0] == 'e' || s[0] == 'E')
    && exists k :: 1 <= k < |s| && IsSign(s[1..k]) && DigitChars(s[k..], u)
  }

  /** A sign up to `a`, digits and underscores up to `b`, a fraction up to `c`, and an exponent; all but the digits may
      be missing. */
  ghost predicate IsNumberAt(s: string, u: Unicode, a: nat, b: nat, c: nat) {
    && a < b <= c <= |s| && IsSign(s[..a])
    && DigitChars(s[a..a + 1], u) && DigitsOrUnderscores(s[a..b], u)
    && (b == c || (b + 1 < c && s[b] == '.' && DigitChars(s[b + 1..c], u)))
    && (c == |s| || IsExponentText(s[c..], u))
  }

  lemma DigitIs(c: char, u: Unicode)
    ensures IsAnyDigit(c, u) <==> CountsAsDigit(c, u)
  {
  }

  /** The run ends at the first character that is no digit. */
  lemma {:induction false} RunEnds(s: string, underscores: bool, u: Unicode, n: nat)
    requires n <= |s|
    requires forall i :: 0 <= i < n ==> IsAnyDigit(s[i], u) || (underscores && s[i] == '_')
    requires n < |s| ==> !(IsAnyDigit(s[n], u) || (underscores && s[n] == '_'))
    ensures DigitRun(s, underscores, u) == n
    decreases n
  {
    if n > 0 {
      RunEnds(s[1..], underscores, u, n - 1);
    }
  }

  lemma {:induction false} RunIs(s: string, underscores: bool, u: Unicode)
    ensures var n := DigitRun(s, underscores, u);
            && (forall i :: 0 <= i < n ==> IsAnyDigit(s[i], u) || (underscores && s[i] == '_'))
            && (n < |s| ==> !(IsAnyDigit(s[n], u) || (underscores && s[n] == '_')))
  {
    hide IsAnyDigit;
    if s != "" && (IsAnyDigit(s[0], u) || (underscores && s[0] == '_')) {
      RunIs(s[1..], underscores, u);
    }
  }

  lemma CharsAreDigits(s: string, u: Unicode)
    ensures DigitChars(s, u) <==> forall i :: 0 <= i < |s| ==> IsAnyDigit(s[i], u)
    ensures DigitsOrUnderscores(s, u) <==> forall i :: 0 <= i < |s| ==> IsAnyDigit(s[i], u) || s[i] == '_'
  {
    hide IsAnyDigit, CountsAsDigit;
    forall c ensures IsAnyDigit(c, u) <==> CountsAsDigit(c, u) {
      DigitIs(c, u);
    }
  }

  lemma SignIs(s: string, k: nat)
    requires k <= |s|
    ensures IsSign(s[..k]) <==> k == 0 || (k == 1 && (s[0] == '-' || s[0] == '+'))
  {
    if k == 1 {
      assert s[..k] == [s[0]];
    }
  }

  /** No sign, dot or `e` is a digit. */
  lemma NoDigits(u: Unicode)
    ensures !IsAnyDigit('-', u) && !IsAnyDigit('+', u) && !IsAnyDigit('.', u) && !IsAnyDigit('e', u)
    ensures !IsAnyDigit('E', u) && !IsAnyDigit('_', u)
  {
  }

  /** Behind its sign the text is digits and nothing else. */
  lemma SignedDigits(t: string, u: Unicode)
    ensures (DropSign(t) != "" && DigitRun(DropSign(t), false, u) == |DropSign(t)|) <==>
              exists k :: 0 <= k < |t| && IsSign(t[..k]) && DigitChars(t[k..], u)
  {
    hide IsAnyDigit, DigitRun, DigitChars, IsSign;
    NoDigits(u);
    var d := DropSign(t);
    var n := |t| - |d|;
    assert d == t[n..];
    SignIs(t, n);
    RunIs(d, false, u);
    CharsAreDigits(d, u);
    if k :| 0 <= k < |t| && IsSign(t[..k]) && DigitChars(t[k..], u) {
      SignIs(t, k);
      CharsAreDigits(t[k..], u);
      assert IsAnyDigit(t[k..][0], u);
      assert k == n;
      RunEnds(d, false, u, |d|);
    }
  }

  lemma ExponentIs(s: string, u: Unicode)
    ensures LooksLikeExponent(s, u) <==> s == "" || IsExponentText(s, u)
  {
    hide DropSign, DigitRun, IsSign, DigitChars;
    if s != "" {
      var t := s[1..];
      SignedDigits(t, u);
      if k :| 0 <= k < |t| && IsSign(t[..k]) && DigitChars(t[k..], u) {
        assert s[1..k + 1] == t[..k] && s[k + 1..] == t[k..];
      }
      if k :| 1 <= k < |s| && IsSign(s[1..k]) && DigitChars(s[k..], u) {
        assert t[..k - 1] == s[1..k] && t[k - 1..] == s[k..];
      }
    }
  }

  /** A string looks like a number exactly if it is one in parts: sign, digits, fraction and exponent. */
  lemma NumbersAre(s: string, u: Unicode)
    ensures LooksNumber(s, u) <==> exists a, b, c :: IsNumberAt(s, u, a, b, c)
  {
    hide LooksNumber, IsNumberAt;
    if LooksNumber(s, u) {
      NumberParts(s, u);
    }
    if a, b, c :| IsNumberAt(s, u, a, b, c) {
      PartsAreNumber(s, u, a, b, c);
    }
  }

  lemma WholeParts(s: string, u: Unicode) returns (a: nat, b: nat)
    requires DropSign(s) != "" && IsAnyDigit(DropSign(s)[0], u)
    ensures a < b <= |s| && IsSign(s[..a]) && DigitChars(s[a..a + 1], u) && DigitsOrUnderscores(s[a..b], u)
    ensures DropSign(s)[DigitRun(DropSign(s), true, u)..] == s[b..]
  {
    hide IsAnyDigit, DigitRun, DigitChars, DigitsOrUnderscores, IsSign;
    var t := DropSign(s);
    var n := DigitRun(t, true, u);
    a, b := |s| - |t|, |s| - |t| + n;
    assert t == s[a..];
    SignIs(s, a);
    RunIs(t, true, u);
    assert s[a..b] == t[..n] && s[a..a + 1] == t[..1];
    CharsAreDigits(s[a..b], u);
    CharsAreDigits(s[a..a + 1], u);
  }

  lemma FractionParts(s: string, u: Unicode, b: nat, c: nat)
    requires b < |s| && c == b + 1 + DigitRun(s[b + 1..], false, u)
    ensures DigitChars(s[b + 1..c], u)
  {
    hide IsAnyDigit, DigitRun, DigitChars;
    var t := s[b + 1..];
    RunIs(t, false, u);
    assert s[b + 1..c] == t[..c - b - 1];
    CharsAreDigits(s[b + 1..c], u);
  }

  lemma NumberParts(s: string, u: Unicode)
    requires LooksNumber(s, u)
    ensures exists a, b, c :: IsNumberAt(s, u, a, b, c)
  {
    hide IsAnyDigit, DigitRun, DigitChars, DigitsOrUnderscores, IsSign, LooksLikeExponent, IsExponentText, DropSign;
    var a, b := WholeParts(s, u);
    var rest := s[b..];
    ExponentIs(rest, u);
    if LooksLikeExponent(rest, u) {
      assert IsNumberAt(s, u, a, b, b);
    } else {
      assert rest[1..] == s[b + 1..];
      var c := b + 1 + DigitRun(s[b + 1..], false, u);
      FractionParts(s, u, b, c);
      ExponentIs(s[c..], u);
      assert rest[c - b..] == s[c..];
      assert IsNumberAt(s, u, a, b, c);
    }
  }

  /** The digits end where the fraction or exponent starts. */
  lemma WholeRun(s: string, u: Unicode, a: nat, b: nat)
    requires a < b <= |s| && IsSign(s[..a]) && DigitChars(s[a..a + 1], u) && DigitsOrUnderscores(s[a..b], u)
    requires b < |s| ==> s[b] == '.' || s[b] == 'e' || s[b] == 'E'
    ensures DropSign(s) == s[a..] && IsAnyDigit(s[a], u) && DigitRun(s[a..], true, u) == b - a
  {
    hide IsAnyDigit, DigitRun, DigitChars, DigitsOrUnderscores, IsSign;
    NoDigits(u);
    SignIs(s, a);
    CharsAreDigits(s[a..a + 1], u);
    CharsAreDigits(s[a..b], u);
    assert s[a..a + 1][0] == s[a];
    var t := s[a..];
    assert forall i :: 0 <= i < b - a ==> t[i] == s[a..b][i];
    RunEnds(t, true, u, b - a);
  }

  lemma FractionRun(s: string, u: Unicode, b: nat, c: nat)
    requires b + 1 <= c <= |s| && DigitChars(s[b + 1..c], u) && (c < |s| ==> s[c] == 'e' || s[c] == 'E')
    ensures DigitRun(s[b + 1..], false, u) == c - b - 1
  {
    hide IsAnyDigit, DigitRun, DigitChars;
    NoDigits(u);
    CharsAreDigits(s[b + 1..c], u);
    var t := s[b + 1..];
    assert forall i :: 0 <= i < c - b - 1 ==> t[i] == s[b + 1..c][i];
    RunEnds(t, false, u, c - b - 1);
  }

  lemma PartsAreNumber(s: string, u: Unicode, a: nat, b: nat, c: nat)
    requires IsNumberAt(s, u, a, b, c)
    ensures LooksNumber(s, u)
  {
    hide IsAnyDigit, DigitRun, DigitChars, DigitsOrUnderscores, IsSign, LooksLikeExponent, IsExponentText, DropSign;
    ExponentIs(s[c..], u);
    ExponentStarts(s[c..], u);
    assert c < |s| ==> s[c..][0] == s[c];
    WholeRun(s, u, a, b);
    var rest := s[a..][b - a..];
    assert rest == s[b..];
    if b < c {
      FractionRun(s, u, b, c);
      assert rest[1..] == s[b + 1..] && rest[1 + (c - b - 1)..] == s[c..];
    }
  }

  lemma ExponentStarts(s: string, u: Unicode)
    ensures IsExponentText(s, u) ==> s != "" && (s[0] == 'e' || s[0] == 'E')
  {
  }

  // --- whole strings -----------------------------------------------------------------------------------------------

  predicate StartsPlain(c: char) {
    IsSmallLetter(c) || IsCapital(c) || 48 <= c as int <= 57 || c as int == 95 || c in "./@%+-"
  }

  /** A string goes out without quotes exactly if its characters are harmless, it is no number and no word with a
      meaning, and no colon in it ends a key. One line break at its end is not looked at. */
  lemma PlainStrings(s: string, u: Unicode)
    ensures GoesPlain(s, u) <==>
              var body := BeforeDollar(s);
              && body != "" && StartsPlain(body[0])
              && (forall i :: 0 <= i < |body| ==> WordChar(body[i], u) || body[i] in " ./@%+:-")
              && !HasMeaning(s) && !(exists a, b, c :: IsNumberAt(s, u, a, b, c))
              && s[|s| - 1] != ':' && forall i :: 0 <= i < |s| - 1 ==> !(s[i] == ':' && s[i + 1] == ' ')
  {
    hide LooksNumber, IsReserved, HasMeaning, IsNumberAt, IsPlainChar, WordChar;
    ReservedWords(s);
    NumbersAre(s, u);
    forall c ensures IsPlainChar(c, u) <==> WordChar(c, u) || c in " ./@%+:-" {
      PlainCharacters(c, u);
    }
  }

  /** A key goes out without quotes exactly if it starts with an ASCII letter or an underscore and goes on in word
      characters, dots and hyphens. */
  lemma PlainKeys(k: string, u: Unicode)
    ensures KeyText(k, u) == (var body := BeforeDollar(k);
                              if body != "" && (IsSmallLetter(body[0]) || IsCapital(body[0]) || body[0] == '_') &&
                                 forall i :: 0 <= i < |body| ==> WordChar(body[i], u) || body[i] in ".-"
                              then k else Quoted(k, true))
  {
    hide Quoted, WordChar, IsWord;
    forall c ensures IsWord(c, u) <==> WordChar(c, u) {
      PlainCharacters(c, u);
    }
  }
}
