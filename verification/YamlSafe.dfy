/**
 The safe fragment: which strings and keys read back, stated on the strings themselves, and the round trip
 for every document over them. Outside it, concrete documents that do not come back.
 */
module YamlSafe {
  import opened Wrappers
  import opened YamlText
  import opened YamlScalar
  import opened YamlReader
  import opened YamlEmitter
  import opened YamlLayout
  import opened YamlDocument

  predicate IsKeyword(s: string) {
    || s == "null" || s == "Null" || s == "NULL" || s == "~"
    || s == "true" || s == "True" || s == "TRUE" || s == "false" || s == "False" || s == "FALSE"
  }

  /** A string that goes out plain and is safe so behind a key: no blank or line break at its end, no number. */
  predicate IsSafePlainInEntry(s: string, u: Unicode) {
    IsPlainBody(s, u) && s[|s| - 1] != ' ' && !IsFloat(s)
  }

  /** Behind a dash it must not be a dash again. */
  predicate IsSafePlain(s: string, u: Unicode) {
    IsSafePlainInEntry(s, u) && !IsDash(s)
  }

  /** A string that is safe in quotes behind a key: the comment scan gets through its text, and nothing in it looks like
      a tag. */
  predicate IsSafeQuotedInEntry(s: string) {
    var t := Quoted(s, false);
    Scan(t, ' ', None).Through? && !HasTaggedValue(t)
  }

  /** Behind a dash the key splitter must find no key in it. */
  predicate IsSafeQuoted(s: string) {
    IsSafeQuotedInEntry(s) && SplitKey(Quoted(s, false)).None?
  }

  /** A key that is safe in quotes: no quotation mark, nothing in it looks like a tag, and no character beyond 16 bits,
      for keys are written in ASCII. */
  ghost predicate IsSafeQuotedKey(k: string) {
    '"' !in k && !HasTaggedValue(Quoted(k, true)) && !HasAstral(k)
  }

  predicate IsSafeString(s: string, u: Unicode) {
    if GoesPlain(s, u) then IsSafePlain(s, u) else IsSafeQuoted(s)
  }

  predicate IsSafeStringInEntry(s: string, u: Unicode) {
    if GoesPlain(s, u) then IsSafePlainInEntry(s, u) else IsSafeQuotedInEntry(s)
  }

  ghost predicate IsSafeKey(k: string, u: Unicode) {
    if IsKeyBody(BeforeDollar(k), u) then IsKeyBody(k, u) && !IsKeyword(k) else IsSafeQuotedKey(k)
  }

  /** Only the characters that `json.dumps` writes a finite number with. */
  predicate IsNumberText(s: string) {
    forall i :: 0 <= i < |s| ==> IsDigit(s[i]) || s[i] in {'.', 'e', 'E', '+', '-'}
  }

  /** The safe fragment: safe strings and keys, all integers and booleans, null, and plain decimal floats. */
  ghost predicate IsSafe(v: Value, u: Unicode)
    decreases v
  {
    match v
    case List(items) => forall i :: 0 <= i < |items| ==> IsSafe(items[i], u)
    case Dict(entries) =>
      && (forall i :: 0 <= i < |entries| ==> IsSafeEntry(entries[i], u))
      && (forall i, j :: 0 <= i < j < |entries| ==> entries[i].key != entries[j].key)
    case Str(s) => IsSafeString(s, u)
    case Float(digits) => IsFloat(digits) && !IsInt(digits) && IsNumberText(digits)
    case _ => true
  }

  ghost predicate IsSafeEntry(e: Pair, u: Unicode)
    decreases e
  {
    && e.key.Str? && IsSafeKey(e.key.s, u)
    && if e.value.Str? then IsSafeStringInEntry(e.value.s, u) else IsSafe(e.value, u)
  }

  // --- plain texts -----------------------------------------------------------------------------------------

  lemma {:induction false} NoTaggedValue(s: string)
    requires '&' !in s && '*' !in s && '!' !in s
    ensures !HasTaggedValue(s) && !BlanksThenTag(s)
  {
    if s != "" {
      NoTaggedValue(s[1..]);
    }
  }

  lemma {:induction false} DroppedDashes(s: string)
    ensures exists k :: 0 <= k <= |s| && DropDashes(s) == s[k..]
  {
    if s != "" && (s[0] == '-' || s[0] == ' ') {
      DroppedDashes(s[1..]);
      var k :| 0 <= k <= |s[1..]| && DropDashes(s[1..]) == s[1..][k..];
      assert s[1..][k..] == s[k + 1..];
    } else {
      assert s == s[0..];
    }
  }

  lemma PlainIsCheckOk(s: string)
    requires '&' !in s && '*' !in s && '!' !in s && '<' !in s
    ensures CheckOk(s)
  {
    NoTaggedValue(s);
    DroppedDashes(s);
    var t := DropDashes(s);
    if t != "" {
      assert t[0] in s;
    }
  }

  lemma {:induction false} NoKeyColon(s: string, p: nat)
    requires p <= |s| && s != "" && s[|s| - 1] != ':' && !HasColonSpace(s)
    requires forall i :: 0 <= i < |s| ==> s[i] != '\t'
    ensures KeyColon(s, p) == -1
    decreases |s| - p
  {
    if p < |s| && s[p] != '#' {
      NoKeyColon(s, p + 1);
    }
  }

  lemma PlainCharacters(s: string, u: Unicode)
    requires IsPlainBody(s, u)
    ensures forall c :: c in s ==> c !in {'#', '"', '\'', '&', '*', '!', '<', '\n', '\r', '\t'}
    ensures s != "" && !IsBlank(s[0]) && s[0] !in {'|', '>', '[', '{'}
  {
    forall c | c in s ensures c !in {'#', '"', '\'', '&', '*', '!', '<', '\n', '\r', '\t'} {
      assert IsPlainChar(c, u);
    }
  }

  /** A text of plain characters that the emitter lets out stays whole in a line. */
  lemma PlainStaysWhole(s: string, u: Unicode)
    requires GoesPlain(s, u) && IsSafePlainInEntry(s, u)
    ensures IsInLine(s) && SplitKey(s).None? && !IsBlockIndicator(s[0]) && !IsFlowStart(s[0]) && !IsQuote(s[0])
  {
    hide IsReserved, LooksNumber, IsFloat, Scan, CheckOk, KeyColon, HasColonSpace, IsPlainBody;
    PlainCharacters(s, u);
    ScanNeutral(s, ' ');
    PlainIsCheckOk(s);
    assert '\t' !in s;
    NoKeyColon(s, 1);
    assert s[0] in s && s[|s| - 1] in s;
  }

  lemma NotKeyword(s: string)
    requires !IsReserved(s)
    ensures !IsKeyword(s)
  {
    if IsKeyword(s) {
      KeywordIsReserved(s);
    }
  }

  lemma KeywordIsReserved(s: string)
    requires IsKeyword(s)
    ensures IsReserved(s)
  {
    var l := Lower(s);
    if |s| == 1 {
      assert l == "~";
    } else if |s| == 4 && LowerChar(s[0]) == 'n' {
      assert l == "null";
    } else if |s| == 4 {
      assert l == "true";
    } else {
      assert l == "false";
    }
  }

  lemma {:induction false} RunOfDigits(s: string)
    requires AllDigitsOrUnderscores(s)
    ensures Run(s, true) == |s|
  {
    if s != "" {
      RunOfDigits(s[1..]);
    }
  }

  /** An integer text is also a float text. */
  lemma IntIsFloat(s: string)
    requires IsInt(s)
    ensures IsFloat(s)
  {
    var t := DropSign(s);
    RunOfDigits(t);
    assert t[|t|..] == "";
  }

  /**
   At the level of one scalar the exact condition: a string is read back from its own text unless it goes out
   plain and either ends in a blank (which is stripped) or is a number to the reader alone (`1.`, `.5`).
   */
  lemma ScalarReadsBackExactly(s: string, u: Unicode)
    ensures Scalar(ScalarText(Str(s), u)) == Ok(Str(s)) <==>
              !(GoesPlain(s, u) && (s[|s| - 1] == ' ' || IsFloat(BeforeDollar(s))))
  {
    hide Scalar, IsFloat, GoesPlain, BeforeDollar;
    if GoesPlain(s, u) {
      PlainScalar(s, u);
    } else {
      QuotedReadsBack(s, false);
    }
  }

  lemma PlainEnds(s: string, u: Unicode)
    requires GoesPlain(s, u)
    ensures s != "" && !IsBlank(s[0]) && !IsQuote(s[0]) && !IsFlowStart(s[0])
    ensures IsBlank(s[|s| - 1]) ==> s[|s| - 1] == ' '
    ensures !IsKeyword(s)
  {
    hide LooksNumber, HasColonSpace, IsReserved;
    var b := BeforeDollar(s);
    PlainCharacters(b, u);
    assert s[0] == b[0] && b[0] in b;
    if s[|s| - 1] != '\n' {
      assert s[|s| - 1] in b;
    }
    NotKeyword(s);
  }

  lemma PlainScalar(s: string, u: Unicode)
    requires GoesPlain(s, u)
    ensures Scalar(s) == Ok(Str(s)) <==> s[|s| - 1] != ' ' && !IsFloat(BeforeDollar(s))
  {
    hide UnterminatedFrom, Unescaped, HalveQuotes, GoesPlain, IsFloat, IsInt, Strip, BeforeDollar;
    PlainEnds(s, u);
    if s[|s| - 1] == ' ' {
      StripShortens(s);
    } else {
      StripTrimmed(s);
      if IsInt(BeforeDollar(s)) {
        IntIsFloat(BeforeDollar(s));
      }
    }
  }

  lemma StripShortens(s: string)
    requires s != "" && !IsBlank(s[0]) && s[|s| - 1] == ' '
    ensures |Strip(s)| < |s| && Strip(s) != "" && Strip(s)[0] == s[0]
  {
    var r := RStrip(s);
    assert RStrip(s) == RStrip(s[..|s| - 1]);
    assert !IsBlank(s[0]);
    assert |r| > 0;
    assert r <= s && r[0] == s[0];
  }

  // --- every safe leaf and key reads back --------------------------------------------------------------------

  lemma NumberStaysWhole(s: string)
    requires IsNumberText(s) && s != "" && !IsDash(s)
    ensures IsInLine(s) && SplitKey(s).None? && !IsBlockIndicator(s[0]) && !IsFlowStart(s[0]) && !IsQuote(s[0])
    ensures !IsKeyword(s)
  {
    hide Scan, CheckOk, KeyColon, HasColonSpace;
    NumberCharacters(s);
    ScanNeutral(s, ' ');
    PlainIsCheckOk(s);
    NoColon(s, 1);
    assert s[0] in s && s[|s| - 1] in s;
  }

  lemma KeywordStart(s: string)
    ensures IsKeyword(s) ==> s != "" && s[0] in {'n', 'N', 't', 'T', 'f', 'F', '~'}
  {
  }

  lemma DashShape(s: string)
    ensures IsDash(s) ==> s != "" && s[0] == '-' && (|s| == 1 || s[1] == ' ')
  {
  }

  lemma NumberCharacters(s: string)
    requires IsNumberText(s)
    ensures forall c :: c in s ==> c !in {'#', '"', '\'', '&', '*', '!', '<', '\n', '\r', '\t', ' ', ':', '|', '>',
        '[', ']', '{', '}', ','}
    ensures !IsKeyword(s)
  {
    KeywordStart(s);
    assert s != "" ==> IsDigit(s[0]) || s[0] in {'.', 'e', 'E', '+', '-'};
  }

  lemma {:induction false} NoColon(s: string, p: nat)
    requires ':' !in s
    ensures KeyColon(s, p) == -1
    decreases |s| - p
  {
    if p < |s| {
      NoColon(s, p + 1);
    }
  }

  lemma {:induction false} NoUnderscores(s: string)
    requires '_' !in s
    ensures WithoutUnderscores(s) == s
  {
    if s != "" {
      NoUnderscores(s[1..]);
      assert s == [s[0]] + s[1..];
    }
  }

  lemma ScalarOfNumber(s: string)
    requires IsInLine(s) && !IsQuote(s[0]) && !IsFlowStart(s[0]) && !IsKeyword(s) && '_' !in s &&
        (IsInt(s) || IsFloat(s))
    ensures Scalar(s) == Ok(if IsInt(s) then Int(ParseInt(s)) else Float(s))
  {
    hide UnterminatedFrom, Unescaped, HalveQuotes, IsFloat, IsInt, Strip, ParseInt, Scan, CheckOk;
    StripTrimmed(s);
    NoUnderscores(s);
    assert BeforeDollar(s) == s;
  }

  lemma IntTextShape(n: int)
    ensures IsNumberText(IntText(n)) && IntText(n) != "" && !IsDash(IntText(n)) && '_' !in IntText(n)
  {
    hide NaturalText, IsDash;
    var digits := NaturalText(if n < 0 then -n else n);
    var t := IntText(n);
    assert t == (if n < 0 then "-" else "") + digits;
    assert forall i :: 0 <= i < |t| ==> (n < 0 && i == 0 && t[i] == '-') || IsDigit(t[i]);
    DashShape(t);
  }

  lemma IntLeaf(n: int)
    ensures ReadsBackAs(IntText(n), Int(n))
  {
    hide Scalar, IntText, IsInLine, SplitKey, ParseInt, IsInt, IsFloat, IsNumberText;
    IntTextShape(n);
    IntReadsBack(n);
    NumberStaysWhole(IntText(n));
    ScalarOfNumber(IntText(n));
  }

  lemma FloatLeaf(s: string)
    requires IsFloat(s) && !IsInt(s) && IsNumberText(s)
    ensures ReadsBackAs(s, Float(s))
  {
    hide Scalar, IsInLine, SplitKey, ParseInt, IsInt;
    FloatIsNotDash(s);
    NumberStaysWhole(s);
    assert '_' !in s by {
      assert forall i :: 0 <= i < |s| ==> s[i] != '_';
    }
    ScalarOfNumber(s);
  }

  lemma FloatIsNotDash(s: string)
    requires IsFloat(s) && IsNumberText(s)
    ensures s != "" && !IsDash(s)
  {
    hide IsExponent, Run;
    DashShape(s);
    assert |s| > 1 ==> IsDigit(s[1]) || s[1] in {'.', 'e', 'E', '+', '-'};
  }

  lemma WordLeaf(s: string, v: Value)
    requires (s == "null" && v == Null) || (s == "true" && v == Bool(true)) || (s == "false" && v == Bool(false))
    ensures ReadsBackAs(s, v)
  {
    hide Scalar, SplitKey, IsInLine;
    WordInLine(s);
    WordIsNotKey(s);
    ScalarOfWords();
    DashShape(s);
    KeywordStart(s);
  }

  lemma WordInLine(s: string)
    requires s in {"null", "true", "false"}
    ensures IsInLine(s)
  {
    hide Scan, CheckOk;
    WordsAreLetters(s);
    assert s != "" && s[0] in s && s[|s| - 1] in s;
    ScanNeutral(s, ' ');
    PlainIsCheckOk(s);
  }

  lemma WordsAreLetters(s: string)
    requires s in {"null", "true", "false"}
    ensures forall c :: c in s ==> IsLetter(c)
  {
  }

  lemma WordIsNotKey(s: string)
    requires IsKeyword(s)
    ensures SplitKey(s).None?
  {
    hide KeyColon;
    NoColon(s, 1);
  }

  lemma ScalarOfWords()
    ensures Scalar("null") == Ok(Null) && Scalar("true") == Ok(Bool(true)) && Scalar("false") == Ok(Bool(false))
  {
    hide UnterminatedFrom, Unescaped, HalveQuotes, IsFloat, IsInt, Strip, ParseInt, BeforeDollar, WithoutUnderscores;
    StripTrimmed("null");
    StripTrimmed("true");
    StripTrimmed("false");
  }

  lemma PlainLeaf(s: string, u: Unicode)
    requires GoesPlain(s, u) && IsSafePlainInEntry(s, u)
    ensures ReadsInEntry(s, Str(s)) && (!IsDash(s) ==> ReadsBackAs(s, Str(s)))
  {
    hide Scalar, IsInLine, SplitKey, GoesPlain;
    PlainStaysWhole(s, u);
    assert BeforeDollar(s) == s by { PlainCharacters(s, u); assert s[|s| - 1] in s; }
    PlainScalar(s, u);
  }

  lemma {:induction false} EscapedCharacters(s: string, ascii: bool)
    ensures NoBreaks(Escaped(s, ascii))
    ensures '"' in Escaped(s, ascii) ==> '"' in s
    ensures '#' in Escaped(s, ascii) ==> '#' in s
    ensures ':' in Escaped(s, ascii) ==> ':' in s
  {
    if s != "" {
      EscapedCharacters(s[1..], ascii);
      EscapedCharacter(s[0], ascii);
      assert Escaped(s, ascii) == EscapeChar(s[0], ascii) + Escaped(s[1..], ascii);
    }
  }

  lemma EscapedCharacter(c: char, ascii: bool)
    ensures NoBreaks(EscapeChar(c, ascii))
    ensures forall d :: d in {'"', '#', ':'} && d in EscapeChar(c, ascii) ==> d == c
  {
    hide UEscape;
    if c < ' ' && |EscapeChar(c, ascii)| == 6 {
      UEscapeCharacters(c as int);
    } else if ascii && c > '~' && !IsAstral(c) {
      UEscapeCharacters(c as int);
    } else if ascii && c > '~' {
      var v := c as int - 0x1_0000;
      UEscapeCharacters(0xD800 + v / 0x400);
      UEscapeCharacters(0xDC00 + v % 0x400);
    }
  }

  lemma UEscapeCharacters(n: nat)
    requires n < 0x1_0000
    ensures NoBreaks(UEscape(n)) && forall d :: d in {'"', '#', ':'} ==> d !in UEscape(n)
  {
    hide UEscape;
    var e := UEscape(n);
    forall d | d in e ensures d == '\\' || d == 'u' || HexDigit(d).Some? {
      var k :| 0 <= k < |e| && e[k] == d;
    }
  }

  lemma QuotedScan(s: string, ascii: bool)
    requires '"' !in s || '#' !in s
    ensures Scan(Quoted(s, ascii), ' ', None).Through?
    ensures '"' !in s ==> Scan(Quoted(s, ascii), ' ', None) == Through(None)
  {
    var body := Escaped(s, ascii);
    EscapedCharacters(s, ascii);
    if '"' !in s {
      ScanQuoted(body, '"', '"');
      assert Scan("\"", ' ', None) == Through(Some('"'));
      ScanConcat("\"", body, ' ', None);
      ScanConcat("\"" + body, "\"", ' ', None);
    } else {
      ScanNoHash(Quoted(s, ascii), ' ', None);
    }
  }

  lemma QuotedShape(s: string, ascii: bool)
    requires !HasTaggedValue(Quoted(s, ascii)) && Scan(Quoted(s, ascii), ' ', None).Through?
    ensures IsInLine(Quoted(s, ascii)) && !IsDash(Quoted(s, ascii))
  {
    hide Scan, HasTaggedValue, Escaped;
    var t := Quoted(s, ascii);
    EscapedCharacters(s, ascii);
    assert t[0] == '"' && t[|t| - 1] == '"' && DropDashes(t) == t;
  }

  lemma QuotedLeaf(s: string)
    requires IsSafeQuotedInEntry(s)
    ensures var t := Quoted(s, false); ReadsInEntry(t, Str(s)) && (SplitKey(t).None? ==> ReadsBackAs(t, Str(s)))
  {
    hide Scalar, IsInLine, SplitKey, HasTaggedValue;
    QuotedShape(s, false);
    QuotedReadsBack(s, false);
    assert Quoted(s, false)[0] == '"';
  }

  lemma PlainKeyReads(k: string, u: Unicode)
    requires IsKeyBody(k, u) && !IsKeyword(k)
    ensures KeyReadsBackAs(k, Str(k))
  {
    hide Scan, HasTaggedValue, Scalar;
    KeyCharacters(k, u);
    ScanNeutral(k, ' ');
    NoTaggedValue(k);
    ScalarOfKey(k, u);
  }

  lemma KeyCharacters(k: string, u: Unicode)
    requires IsKeyBody(k, u)
    ensures forall c :: c in k ==>
              !IsBlank(c) && c !in {'#', '"', '\'', '&', '*', '!', '<', '\n', '\r', ':', '[', ']', '{', '}', ','}
    ensures IsPlainKey(k)
  {
    forall c | c in k ensures !IsBlank(c) && c !in {'#', '"', '\'', '&', '*', '!', '<', '\n', '\r', ':', '[', ']', '{',
        '}', ','} {
      assert IsWord(c, u) || c == '.' || c == '-';
    }
    assert k[0] in k;
    assert forall i :: 0 <= i < |k| ==> k[i] in k;
  }

  lemma ScalarOfKey(k: string, u: Unicode)
    requires IsKeyBody(k, u) && !IsKeyword(k)
    ensures Scalar(k) == Ok(Str(k))
  {
    hide UnterminatedFrom, Unescaped, HalveQuotes, Strip, ParseInt, IsKeyBody;
    KeyCharacters(k, u);
    assert k != "" && k[|k| - 1] in k && k[0] in k;
    StripTrimmed(k);
    assert BeforeDollar(k) == k;
    assert IsLetter(k[0]) || k[0] == '_' by { KeyStarts(k, u); }
  }

  lemma KeyStarts(k: string, u: Unicode)
    requires IsKeyBody(k, u)
    ensures k != "" && (IsLetter(k[0]) || k[0] == '_')
  {
  }

  lemma QuotedKeyReads(k: string)
    requires IsSafeQuotedKey(k)
    ensures KeyReadsBackAs(Quoted(k, true), Str(k))
  {
    hide Scan, HasTaggedValue, Scalar, HasAstral;
    var t := Quoted(k, true);
    EscapedCharacters(k, true);
    QuotedScan(k, true);
    QuotedReadsBack(k, true);
    assert t[1..|t| - 1] == Escaped(k, true);
    assert NoBreaks(t);
  }

  // --- the round trip ----------------------------------------------------------------------------------------

  lemma {:induction false} SafeIsReadable(v: Value, u: Unicode)
    requires IsSafe(v, u)
    ensures Readable(v, u)
    decreases v
  {
    hide ReadsBackAs, ReadsInEntry, KeyReadsBackAs, IsSafeString, GoesPlain, IsFloat, IsInt, IsNumberText, IsSafeKey,
         KeyText, Quoted;
    match v
    case List(items) =>
      forall i | 0 <= i < |items| ensures Readable(items[i], u) {
        SafeIsReadable(items[i], u);
      }
    case Dict(entries) =>
      forall i | 0 <= i < |entries| ensures ReadableEntry(entries[i], u) {
        assert IsSafeEntry(entries[i], u);
        SafeKeyReads(entries[i].key.s, u);
        SafeEntryReads(entries[i], u);
      }
    case Null => WordLeaf("null", v);
    case Bool(b) => WordLeaf(if b then "true" else "false", v);
    case Int(n) => IntLeaf(n);
    case Float(digits) => FloatLeaf(digits);
    case Str(s) => StringLeaf(s, u);
  }

  lemma StringLeaf(s: string, u: Unicode)
    requires IsSafeString(s, u)
    ensures ReadsBackAs(ScalarText(Str(s), u), Str(s))
  {
    hide ReadsBackAs, GoesPlain, IsSafePlainInEntry, IsSafeQuotedInEntry, SplitKey, IsDash, Quoted;
    if GoesPlain(s, u) {
      PlainLeaf(s, u);
    } else {
      QuotedLeaf(s);
    }
  }

  lemma StringInEntry(s: string, u: Unicode)
    requires IsSafeStringInEntry(s, u)
    ensures ReadsInEntry(ScalarText(Str(s), u), Str(s))
  {
    hide ReadsInEntry, GoesPlain, IsSafePlainInEntry, IsSafeQuotedInEntry, Quoted;
    if GoesPlain(s, u) {
      PlainLeaf(s, u);
    } else {
      QuotedLeaf(s);
    }
  }

  lemma ReadsThere(x: Value, u: Unicode)
    requires Readable(x, u) && !x.List? && !x.Dict?
    ensures ReadsInEntry(ScalarText(x, u), x)
  {
    hide ReadsInEntry, ReadsBackAs, ScalarText;
    ReadsThereToo(ScalarText(x, u), x);
  }

  lemma {:induction false} SafeEntryReads(e: Pair, u: Unicode)
    requires IsSafeEntry(e, u)
    ensures if e.value.List? || e.value.Dict? then Readable(e.value, u)
        else ReadsInEntry(ScalarText(e.value, u), e.value)
    decreases e
  {
    hide ReadsInEntry, ScalarText, Readable, IsSafe, IsSafeStringInEntry, IsSafeKey;
    if e.value.Str? {
      StringInEntry(e.value.s, u);
    } else {
      SafeIsReadable(e.value, u);
      if !e.value.List? && !e.value.Dict? {
        ReadsThere(e.value, u);
      }
    }
  }

  lemma SafeKeyReads(k: string, u: Unicode)
    requires IsSafeKey(k, u)
    ensures KeyReadsBackAs(KeyText(k, u), Str(k))
  {
    hide KeyReadsBackAs, HasTaggedValue, IsKeyBody;
    if IsKeyBody(BeforeDollar(k), u) {
      PlainKeyReads(k, u);
    } else {
      QuotedKeyReads(k);
    }
  }

  /** `loads(yaml(v)) == v` for every list and dict over the safe fragment, however deeply nested. */
  lemma RoundTrip(v: Value, u: Unicode)
    requires (v.List? || v.Dict?) && IsSafe(v, u)
    ensures Loads(Yaml(v, 0, u)) == Ok(v)
  {
    SafeIsReadable(v, u);
    LoadsUndoesYaml(v, u);
  }
}
