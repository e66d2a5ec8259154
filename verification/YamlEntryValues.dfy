/**
 Exactly which strings survive as values of entries. Behind a key the reader takes the rest of the line for a scalar, so
 what would be a dash or a key behind a dash is none there.
 */
module YamlEntryValues {
  import opened Wrappers
  import opened YamlText
  import opened YamlScalar
  import opened YamlReader
  import opened YamlEmitter
  import opened YamlLayout
  import opened YamlRoundTrip
  import opened YamlSafe
  import opened YamlMisread
  import opened YamlQuoted

  // --- the line of an entry ----------------------------------------------------------------------------------

  lemma YamlOfValue(k: string, s: string, u: Unicode)
    ensures Yaml(Dict([Pair(Str(k), Str(s))]), 0, u) == KeyText(k, u) + ": " + ScalarText(Str(s), u)
  {
    hide KeyText, GoesPlain, Quoted;
    var e := Pair(Str(k), Str(s));
    assert [e][1..] == [];
    assert Spaces(0) + KeyText(k, u) == KeyText(k, u);
    assert EntryTexts([e], 0, u) == [EntryText(e, 0, u)];
  }

  /** A scan that gets through `p` and is cut in `q` is cut there. */
  lemma {:induction false} ScanThenCut(p: string, q: string, prev: char, quote: Option<char>)
    requires Scan(p, prev, quote).Through?
    requires Scan(q, Last(p, prev), Scan(p, prev, quote).quote).Cut?
    ensures Scan(p + q, prev, quote) == Cut(|p| + Scan(q, Last(p, prev), Scan(p, prev, quote).quote).at)
  {
    if p == "" {
      assert p + q == q;
    } else {
      assert (p + q)[1..] == p[1..] + q;
      var ch := p[0];
      var quote' := if quote.Some? then (if ch == quote.value then None else quote)
                    else if IsQuote(ch) && OpensQuote(prev) then Some(ch) else None;
      ScanThenCut(p[1..], q, ch, quote');
    }
  }

  /** The comment stripper leaves of the line the key and what it leaves of the value. */
  lemma EntryIsCut(key: string, t: string)
    requires IsKeyText(key) && t != "" && !IsBlank(t[0]) && t[0] != '#'
    ensures StripComment(key + ": " + t) == key + ": " + StripComment(t)
    ensures StripComment(t) <= t && Trimmed(StripComment(t)) && StripComment(t)[0] == t[0]
  {
    hide Scan, RStrip, HasTaggedValue, IsQuotedKey, IsPlainKey;
    var p := key + ": ";
    KeyScansThrough(key);
    ItemIsCut(t);
    match Scan(t, ' ', None)
    case Cut(k) =>
      ScanThenCut(p, t, ' ', None);
      CutIsBehindStart(t);
      assert (p + t)[..|p| + k] == p + t[..k];
      RStripConcat(p, t[..k]);
    case Through(_) =>
      ScanConcat(p, t, ' ', None);
      RStripConcat(p, t);
  }

  lemma CutIsBehindStart(t: string)
    requires t != "" && t[0] != '#' && Scan(t, ' ', None).Cut?
    ensures Scan(t, ' ', None).at > 0
  {
  }

  lemma KeyScansThrough(key: string)
    requires IsKeyText(key)
    ensures Scan(key + ": ", ' ', None) == Through(None) && Last(key + ": ", ' ') == ' '
  {
    hide Scan, HasTaggedValue, IsQuotedKey, IsPlainKey;
    ScanNeutral(": ", Last(key, ' '));
    ScanConcat(key, ": ", ' ', None);
  }

  lemma NextOfEntry(key: string, t: string)
    requires IsKeyText(key) && t != "" && !IsBlank(t[0]) && t[0] != '#'
    ensures Next(Cursor([key + ": " + t], 0)) == Some(Significant(0, 0, key + ": " + StripComment(t)))
  {
    hide StripComment, Strip, Indent, Scan, HasTaggedValue;
    EntryIsCut(key, t);
    var b := key + ": " + StripComment(t);
    KeyBegins(key);
    assert b[0] == key[0] && Trimmed(b);
    StripTrimmed(b);
    assert !StartsWith(b, "---");
    assert Indent(b) == 0 by { NoIndent(b); }
  }

  lemma KeyBegins(key: string)
    requires IsKeyText(key)
    ensures key != "" && !IsBlank(key[0]) && key[0] != '-' && !IsFlowStart(key[0])
  {
    hide Scan, HasTaggedValue;
  }

  /** An entry is read as one with the value `s` only when that is what its text is as a scalar. */
  lemma EntryIsString(raw: string, key: string, t: string, k: string, s: string)
    requires IsKeyText(key) && Trimmed(t) && !IsBlockIndicator(t[0]) && !IsFlowStart(t[0])
    requires Next(Cursor([raw], 0)) == Some(Significant(0, 0, key + ": " + t))
    requires Block(Cursor([raw], 0), 0).Done?
    requires Block(Cursor([raw], 0), 0).value == Dict([Pair(Str(k), Str(s))])
    ensures CheckOk(key + ": " + t) && Scalar(t) == Ok(Str(s))
  {
    hide Next, Scalar, SplitKey, CheckOk, Size, Scan, IsKeyText, Continues, IsDash, Trimmed, IsFlowStart,
         IsBlockIndicator;
    var cur := Cursor([raw], 0);
    SplitLeafEntry(key, t);
    KeyBegins(key);
    assert (key + ": " + t)[0] == key[0];
    assert Block(cur, 0) == Mapping(cur, 0, []);
    var head := EntryHead(cur, 0, []);
    assert head.Head? && head.rest == t;
    NoBlockHeader(t);
    var value := ValueAfter(head.cur, head.rest, 0, 1, true);
    assert value.Done? && Scalar(t) == Ok(value.value);
    var p := Pair(head.key, value.value);
    MappingKeepsEntries(value.cur, 0, [] + [p]);
    assert ([] + [p])[0] == p;
    assert Block(cur, 0).value.entries[0] == p;
  }

  lemma NoBlockHeader(t: string)
    requires Trimmed(t) && !IsBlockIndicator(t[0])
    ensures t != "" && !IsBlockHeader(t)
  {
  }

  lemma LoadsIsBlock(text: string, raw: string, v: Value)
    requires LinesOf(text) == [raw] && Loads(text) == Ok(v)
    ensures Block(Cursor([raw], 0), 0).Done? && Block(Cursor([raw], 0), 0).value == v
  {
    hide LinesOf, Block, Next, SecondDocument;
  }

  // --- plain values ------------------------------------------------------------------------------------------

  lemma PlainTextIsUncut(b: string, u: Unicode)
    requires IsPlainBody(b, u)
    ensures StripComment(b) == RStrip(b) && b[0] != '#' && !IsBlank(b[0])
  {
    hide Scan, IsPlainBody, RStrip;
    PlainCharacters(b, u);
    assert b[0] in b;
    ScanNeutral(b, ' ');
  }

  lemma LoadsPlainValue(k: string, key: string, s: string, u: Unicode)
    requires GoesPlain(s, u) && IsKeyText(key)
    requires Loads(key + ": " + s) == Ok(Dict([Pair(Str(k), Str(s))]))
    ensures IsSafePlainInEntry(s, u)
  {
    hide LinesOf, Loads, Block, Next, Scalar, IsPlainBody, LooksNumber, IsReserved, IsFloat, RStrip, BeforeDollar,
         HasColonSpace, IsKeyText, StripComment;
    var b := BeforeDollar(s);
    var t := RStrip(b);
    assert NoBreaks(key + ": ") by { KeyHasNoBreaks(key); }
    LinesOfOne(key + ": ", s, u);
    LoadsIsBlock(key + ": " + s, key + ": " + b, Dict([Pair(Str(k), Str(s))]));
    PlainTextIsUncut(b, u);
    PlainNotEmpty(b, u);
    NextOfEntry(key, b);
    EntryIsCut(key, b);
    assert IsPlainBody(t, u) by { PlainNotEmpty(b, u); PlainPrefix(b, t, u); }
    PlainStart(t, u);
    EntryIsString(key + ": " + b, key, t, k, s);
    ScalarIsPlainString(t, s, u);
    LastIsNoBlank(t);
  }

  lemma KeyHasNoBreaks(key: string)
    requires IsKeyText(key)
    ensures NoBreaks(key + ": ")
  {
    hide Scan, HasTaggedValue;
  }

  lemma PlainNotEmpty(b: string, u: Unicode)
    requires IsPlainBody(b, u)
    ensures b != ""
  {
  }

  lemma LastIsNoBlank(t: string)
    requires Trimmed(t)
    ensures t[|t| - 1] != ' '
  {
  }

  /**
   For a string that goes out plain behind a key the exact condition: the entry comes back if and only if the string
   ends in no blank or line break and is no number to the reader. It may be a dash.
   */
  lemma PlainValueComesBackExactly(k: string, s: string, u: Unicode)
    requires GoesPlain(s, u) && IsSafeKey(k, u)
    ensures var v := Dict([Pair(Str(k), Str(s))]);
            Loads(Yaml(v, 0, u)) == Ok(v) <==> IsSafePlainInEntry(s, u)
  {
    hide GoesPlain, IsSafePlainInEntry, IsSafeKey, Yaml, Loads, KeyText;
    var v := Dict([Pair(Str(k), Str(s))]);
    YamlOfValue(k, s, u);
    if IsSafePlainInEntry(s, u) {
      assert IsSafeEntry(Pair(Str(k), Str(s)), u);
      assert IsSafe(v, u);
      RoundTrip(v, u);
    }
    if Loads(KeyText(k, u) + ": " + s) == Ok(v) {
      SafeKeyReads(k, u);
      LoadsPlainValue(k, KeyText(k, u), s, u);
    }
  }

  // --- quoted values -----------------------------------------------------------------------------------------

  lemma QuotedValueLine(key: string, s: string)
    requires IsKeyText(key)
    ensures var b := key + ": " + Quoted(s, false); LinesOf(b) == [b]
    ensures Quoted(s, false) != "" && Quoted(s, false)[0] == '"'
  {
    hide LinesOf, Escaped, IsKeyText;
    EscapedCharacters(s, false);
    KeyHasNoBreaks(key);
    LinesOfUnbroken(key + ": " + Quoted(s, false));
  }

  lemma LoadsQuotedValue(k: string, key: string, s: string)
    requires IsKeyText(key) && Loads(key + ": " + Quoted(s, false)) == Ok(Dict([Pair(Str(k), Str(s))]))
    ensures IsSafeQuotedInEntry(s)
  {
    hide LinesOf, Loads, Block, Next, Scalar, StripComment, Quoted, Scan, HasTaggedValue, CheckOk, IsKeyText;
    var t := Quoted(s, false);
    var p := StripComment(t);
    var b := key + ": " + t;
    QuotedValueLine(key, s);
    LoadsIsBlock(b, b, Dict([Pair(Str(k), Str(s))]));
    NextOfEntry(key, t);
    EntryIsCut(key, t);
    EntryIsString(b, key, p, k, s);
    if p != t {
      PrefixIsNoScalar(s, p, false);
    }
    CutIsShorter(t);
    NothingTaggedInLine(key + ": ", t);
  }

  lemma NothingTaggedInLine(p: string, t: string)
    requires CheckOk(p + t)
    ensures !HasTaggedValue(t)
  {
    hide DropDashes;
    if HasTaggedValue(t) {
      TaggedBehind(p, t);
    }
  }

  /**
   For a string that goes out in quotes behind a key the exact condition: the entry comes back if and only if the
   comment scan gets through the quoted text and nothing in it looks like a tag. A key in it does no harm.
   */
  lemma QuotedValueComesBackExactly(k: string, s: string, u: Unicode)
    requires !GoesPlain(s, u) && IsSafeKey(k, u)
    ensures var v := Dict([Pair(Str(k), Str(s))]);
            Loads(Yaml(v, 0, u)) == Ok(v) <==> IsSafeQuotedInEntry(s)
  {
    hide GoesPlain, IsSafeQuotedInEntry, IsSafeKey, Yaml, Loads, KeyText, Quoted;
    var v := Dict([Pair(Str(k), Str(s))]);
    YamlOfValue(k, s, u);
    if IsSafeQuotedInEntry(s) {
      assert IsSafeEntry(Pair(Str(k), Str(s)), u);
      assert IsSafe(v, u);
      RoundTrip(v, u);
    }
    if Loads(KeyText(k, u) + ": " + Quoted(s, false)) == Ok(v) {
      SafeKeyReads(k, u);
      LoadsQuotedValue(k, KeyText(k, u), s);
    }
  }

  /** A dash is lost in a list and comes back behind a key. */
  lemma DashComesBackBehindKey(k: string, u: Unicode)
    requires IsSafeKey(k, u)
    ensures var v := Dict([Pair(Str(k), Str("-"))]);
            Loads(Yaml(v, 0, u)) == Ok(v) && Loads(Yaml(List([Str("-")]), 0, u)) != Ok(List([Str("-")]))
  {
    hide Loads, Yaml, IsSafeKey, GoesPlain, IsFloat;
    MisreadStringsGoPlain(u);
    PlainItemComesBackExactly("-", u);
    assert !IsFloat("-") by { DashIsNoFloat(); }
    PlainValueComesBackExactly(k, "-", u);
  }

  lemma DashIsNoFloat()
    ensures !IsFloat("-")
  {
    assert "-"[1..] == "" && Run("", false) == 0 && Run("", true) == 0;
  }
}
