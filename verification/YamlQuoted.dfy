/**
 Exactly which quoted strings and keys survive in a document. A scalar in quotes always reads back; the comment
 stripper, the key splitter and the tag check, which look at whole lines, do not know `\\"`.
 */
module YamlQuoted {
  import opened Wrappers
  import opened YamlText
  import opened YamlScalar
  import opened YamlReader
  import opened YamlEmitter
  import opened YamlLayout
  import opened YamlRoundTrip
  import opened YamlSafe
  import opened YamlMisread

  // --- quotes that close early -------------------------------------------------------------------------------

  /** A text that is closed at its end, and goes on, is not closed at the end of what follows. */
  lemma {:induction false} ClosedPrefixIsUnterminated(p: string, t: string, i: nat)
    requires p <= t && |p| < |t| && !UnterminatedFrom(p, '"', i)
    ensures UnterminatedFrom(t, '"', i)
    decreases |p| - i
  {
    assert i < |p| && p[i] == t[i];
    if p[i] == '\\' {
      ClosedPrefixIsUnterminated(p, t, i + 2);
    } else if p[i] != '"' {
      ClosedPrefixIsUnterminated(p, t, i + 1);
    }
  }

  /** No beginning of a quoted text is a quoted text. */
  lemma PrefixIsNoScalar(s: string, p: string, ascii: bool)
    requires p < Quoted(s, ascii) && p != "" && Trimmed(p)
    ensures !Scalar(p).Ok?
  {
    hide Unescaped, HalveQuotes, IsInt, IsFloat, ParseInt, WithoutUnderscores, BeforeDollar, Strip;
    var t := Quoted(s, ascii);
    assert p[0] == t[0] == '"';
    StripTrimmed(p);
    if !UnterminatedFrom(p, '"', 1) {
      ClosedPrefixIsUnterminated(p, t, 1);
      QuotedTerminates("\"", s, ascii);
      assert false;
    }
  }

  // --- a list of one quoted string ---------------------------------------------------------------------------

  lemma YamlOfQuotedItem(s: string, u: Unicode)
    requires !GoesPlain(s, u)
    ensures Yaml(List([Str(s)]), 0, u) == "- " + Quoted(s, false)
  {
    hide GoesPlain, Quoted;
    assert [Str(s)][1..] == [];
    assert Spaces(0) + "- " + Quoted(s, false) == "- " + Quoted(s, false);
    assert ItemTexts([Str(s)], 0, u) == [ItemText(Str(s), 0, u)];
  }

  lemma ScanAfterDash(t: string)
    ensures Scan("- " + t, ' ', None) == Shift(Shift(Scan(t, ' ', None)))
  {
    var line := "- " + t;
    assert line[1..] == " " + t && (" " + t)[1..] == t;
    assert Scan(" " + t, '-', None) == Shift(Scan(t, ' ', None));
  }

  /** What the comment stripper leaves of an item is the dash and what it leaves of the text. */
  lemma ItemIsCut(t: string)
    requires t != "" && !IsBlank(t[0]) && t[0] != '#'
    ensures StripComment("- " + t) == "- " + StripComment(t)
    ensures StripComment(t) <= t && Trimmed(StripComment(t)) && StripComment(t)[0] == t[0]
  {
    hide RStrip;
    ScanAfterDash(t);
    match Scan(t, ' ', None)
    case Cut(k) =>
      assert k > 0;
      assert ("- " + t)[..k + 2] == "- " + t[..k];
      RStripConcat("- ", t[..k]);
      RStripKeepsStart(t[..k]);
      RStripPrefix(t[..k]);
    case Through(_) =>
      RStripConcat("- ", t);
      RStripKeepsStart(t);
      RStripPrefix(t);
  }

  lemma RStripPrefix(b: string)
    ensures RStrip(b) <= b
  {
  }

  lemma NextOfCutItem(t: string)
    requires t != "" && !IsBlank(t[0]) && t[0] != '#'
    ensures Next(Cursor(["- " + t], 0)) == Some(Significant(0, 0, "- " + StripComment(t)))
  {
    hide StripComment, Strip, Indent;
    ItemIsCut(t);
    var b := "- " + StripComment(t);
    StripTrimmed(b);
    assert b[1] == ' ' && !StartsWith(b, "---");
    assert Indent(b) == 0 by { NoIndent(b); }
  }

  lemma QuotedLine(s: string)
    ensures LinesOf("- " + Quoted(s, false)) == ["- " + Quoted(s, false)]
    ensures Quoted(s, false) != "" && Quoted(s, false)[0] == '"'
  {
    hide LinesOf, Escaped;
    EscapedCharacters(s, false);
    LinesOfUnbroken("- " + Quoted(s, false));
  }

  lemma NothingTaggedBehindDash(t: string)
    requires CheckOk("- " + t)
    ensures !HasTaggedValue(t)
  {
    var line := "- " + t;
    assert line[1..] == " " + t && (" " + t)[1..] == t;
    assert HasTaggedValue(line) == HasTaggedValue(line[1..]);
    assert HasTaggedValue(" " + t) == HasTaggedValue(t);
  }

  lemma LoadsOneQuoted(s: string)
    requires Loads("- " + Quoted(s, false)) == Ok(List([Str(s)]))
    ensures IsSafeQuoted(s)
  {
    hide LinesOf, Next, ItemHead, ItemValue, Scalar, StripComment, Size, Quoted, Scan, SplitKey, HasTaggedValue,
         CheckOk;
    var t := Quoted(s, false);
    var p := StripComment(t);
    var cur := Cursor(["- " + t], 0);
    QuotedLine(s);
    NextOfCutItem(t);
    ItemIsCut(t);
    DashedIsDash(p);
    var item := ItemValue(ItemHead(cur), 0, 1, Size(cur));
    assert Sequence(cur, 0, []).Done? && Sequence(cur, 0, []).value == List([Str(s)]);
    SequenceKeepsItems(item.cur, 0, [] + [item.value]);
    assert ([] + [item.value])[0] == [Str(s)][0];
    ItemIsString(cur, p, s);
    if p != t {
      PrefixIsNoScalar(s, p, false);
    }
    CutIsShorter(t);
    NothingTaggedBehindDash(t);
  }

  lemma CutIsShorter(t: string)
    ensures Scan(t, ' ', None).Cut? ==> |StripComment(t)| < |t|
  {
    hide Scan;
  }

  /**
   For a string that goes out in quotes the exact condition: a list of it comes back if and only if the comment scan
   gets through the quoted text, nothing in it looks like a tag, and no key is found in it.
   */
  lemma QuotedItemComesBackExactly(s: string, u: Unicode)
    requires !GoesPlain(s, u)
    ensures Loads(Yaml(List([Str(s)]), 0, u)) == Ok(List([Str(s)])) <==> IsSafeQuoted(s)
  {
    hide GoesPlain, IsSafeQuoted, Yaml, Loads;
    var v := List([Str(s)]);
    YamlOfQuotedItem(s, u);
    if IsSafeQuoted(s) {
      assert IsSafe(v, u) by {
        assert IsSafeString(s, u);
        assert IsSafe(Str(s), u);
      }
      RoundTrip(v, u);
    }
    if Loads("- " + Quoted(s, false)) == Ok(v) {
      LoadsOneQuoted(s);
    }
  }

  /** Neither `"` nor `!` goes out plain. */
  lemma MarksGoQuoted(s: string, i: nat, u: Unicode)
    requires i + 1 < |s| && (s[i] == '"' || s[i] == '!')
    ensures !GoesPlain(s, u)
  {
    var b := BeforeDollar(s);
    assert b[i] == s[i] && !IsPlainChar(b[i], u);
  }

  lemma {:induction false} EscapedConcat(a: string, b: string, ascii: bool)
    ensures Escaped(a + b, ascii) == Escaped(a, ascii) + Escaped(b, ascii)
  {
    hide EscapeChar, Escaped;
    if a == "" {
      assert a + b == b;
      assert Escaped("", ascii) == "" by { NothingEscaped(ascii); }
    } else {
      EscapedFirst(a, ascii);
      EscapedFirst(a + b, ascii);
      EscapedConcat(a[1..], b, ascii);
      assert (a + b)[0] == a[0] && (a + b)[1..] == a[1..] + b;
    }
  }

  lemma NothingEscaped(ascii: bool)
    ensures Escaped("", ascii) == ""
  {
  }

  /** The escaped text around a `"`. */
  lemma EscapedAround(x: string, y: string)
    ensures Quoted(x + "\"" + y, false) ==
              "\"" + Escaped(x, false) + "\\" + "\"" + Escaped(y, false) + "\""
  {
    hide EscapeChar, Escaped;
    var t := "\"" + y;
    EscapedConcat(x, t, false);
    assert x + "\"" + y == x + t;
    EscapedFirst(t, false);
    assert t[0] == '"' && t[1..] == y;
    EscapedQuote();
  }

  lemma EscapedFirst(s: string, ascii: bool)
    requires s != ""
    ensures Escaped(s, ascii) == EscapeChar(s[0], ascii) + Escaped(s[1..], ascii)
  {
    hide EscapeChar;
  }

  lemma EscapedQuote()
    ensures EscapeChar('"', false) == "\\" + "\""
  {
  }

  /** The comment scan comes out of the quotes at an inner `"`. */
  lemma ScanToInnerQuote(x: string)
    requires '"' !in x
    ensures Scan("\"" + Escaped(x, false) + "\\", ' ', None) == Through(Some('"'))
  {
    EscapedCharacters(x, false);
    var body := Escaped(x, false) + "\\";
    ScanQuoted(body, '"', '"');
    assert Scan("\"", ' ', None) == Through(Some('"'));
    ScanConcat("\"", body, ' ', None);
    assert "\"" + Escaped(x, false) + "\\" == "\"" + body;
  }

  /** A `#` after a first inner `"` and a blank starts a comment. */
  lemma CommentInQuotes(x: string, y: string)
    requires '"' !in x
    ensures Scan(Quoted(x + "\"" + (" #" + y), false), ' ', None).Cut?
  {
    hide Quoted, Escaped;
    var front, back := "\"" + Escaped(x, false) + "\\", "\"" + Escaped(" #" + y, false) + "\"";
    EscapedAround(x, " #" + y);
    EscapedConcat(" #", y, false);
    assert Escaped(" #", false) == " #" by { ShortEscapes(false); }
    ScanToInnerQuote(x);
    assert back == "\" #" + Escaped(y, false) + "\"";
    assert back[1..][0] == ' ' && back[1..][1..][0] == '#';
    assert Scan(back[1..][1..], ' ', None).Cut?;
    assert Scan(back[1..], '"', None).Cut?;
    assert Scan(back, '\\', Some('"')).Cut?;
    ScanConcat(front, back, ' ', None);
    assert front + back == Quoted(x + "\"" + (" #" + y), false);
  }

  lemma ShortEscapes(ascii: bool)
    ensures Escaped(" #", ascii) == " #" && Escaped(": ", ascii) == ": " && Escaped(": !", ascii) == ": !"
  {
    assert " #"[1..] == "#" && "#"[1..] == "" && Escaped("#", ascii) == "#";
    assert ": "[1..] == " " && " "[1..] == "" && Escaped(" ", ascii) == " ";
    assert ": !"[1..] == " !" && " !"[1..] == "!" && "!"[1..] == "" && Escaped("!", ascii) == "!" &&
        Escaped(" !", ascii) == " !";
  }

  /** A `:` and a blank after a first inner `"` end a key. */
  lemma KeyInQuotes(x: string, y: string)
    requires '"' !in x
    ensures SplitKey(Quoted(x + "\"" + (": " + y), false)).Some?
  {
    hide Quoted, Escaped, Strip;
    var t := Quoted(x + "\"" + (": " + y), false);
    EscapedAround(x, ": " + y);
    EscapedConcat(": ", y, false);
    assert Escaped(": ", false) == ": " by { ShortEscapes(false); }
    EscapedCharacters(x, false);
    var e := |Escaped(x, false)| + 2;
    assert t[0] == '"' && t[e] == '"' && t[e + 1] == ':' && t[e + 2] == ' ';
    forall i | 1 <= i < e ensures t[i] != '"' {
      assert i - 1 < |Escaped(x, false)| ==> t[i] == Escaped(x, false)[i - 1];
    }
    assert Find(t, '"', 1) == e;
  }

  lemma {:induction false} TaggedBehind(a: string, b: string)
    requires HasTaggedValue(b)
    ensures HasTaggedValue(a + b)
  {
    if a == "" {
      assert a + b == b;
    } else {
      assert (a + b)[1..] == a[1..] + b;
      TaggedBehind(a[1..], b);
    }
  }

  /** `: !` counts as a tag wherever it stands. */
  lemma TagInQuotes(x: string, y: string, ascii: bool)
    ensures HasTaggedValue(Quoted(x + (": !" + y), ascii))
  {
    hide Escaped;
    EscapedConcat(x, ": !" + y, ascii);
    EscapedConcat(": !", y, ascii);
    assert Escaped(": !", ascii) == ": !" by { ShortEscapes(ascii); }
    var rest := ": !" + Escaped(y, ascii) + "\"";
    assert rest[1..][0] == ' ' && rest[1..][1..][0] == '!';
    assert BlanksThenTag(rest[1..][1..]) && BlanksThenTag(rest[1..]);
    TaggedBehind("\"" + Escaped(x, ascii), rest);
    assert "\"" + Escaped(x, ascii) + rest == Quoted(x + (": !" + y), ascii);
  }

  /** A `#` after an inner `"` starts a comment, a `:` after one ends a key, and `: !` counts as a tag. */
  lemma MisreadQuotedStrings(u: Unicode)
    ensures Loads(Yaml(List([Str("a\" #b")]), 0, u)) != Ok(List([Str("a\" #b")]))
    ensures Loads(Yaml(List([Str("a\": b")]), 0, u)) != Ok(List([Str("a\": b")]))
    ensures Loads(Yaml(List([Str("a: !b")]), 0, u)) != Ok(List([Str("a: !b")]))
  {
    hide Loads, Yaml, GoesPlain, Quoted;
    MarksGoQuoted("a\" #b", 1, u);
    MarksGoQuoted("a\": b", 1, u);
    MarksGoQuoted("a: !b", 3, u);
    QuotedItemComesBackExactly("a\" #b", u);
    QuotedItemComesBackExactly("a\": b", u);
    QuotedItemComesBackExactly("a: !b", u);
    assert "a\" #b" == "a" + "\"" + (" #" + "b") && "a\": b" == "a" + "\"" + (": " + "b") &&
        "a: !b" == "a" + (": !" + "b");
    CommentInQuotes("a", "b");
    KeyInQuotes("a", "b");
    TagInQuotes("a", "b", false);
  }

  // --- a dict with one quoted key ----------------------------------------------------------------------------

  lemma {:induction false} EscapedKeepsQuotes(s: string)
    ensures '"' in s ==> '"' in Escaped(s, true)
  {
    if s != "" {
      EscapedKeepsQuotes(s[1..]);
      assert s[0] == '"' ==> '"' in EscapeChar(s[0], true);
      assert Escaped(s, true) == EscapeChar(s[0], true) + Escaped(s[1..], true);
    }
  }

  lemma {:induction false} TaggedStays(a: string, b: string)
    requires HasTaggedValue(a)
    ensures HasTaggedValue(a + b)
  {
    assert (a + b)[1..] == a[1..] + b;
    if a[0] == ':' && |a| > 1 && IsBlank(a[1]) && BlanksThenTag(a[1..]) {
      BlanksThenTagStays(a[1..], b);
    } else {
      TaggedStays(a[1..], b);
    }
  }

  lemma {:induction false} BlanksThenTagStays(a: string, b: string)
    requires BlanksThenTag(a)
    ensures BlanksThenTag(a + b)
  {
    if !IsTag(a[0]) {
      assert (a + b)[1..] == a[1..] + b;
      BlanksThenTagStays(a[1..], b);
    }
  }

  /** A line that starts with a quote is seen up to the comment. */
  lemma NextOfCutLine(b: string)
    requires b != "" && b[0] == '"'
    ensures Next(Cursor([b], 0)) == Some(Significant(0, 0, StripComment(b)))
    ensures StripComment(b) <= b && StripComment(b) != "" && StripComment(b)[0] == '"'
  {
    hide StripComment, Strip, Indent;
    ItemIsCut(b);
    var p := StripComment(b);
    StripTrimmed(p);
    assert !StartsWith(p, "---");
    assert Indent(p) == 0 by { NoIndent(p); }
  }

  /** The key splitter takes an inner `"` for the end of the key. */
  lemma InnerQuoteSplits(k: string, p: string, rest: string)
    requires '"' in k && p <= Quoted(k, true) + rest && p != ""
    ensures SplitKey(p).Some? ==> !Scalar(SplitKey(p).value.key).Ok?
  {
    hide Scalar, Strip, KeyColon, Escaped, RStrip;
    var t := Quoted(k, true);
    EscapedKeepsQuotes(k);
    var j :| 0 <= j < |Escaped(k, true)| && Escaped(k, true)[j] == '"';
    assert t[j + 1] == '"' && j + 1 < |t| - 1;
    var e := Find(p, '"', 1);
    assert forall i :: 0 <= i < |p| && i < |t| ==> p[i] == t[i];
    if SplitKey(p).Some? {
      assert e >= 1 && e <= j + 1;
      var key := p[..e + 1];
      assert key == t[..e + 1] && key < t;
      assert Trimmed(key);
      PrefixIsNoScalar(k, key, true);
    }
  }

  lemma InnerQuoteKeyIsLost(k: string)
    requires '"' in k
    ensures Loads(Quoted(k, true) + ": null").Err?
  {
    hide LinesOf, Next, SplitKey, CheckOk, Leaf, Scalar, Size, StripComment, Quoted;
    var b := Quoted(k, true) + ": null";
    var cur, p := Cursor([b], 0), StripComment(b);
    QuotedKeyLine(k);
    NextOfCutLine(b);
    InnerQuoteSplits(k, p, ": null");
    assert EntryHead(cur, 0, []).BadHead?;
    assert !IsDash(p) && !IsFlowStart(p[0]);
    assert Mapping(cur, 0, []).Failed?;
    assert Block(cur, 0) == Mapping(cur, 0, []);
  }

  lemma QuotedKeyLine(k: string)
    ensures var b := Quoted(k, true) + ": null"; LinesOf(b) == [b] && b != "" && b[0] == '"'
  {
    hide LinesOf, Escaped;
    EscapedCharacters(k, true);
    LinesOfUnbroken(Quoted(k, true) + ": null");
  }

  lemma TaggedKeyIsLost(k: string)
    requires '"' !in k && HasTaggedValue(Quoted(k, true))
    ensures Loads(Quoted(k, true) + ": null").Err?
  {
    hide LinesOf, Next, SplitKey, HasTaggedValue, Leaf, Scalar, Size, StripComment, Quoted, Scan;
    var b := Quoted(k, true) + ": null";
    var cur := Cursor([b], 0);
    QuotedKeyLine(k);
    NextOfCutLine(b);
    UncutKeyLine(k);
    TaggedStays(Quoted(k, true), ": null");
    assert EntryHead(cur, 0, []).BadHead?;
    assert !IsDash(b) && !IsFlowStart(b[0]);
    assert Mapping(cur, 0, []).Failed?;
    assert Block(cur, 0) == Mapping(cur, 0, []);
  }

  lemma UncutKeyLine(k: string)
    requires '"' !in k
    ensures StripComment(Quoted(k, true) + ": null") == Quoted(k, true) + ": null"
  {
    hide Scan, Quoted, RStrip;
    var b := Quoted(k, true) + ": null";
    QuotedScan(k, true);
    QuotedKeyLine(k);
    ScanConcat(Quoted(k, true), ": null", ' ', None);
    ScanNeutral(": null", Last(Quoted(k, true), ' '));
    StripTrimmed(b);
  }

  /** A key with a character beyond 16 bits is written with a surrogate pair, which the reader does not put together. */
  lemma AstralKeyIsLost(k: string)
    requires '"' !in k && HasAstral(k)
    ensures Loads(Quoted(k, true) + ": null").Err?
  {
    hide LinesOf, Next, CheckOk, Leaf, Scalar, Size, StripComment, Quoted, Scan, SplitKey, HasAstral;
    var t := Quoted(k, true);
    var b := t + ": null";
    var cur := Cursor([b], 0);
    QuotedKeyLine(k);
    NextOfCutLine(b);
    UncutKeyLine(k);
    SplitQuotedKey(k);
    QuotedReadsBack(k, true);
    assert EntryHead(cur, 0, []).BadHead?;
    assert !IsDash(b) && !IsFlowStart(b[0]);
    assert Mapping(cur, 0, []).Failed?;
    assert Block(cur, 0) == Mapping(cur, 0, []);
  }

  lemma SplitQuotedKey(k: string)
    requires '"' !in k
    ensures SplitKey(Quoted(k, true) + ": null") == Some(Entry(Quoted(k, true), "null"))
  {
    hide SplitKey, Strip;
    var t := Quoted(k, true);
    EscapedCharacters(k, true);
    assert t[1..|t| - 1] == Escaped(k, true);
    SplitQuoted(t, " null");
    assert t + ":" + " null" == t + ": null";
    BlankStrips("null");
    assert " " + "null" == " null";
  }

  /**
   For a key that goes out in quotes the exact condition: a dict of it comes back if and only if it holds no quotation
   mark and no character beyond 16 bits, and nothing in it looks like a tag.
   */
  lemma QuotedKeyComesBackExactly(k: string, u: Unicode)
    requires !IsKeyBody(BeforeDollar(k), u)
    ensures var v := Dict([Pair(Str(k), Null)]); Loads(Yaml(v, 0, u)) == Ok(v) <==> IsSafeQuotedKey(k)
  {
    hide Yaml, Loads, IsKeyBody, BeforeDollar, HasTaggedValue, Quoted, HasAstral;
    var v := Dict([Pair(Str(k), Null)]);
    YamlOfOneEntry(k, u);
    if '"' in k {
      InnerQuoteKeyIsLost(k);
    } else if HasTaggedValue(Quoted(k, true)) {
      TaggedKeyIsLost(k);
    } else if HasAstral(k) {
      AstralKeyIsLost(k);
    } else {
      assert IsSafeEntry(Pair(Str(k), Null), u);
      assert IsSafe(v, u);
      RoundTrip(v, u);
    }
  }

  /** Three keys that go out in quotes and do not come back: one with a quotation mark, one like a tag, one an emoji. */
  lemma MisreadKeys(u: Unicode)
    ensures forall k :: k in {"a\"b", "a: !b", "\U{1F600}"} ==>
              var v := Dict([Pair(Str(k), Null)]); Loads(Yaml(v, 0, u)) != Ok(v)
  {
    hide Yaml, Loads, IsKeyBody, BeforeDollar, Quoted, HasTaggedValue, HasAstral;
    assert '"' in "a\"b" by { assert "a\"b"[1] == '"'; }
    assert HasAstral("\U{1F600}") by { OneAstral(); }
    assert "a: !b" == "a" + (": !" + "b");
    TagInQuotes("a", "b", true);
    forall k | k in {"a\"b", "a: !b", "\U{1F600}"}
      ensures var v := Dict([Pair(Str(k), Null)]); Loads(Yaml(v, 0, u)) != Ok(v)
    {
      MarkedKeysGoQuoted(k, u);
      QuotedKeyComesBackExactly(k, u);
    }
  }

  lemma MarkedKeysGoQuoted(k: string, u: Unicode)
    requires k in {"a\"b", "a: !b", "\U{1F600}"}
    ensures !IsKeyBody(BeforeDollar(k), u)
  {
    var b := BeforeDollar(k);
    assert |b| > 1 ==> !(IsWord(b[1], u) || b[1] == '.' || b[1] == '-');
  }

  lemma OneAstral()
    ensures HasAstral("\U{1F600}")
  {
    assert "\U{1F600}"[0] == '\U{1F600}';
    assert '\U{1F600}' in "\U{1F600}" && IsAstral('\U{1F600}');
  }
}
