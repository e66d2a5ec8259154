/**
 Exactly which plain strings and keys survive: the emitter's promise that a string is quoted whenever plain
 style could be misread fails for some strings, and this module says for which.
 */
module YamlMisread {
  import opened Wrappers
  import opened YamlText
  import opened YamlScalar
  import opened YamlReader
  import opened YamlEmitter
  import opened YamlLayout
  import opened YamlRoundTrip
  import opened YamlDocument
  import opened YamlSafe

  /** Reading on never drops what was read. */
  lemma {:induction false} SequenceKeepsItems(cur: Cursor, k: int, out: seq<Value>)
    requires cur.i <= |cur.raw| && Sequence(cur, k, out).Done?
    ensures Sequence(cur, k, out).value.List? && out <= Sequence(cur, k, out).value.items
    decreases Size(cur)
  {
    hide Next, ItemHead, ItemValue, IsDash, Size;
    if Next(cur).Some? && Next(cur).value.indent == k && IsDash(Next(cur).value.content) {
      var item := ItemValue(ItemHead(cur), k, Next(cur).value.at + 1, Size(cur));
      SequenceKeepsItems(item.cur, k, out + [item.value]);
      assert out <= out + [item.value];
    }
  }

  lemma {:induction false} MappingKeepsEntries(cur: Cursor, k: int, out: seq<Pair>)
    requires cur.i <= |cur.raw| && Mapping(cur, k, out).Done?
    ensures Mapping(cur, k, out).value.Dict? && out <= Mapping(cur, k, out).value.entries
    decreases Size(cur)
  {
    hide Next, EntryHead, ValueAfter, IsDash, Size, HasKey;
    match Next(cur)
    case None =>
    case Some(next) =>
      if next.indent < k || (next.indent == k && IsDash(next.content)) {
      } else {
        var head := EntryHead(cur, k, out);
        var value := ValueAfter(head.cur, head.rest, k, next.at + 1, true);
        MappingKeepsEntries(value.cur, k, out + [Pair(head.key, value.value)]);
      }
  }

  // --- a list of one plain string ----------------------------------------------------------------------------

  lemma YamlOfOneItem(s: string, u: Unicode)
    requires GoesPlain(s, u)
    ensures Yaml(List([Str(s)]), 0, u) == "- " + s
  {
    hide GoesPlain;
    assert [Str(s)][1..] == [];
    assert Spaces(0) + "- " + s == "- " + s;
    assert ItemTexts([Str(s)], 0, u) == [ItemText(Str(s), 0, u)];
  }

  lemma LinesOfOne(p: string, s: string, u: Unicode)
    requires IsPlainBody(BeforeDollar(s), u) && NoBreaks(p)
    ensures LinesOf(p + s) == [p + BeforeDollar(s)]
  {
    hide ExpandTabs, SplitLines;
    var b := BeforeDollar(s);
    PlainCharacters(b, u);
    assert s == b || s == b + "\n";
    NoTabsToExpand(p + s, 0);
    SplitFirst(p + b, "");
    assert b[|b| - 1] in b;
    if s == b {
      assert BeforeDollar(p + s) == p + b;
    } else {
      assert p + s == p + b + "\n";
      assert BeforeDollar(p + s) == p + b;
    }
  }

  /** The reader sees the item without the blanks at its end. */
  lemma NextOfItem(b: string, u: Unicode)
    requires IsPlainBody(b, u)
    ensures Next(Cursor(["- " + b], 0)) == Some(Significant(0, 0, "- " + RStrip(b)))
    ensures Trimmed(RStrip(b)) && IsPlainBody(RStrip(b), u)
  {
    hide StripComment, IsPlainBody, Strip, Indent, RStrip;
    var t := RStrip(b);
    PlainCharacters(b, u);
    RStripKeepsStart(b);
    PlainPrefix(b, t, u);
    ItemUncut(b, u);
    StripTrimmed("- " + t);
    assert !StartsWith("- " + t, "---") by { assert ("- " + t)[1] == ' '; }
    assert Indent("- " + t) == 0;
  }

  lemma ItemUncut(b: string, u: Unicode)
    requires IsPlainBody(b, u)
    ensures StripComment("- " + b) == "- " + RStrip(b)
  {
    hide Scan, IsPlainBody;
    PlainCharacters(b, u);
    ScanNeutral("- " + b, ' ');
    RStripConcat("- ", b);
  }

  lemma PlainPrefix(b: string, t: string, u: Unicode)
    requires IsPlainBody(b, u) && t <= b && t != ""
    ensures IsPlainBody(t, u)
  {
  }

  lemma RStripKeepsStart(b: string)
    requires b != "" && !IsBlank(b[0])
    ensures RStrip(b) != "" && Trimmed(RStrip(b)) && Trimmed("- " + RStrip(b))
  {
    var r := RStrip(b);
    assert !IsBlank(b[0]);
    assert |r| > 0;
    assert r[0] == b[0];
  }

  lemma {:induction false} RStripConcat(p: string, b: string)
    requires b != "" && !IsBlank(b[0])
    ensures RStrip(p + b) == p + RStrip(b)
    decreases |b|
  {
    if IsBlank(b[|b| - 1]) {
      assert (p + b)[..|p + b| - 1] == p + b[..|b| - 1];
      RStripConcat(p, b[..|b| - 1]);
    } else {
      assert (p + b)[|p + b| - 1] == b[|b| - 1];
    }
  }

  /** An item that starts no flow and no block scalar is read as a string only when it is no dash and no entry, and is
      that string as a scalar. */
  lemma ItemIsString(cur: Cursor, t: string, s: string)
    requires cur.i <= |cur.raw| && Trimmed(t) && !IsBlockIndicator(t[0]) && !IsFlowStart(t[0])
    requires Next(cur) == Some(Significant(0, 0, "- " + t)) && IsDash("- " + t)
    requires ItemValue(ItemHead(cur), 0, 1, Size(cur)).Done?
    requires ItemValue(ItemHead(cur), 0, 1, Size(cur)).value == Str(s)
    ensures CheckOk("- " + t) && !IsDash(t) && SplitKey(t).None? && Scalar(t) == Ok(Str(s))
  {
    hide Next, Scalar, SplitKey, CheckOk, Find, Indent, Size, ValueAfter, Sequence, Mapping, Strip, Continues;
    DashedStrips(t);
    match ItemHead(cur)
    case Nested(isSequence, col, inner) =>
      if isSequence {
        SequenceKeepsItems(inner, col, []);
      } else {
        MappingKeepsEntries(inner, col, []);
      }
    case _ =>
  }

  lemma ScalarIsPlainString(t: string, s: string, u: Unicode)
    requires Trimmed(t) && IsPlainBody(t, u) && Scalar(t) == Ok(Str(s))
    ensures t == s && !IsFloat(t)
  {
    hide UnterminatedFrom, Unescaped, HalveQuotes, Strip, IsFloat, IsInt, IsPlainBody, WithoutUnderscores;
    StripTrimmed(t);
    PlainCharacters(t, u);
    assert t[0] in t && t[|t| - 1] in t;
    assert BeforeDollar(t) == t;
  }

  lemma PlainStart(t: string, u: Unicode)
    requires IsPlainBody(t, u)
    ensures t != "" && !IsBlockIndicator(t[0]) && !IsFlowStart(t[0])
  {
    PlainCharacters(t, u);
  }

  lemma LoadsOneItem(s: string, u: Unicode)
    requires GoesPlain(s, u) && Loads("- " + s) == Ok(List([Str(s)]))
    ensures IsSafePlain(s, u)
  {
    hide LinesOf, Next, ItemHead, ItemValue, Scalar, IsPlainBody, LooksNumber, IsReserved, IsFloat, RStrip,
         BeforeDollar, Size,
         HasColonSpace;
    var b := BeforeDollar(s);
    var t := RStrip(b);
    var cur := Cursor(["- " + b], 0);
    LinesOfOne("- ", s, u);
    NextOfItem(b, u);
    DashedIsDash(t);
    var item := ItemValue(ItemHead(cur), 0, 1, Size(cur));
    assert Sequence(cur, 0, []).Done? && Sequence(cur, 0, []).value == List([Str(s)]);
    SequenceKeepsItems(item.cur, 0, [] + [item.value]);
    assert ([] + [item.value])[0] == [Str(s)][0];
    PlainStart(t, u);
    ItemIsString(cur, t, s);
    ScalarIsPlainString(t, s, u);
  }

  /**
   For a string that goes out plain the exact condition: a list of it comes back if and only if it ends in no
   blank or line break, is not `-` or `- ...`, and is no number to the reader.
   */
  lemma PlainItemComesBackExactly(s: string, u: Unicode)
    requires GoesPlain(s, u)
    ensures Loads(Yaml(List([Str(s)]), 0, u)) == Ok(List([Str(s)])) <==> IsSafePlain(s, u)
  {
    hide GoesPlain, IsSafePlain, Yaml, Loads;
    var v := List([Str(s)]);
    YamlOfOneItem(s, u);
    if IsSafePlain(s, u) {
      assert IsSafe(v, u) by {
        assert IsSafeString(s, u);
        assert IsSafe(Str(s), u);
      }
      RoundTrip(v, u);
    }
    if Loads("- " + s) == Ok(v) {
      LoadsOneItem(s, u);
    }
  }

  /** Three strings that the emitter lets out plain and the reader takes for something else. */
  lemma MisreadStrings(u: Unicode)
    ensures GoesPlain("-", u) && GoesPlain("1.", u) && GoesPlain("a ", u)
    ensures forall s :: s in {"-", "1.", "a "} ==> Loads(Yaml(List([Str(s)]), 0, u)) != Ok(List([Str(s)]))
  {
    hide Loads, Yaml;
    MisreadStringsGoPlain(u);
    assert IsFloat("1.") by {
      assert "1."[2..] == "" && Run("", false) == 0 && Run(".", true) == 0;
    }
    forall s | s in {"-", "1.", "a "} ensures Loads(Yaml(List([Str(s)]), 0, u)) != Ok(List([Str(s)])) {
      PlainItemComesBackExactly(s, u);
    }
  }

  lemma MisreadStringsGoPlain(u: Unicode)
    ensures GoesPlain("-", u) && GoesPlain("1.", u) && GoesPlain("a ", u)
  {
    hide LooksNumber, IsReserved;
    ShortStringsAreNotReserved();
    assert !LooksNumber("-", u) && !LooksNumber("a ", u) by { NoDigitNoNumber(u); }
    assert !LooksNumber("1.", u) by { PointIsNoNumber(u); }
  }

  lemma ShortStringsAreNotReserved()
    ensures !IsReserved("-") && !IsReserved("1.") && !IsReserved("a ")
  {
    assert Lower("-") == "-" && Lower("1.") == "1." && Lower("a ") == "a ";
  }

  lemma NoDigitNoNumber(u: Unicode)
    ensures !LooksNumber("-", u) && !LooksNumber("a ", u)
  {
  }

  lemma PointIsNoNumber(u: Unicode)
    ensures !LooksNumber("1.", u)
  {
    assert DigitRun(".", true, u) == 0;
    assert DigitRun("1.", true, u) == 1;
    assert "1."[1..] == "." && "."[1..] == "" && DigitRun("", false, u) == 0;
  }

  // --- a dict with one plain key -----------------------------------------------------------------------------

  lemma YamlOfOneEntry(k: string, u: Unicode)
    ensures Yaml(Dict([Pair(Str(k), Null)]), 0, u) == KeyText(k, u) + ": null"
  {
    hide KeyText;
    var e := Pair(Str(k), Null);
    assert [e][1..] == [];
    assert Spaces(0) + KeyText(k, u) == KeyText(k, u);
    assert KeyText(k, u) + ": " + "null" == KeyText(k, u) + ": null";
    assert EntryTexts([e], 0, u) == [EntryText(e, 0, u)];
  }

  lemma OneEntryLine(k: string, u: Unicode)
    requires IsKeyBody(k, u)
    ensures LinesOf(k + ": null") == [k + ": null"]
    ensures Next(Cursor([k + ": null"], 0)) == Some(Significant(0, 0, k + ": null")) && CheckOk(k + ": null")
    ensures SplitKey(k + ": null") == Some(Entry(k, "null")) && !IsDash(k + ": null") && !IsFlowStart((k + ": null")[0])
  {
    hide LinesOf, Scan, HasTaggedValue, Scalar, Next, SplitKey, IsKeyBody, CheckOk, NoBreaks, IsInLine;
    var b := k + ": null";
    assert b == k + ": " + "null";
    PlainKeyText(k, u);
    WordInLine("null");
    EntryLineIsClean(k, "null");
    SplitLeafEntry(k, "null");
    KeyCharacters(k, u);
    assert k[0] in k && b[0] == k[0];
    CleanIsUnbroken(b);
    LinesOfUnbroken(b);
    assert Line(0, b).Text() == b;
    NextIsLine(Cursor([b], 0), Line(0, b));
    assert CheckOk(b) by { CleanIsCheckOk(b); }
  }

  lemma CleanIsUnbroken(b: string)
    requires IsClean(b)
    ensures b != "" && NoBreaks(b)
  {
  }

  lemma CleanIsCheckOk(b: string)
    requires IsClean(b)
    ensures CheckOk(b)
  {
  }

  lemma PlainKeyText(k: string, u: Unicode)
    requires IsKeyBody(k, u)
    ensures IsKeyText(k)
  {
    hide Scan, HasTaggedValue, IsKeyBody;
    KeyCharacters(k, u);
    ScanNeutral(k, ' ');
    NoTaggedValue(k);
  }

  lemma LinesOfUnbroken(b: string)
    requires b != "" && NoBreaks(b)
    ensures LinesOf(b) == [b]
  {
    hide ExpandTabs, SplitLines;
    NoTabsToExpand(b, 0);
    SplitFirst(b, "");
    assert b[|b| - 1] in b;
  }

  /** For a key that goes out plain the exact condition: a dict of it comes back if and only if it ends in no line break
      and is no null or boolean word. */
  lemma PlainKeyComesBackExactly(k: string, u: Unicode)
    requires IsKeyBody(BeforeDollar(k), u)
    ensures var v := Dict([Pair(Str(k), Null)]);
            Loads(Yaml(v, 0, u)) == Ok(v) <==> k == BeforeDollar(k) && !IsKeyword(k)
  {
    hide Yaml, Loads, IsKeyBody, BeforeDollar;
    var v := Dict([Pair(Str(k), Null)]);
    YamlOfOneEntry(k, u);
    if k != BeforeDollar(k) {
      BrokenKeyIsLost(k, u);
    } else if IsKeyword(k) {
      KeywordKeyIsLost(k, u);
    } else {
      assert IsSafeEntry(Pair(Str(k), Null), u);
      assert IsSafe(v, u);
      RoundTrip(v, u);
    }
  }

  /** A key with a line break at its end goes out plain, on two lines, and the reader finds no key on the first. */
  lemma BrokenKeyIsLost(k: string, u: Unicode)
    requires IsKeyBody(BeforeDollar(k), u) && k != BeforeDollar(k)
    ensures Loads(k + ": null").Err?
  {
    hide LinesOf, Next, IsKeyBody, BeforeDollar, SplitKey, CheckOk, ScalarAt, Leaf, Size, IsFlowStart, IsDash;
    var b := BeforeDollar(k);
    var cur := Cursor([b, ": null"], 0);
    LinesOfBroken(k, u);
    FirstOfBroken(b, u);
    assert EntryHead(cur, 0, []).BadHead?;
    assert Mapping(cur, 0, []).Failed?;
    assert Block(cur, 0) == Mapping(cur, 0, []);
  }

  lemma LinesOfBroken(k: string, u: Unicode)
    requires IsKeyBody(BeforeDollar(k), u) && k != BeforeDollar(k)
    ensures LinesOf(k + ": null") == [BeforeDollar(k), ": null"]
  {
    hide ExpandTabs, SplitLines, IsKeyBody;
    var b := BeforeDollar(k);
    var text := k + ": null";
    KeyCharacters(b, u);
    NoTabsToExpand(text, 0);
    assert BeforeDollar(text) == text;
    assert text == b + "\n" + ": null";
    SplitFirst(b, ": null");
    SplitFirst(": null", "");
  }

  lemma FirstOfBroken(b: string, u: Unicode)
    requires IsKeyBody(b, u)
    ensures Next(Cursor([b, ": null"], 0)) == Some(Significant(0, 0, b))
    ensures SplitKey(b).None? && !IsDash(b) && !IsFlowStart(b[0])
  {
    hide Scan, IsKeyBody, Strip, RStrip, LStrip, Indent, KeyColon;
    KeyCharacters(b, u);
    KeyStarts(b, u);
    assert b[0] in b && b[|b| - 1] in b;
    ScanNeutral(b, ' ');
    StripTrimmed(b);
    NoColon(b, 1);
    assert Indent(b) == 0 by { NoIndent(b); }
    assert !StartsWith(b, "---");
  }

  lemma NoIndent(b: string)
    requires b != "" && b[0] != ' '
    ensures Indent(b) == 0
  {
  }

  lemma KeywordKeyIsLost(k: string, u: Unicode)
    requires IsKeyBody(k, u) && IsKeyword(k)
    ensures Loads(k + ": null") != Ok(Dict([Pair(Str(k), Null)]))
  {
    hide LinesOf, Next, CheckOk, SplitKey, IsKeyBody, Scalar, Size, Leaf, ValueAfter, IsFlowStart;
    var b := k + ": null";
    var cur := Cursor([b], 0);
    OneEntryLine(k, u);
    KeywordIsNoString(k);
    if Block(cur, 0).Done? {
      assert Block(cur, 0) == Mapping(cur, 0, []);
      var head := EntryHead(cur, 0, []);
      var value := ValueAfter(head.cur, head.rest, 0, 1, true);
      var p := Pair(head.key, value.value);
      MappingKeepsEntries(value.cur, 0, [] + [p]);
      assert ([] + [p])[0] == p;
      assert Block(cur, 0).value.entries[0] == p;
      assert head.key == Scalar(k).value;
    }
  }

  lemma KeywordIsNoString(k: string)
    requires IsKeyword(k)
    ensures Scalar(k).Ok? && !Scalar(k).value.Str?
  {
    hide UnterminatedFrom, Unescaped, HalveQuotes, Strip, IsFloat, IsInt, WithoutUnderscores, BeforeDollar;
    KeywordStart(k);
    KeywordTrimmed(k);
    StripTrimmed(k);
  }

  lemma KeywordTrimmed(k: string)
    requires IsKeyword(k)
    ensures Trimmed(k)
  {
  }
}
