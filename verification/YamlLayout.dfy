/**
 The layout of an emitted document: its lines as (indent, body) pairs, and the facts about single lines
 that reading them back rests on.
 */
module YamlLayout {
  import opened Wrappers
  import opened YamlText
  import opened YamlScalar
  import opened YamlReader
  import opened YamlEmitter

  datatype Line = Line(indent: nat, body: string) {
    function Text(): string {
      Spaces(indent) + body
    }
  }

  function Texts(lines: seq<Line>): (r: seq<string>)
    ensures |r| == |lines|
    ensures forall i :: 0 <= i < |lines| ==> r[i] == lines[i].Text()
  {
    if lines == [] then [] else [lines[0].Text()] + Texts(lines[1..])
  }

  predicate NoBreaks(s: string) {
    '\n' !in s && '\r' !in s && '\t' !in s
  }

  /** A body the reader sees whole: not cut as a comment, not a document marker, no tag in it. */
  predicate IsClean(b: string) {
    IsInLine(b) && b != "..." && !StartsWith(b, "---")
  }

  // --- what a leaf and a key must look like in the text ------------------------------------------------

  /** A text that stays whole after a dash or a colon. */
  predicate IsInLine(t: string) {
    Trimmed(t) && NoBreaks(t) && Scan(t, ' ', None).Through? && CheckOk(t)
  }

  /** The text of a leaf that the reader takes back as `x` behind the key of an entry. */
  predicate ReadsInEntry(t: string, x: Value) {
    && IsInLine(t) && !IsBlockIndicator(t[0])
    && (IsFlowStart(t[0]) ==> t == "[]" || t == "{}")
    && Scalar(t) == Ok(x)
  }

  /** Behind the dash of an item it must not look like an item or an entry either. */
  predicate ReadsBackAs(t: string, x: Value) {
    ReadsInEntry(t, x) && !IsDash(t) && SplitKey(t).None?
  }

  predicate IsQuotedKey(t: string) {
    |t| >= 2 && t[0] == '"' && t[|t| - 1] == '"' && '"' !in t[1..|t| - 1]
  }

  predicate IsPlainKey(t: string) {
    && t != "" && !IsQuote(t[0]) && t[0] !in {'-', '<', '&', '*', '!'}
    && forall i :: 0 <= i < |t| ==> !IsBlank(t[i]) && t[i] !in {':', '#', '[', ']', '{', '}', ','}
  }

  /** A text that may stand before the colon of an entry. */
  predicate IsKeyText(t: string) {
    && NoBreaks(t) && Scan(t, ' ', None) == Through(None) && !HasTaggedValue(t)
    && (IsQuotedKey(t) || IsPlainKey(t))
  }

  /** The text of a key that the reader takes back as `k`. */
  predicate KeyReadsBackAs(t: string, k: Value) {
    IsKeyText(t) && Scalar(t) == Ok(k)
  }

  // --- the lines of a value ----------------------------------------------------------------------------

  function Dashed(lines: seq<Line>, k: nat): seq<Line> {
    if lines == [] then [] else [Line(k, "- " + lines[0].body)] + lines[1..]
  }

  function Lines(v: Value, n: nat, u: Unicode): seq<Line>
    decreases v, 1
  {
    if v.Dict? then EntryLines(v.entries, n, u)
    else if v.List? then ItemLines(v.items, n, u)
    else []
  }

  function EntryBlock(e: Pair, n: nat, u: Unicode): seq<Line>
    decreases e, 2
  {
    var key := KeyText(KeyOf(e.key), u);
    if IsBlock(e.value) then [Line(2 * n, key + ":")] + Lines(e.value, n + 1, u)
    else [Line(2 * n, key + ": " + LeafText(e.value, u))]
  }

  function ItemBlock(x: Value, n: nat, u: Unicode): seq<Line>
    decreases x, 2
  {
    if IsBlock(x) then Dashed(Lines(x, n + 1, u), 2 * n) else [Line(2 * n, "- " + LeafText(x, u))]
  }

  function EntryLines(entries: seq<Pair>, n: nat, u: Unicode): seq<Line>
    decreases entries, 0
  {
    if entries == [] then [] else EntryBlock(entries[0], n, u) + EntryLines(entries[1..], n, u)
  }

  function ItemLines(items: seq<Value>, n: nat, u: Unicode): seq<Line>
    decreases items, 0
  {
    if items == [] then [] else ItemBlock(items[0], n, u) + ItemLines(items[1..], n, u)
  }

  /** Every leaf and key of the value reads back from its own text, and no dict repeats a key. */
  ghost predicate Readable(v: Value, u: Unicode)
    decreases v
  {
    if v.List? then forall i :: 0 <= i < |v.items| ==> Readable(v.items[i], u)
    else if v.Dict? then
      && (forall i :: 0 <= i < |v.entries| ==> ReadableEntry(v.entries[i], u))
      && (forall i, j :: 0 <= i < j < |v.entries| ==> v.entries[i].key != v.entries[j].key)
    else ReadsBackAs(ScalarText(v, u), v)
  }

  ghost predicate ReadableEntry(e: Pair, u: Unicode)
    decreases e
  {
    && e.key.Str? && KeyReadsBackAs(KeyText(e.key.s, u), e.key)
    && if e.value.List? || e.value.Dict? then Readable(e.value, u) else ReadsInEntry(ScalarText(e.value, u), e.value)
  }

  lemma ScalarOfEmpty()
    ensures Scalar("[]") == Ok(List([])) && Scalar("{}") == Ok(Dict([]))
  {
    hide Strip, Unescaped, UnterminatedFrom, IsInt, IsFloat, HalveQuotes, BeforeDollar;
    StripTrimmed("[]");
    StripTrimmed("{}");
  }

  lemma EmptyReadsBack()
    ensures ReadsBackAs("[]", List([])) && ReadsBackAs("{}", Dict([]))
  {
    hide Scalar;
    ScalarOfEmpty();
  }

  /** What reads back behind a dash does so behind a key. */
  lemma ReadsThereToo(t: string, x: Value)
    requires ReadsBackAs(t, x)
    ensures ReadsInEntry(t, x)
  {
    hide ReadsInEntry, SplitKey, IsDash;
  }

  lemma EntryLeafReads(e: Pair, u: Unicode)
    requires ReadableEntry(e, u) && !IsBlock(e.value)
    ensures ReadsInEntry(LeafText(e.value, u), e.value)
  {
    hide ReadsInEntry, ReadsBackAs, ScalarText, KeyReadsBackAs;
    EmptyReadsBack();
    ReadsThereToo("[]", List([]));
    ReadsThereToo("{}", Dict([]));
  }

  lemma LeafReadsBack(x: Value, u: Unicode)
    requires Readable(x, u) && !IsBlock(x)
    ensures ReadsBackAs(LeafText(x, u), x)
  {
    hide ReadsBackAs, ScalarText;
    EmptyReadsBack();
  }

  // --- single lines ------------------------------------------------------------------------------------

  lemma {:induction false} HasTaggedConcat(p: string, q: string)
    requires !HasTaggedValue(p) && (p == "" || (p[|p| - 1] != ':' && !IsBlank(p[|p| - 1])))
    ensures HasTaggedValue(p + q) == HasTaggedValue(q)
  {
    if p == "" {
      assert p + q == q;
    } else {
      assert (p + q)[1..] == p[1..] + q;
      HasTaggedConcat(p[1..], q);
      if p[0] == ':' && |p| > 1 && IsBlank(p[1]) {
        BlanksConcat(p[1..], q);
      }
    }
  }

  lemma {:induction false} BlanksConcat(p: string, q: string)
    requires !BlanksThenTag(p) && p != "" && !IsBlank(p[|p| - 1])
    ensures !BlanksThenTag(p + q)
  {
    assert (p + q)[1..] == p[1..] + q;
    if IsBlank(p[0]) {
      BlanksConcat(p[1..], q);
    }
  }

  lemma {:induction false} FindQuote(t: string, rest: string, from: nat)
    requires IsQuotedKey(t) && 1 <= from < |t|
    ensures Find(t + rest, '"', from) == |t| - 1
    decreases |t| - from
  {
    if from < |t| - 1 {
      assert (t + rest)[from] == t[1..|t| - 1][from - 1];
      FindQuote(t, rest, from + 1);
    }
  }

  lemma {:induction false} FindColon(t: string, rest: string, p: nat)
    requires IsPlainKey(t) && 1 <= p <= |t| && (rest == "" || IsBlank(rest[0]))
    ensures KeyColon(t + ":" + rest, p) == |t|
    decreases |t| - p
  {
    var s := t + ":" + rest;
    if p < |t| {
      assert s[p] == t[p];
      FindColon(t, rest, p + 1);
    } else {
      assert s[p] == ':' && (p + 1 < |s| ==> s[p + 1] == rest[0]);
    }
  }

  /** The key and the rest of an entry are told apart at the emitter's colon. */
  lemma SplitEntry(key: string, rest: string)
    requires IsKeyText(key) && (rest == "" || rest[0] == ' ')
    ensures SplitKey(key + ":" + rest) == Some(Entry(key, Strip(rest)))
  {
    hide Strip, Find, KeyColon, LStrip, RStrip;
    if IsQuotedKey(key) {
      SplitQuoted(key, rest);
    } else {
      SplitPlain(key, rest);
    }
  }

  lemma SplitQuoted(key: string, rest: string)
    requires IsQuotedKey(key) && (rest == "" || rest[0] == ' ')
    ensures SplitKey(key + ":" + rest) == Some(Entry(key, Strip(rest)))
  {
    hide Strip, Find, KeyColon, LStrip, RStrip;
    var s := key + ":" + rest;
    assert s[0] == key[0];
    assert s == key + (":" + rest);
    FindQuote(key, ":" + rest, 1);
    assert s[|key|] == ':' && s[|key| + 1..] == rest && (rest != "" ==> s[|key| + 1] == ' ');
    assert s[..|key|] == key;
  }

  lemma SplitPlain(key: string, rest: string)
    requires IsPlainKey(key) && (rest == "" || rest[0] == ' ')
    ensures SplitKey(key + ":" + rest) == Some(Entry(key, Strip(rest)))
  {
    hide Strip, Find, KeyColon, LStrip, RStrip;
    var s := key + ":" + rest;
    assert s[0] == key[0];
    FindColon(key, rest, 1);
    assert s[..|key|] == key && s[|key| + 1..] == rest;
    StripTrimmed(key);
  }

  lemma DashedIsClean(b: string)
    requires IsInLine(b)
    ensures IsClean("- " + b)
  {
    var d := "- " + b;
    ScanNeutral("- ", ' ');
    ScanConcat("- ", b, ' ', None);
    assert d[1..] == " " + b && d[1..][1..] == b;
    assert DropDashes(d) == DropDashes(d[1..]) == DropDashes(b);
    assert HasTaggedValue(d) == HasTaggedValue(d[1..]) == HasTaggedValue(b);
    assert d[1] == ' ';
  }

  lemma KeyCheckOk(key: string, rest: string)
    requires key != "" && !HasTaggedValue(key) && !IsTag(key[0]) && key[0] !in {'-', '<', ' '}
    requires key[|key| - 1] != ':' && !IsBlank(key[|key| - 1])
    requires !HasTaggedValue(rest)
    ensures CheckOk(key + rest)
  {
    var b := key + rest;
    assert b[0] == key[0];
    assert DropDashes(b) == b;
    HasTaggedConcat(key, rest);
  }

  lemma EntryScan(key: string, t: string)
    requires key != "" && Scan(key, ' ', None) == Through(None) && Scan(t, ' ', None).Through?
    ensures Scan(key + ": " + t, ' ', None).Through?
  {
    var prev := Last(key, ' ');
    assert key + ": " + t == key + (": " + t);
    ScanNeutral(": ", prev);
    ScanConcat(": ", t, prev, None);
    ScanConcat(key, ": " + t, ' ', None);
  }

  lemma TagFree(t: string)
    requires Trimmed(t) && CheckOk(t)
    ensures !HasTaggedValue(": " + t)
  {
    var s := ": " + t;
    assert s[1..] == " " + t && s[1..][1..] == t;
    assert !IsTag(t[0]);
    assert !BlanksThenTag(t);
  }

  lemma KeyLineIsClean(key: string)
    requires IsKeyText(key)
    ensures IsClean(key + ":")
  {
    var b := key + ":";
    ScanConcat(key, ":", ' ', None);
    KeyCheckOk(key, ":");
    assert b[0] == key[0] && b[|b| - 1] == ':';
  }

  lemma EntryShape(key: string, t: string)
    requires Trimmed(key) && NoBreaks(key) && key[0] != '-' && Trimmed(t) && NoBreaks(t)
    ensures var b := key + ": " + t; Trimmed(b) && NoBreaks(b) && b != "..." && !StartsWith(b, "---")
  {
    var b := key + ": " + t;
    assert b[0] == key[0] && b[|b| - 1] == t[|t| - 1] && b[|key|] == ':';
  }

  lemma EntryLineIsClean(key: string, t: string)
    requires IsKeyText(key) && IsInLine(t)
    ensures IsClean(key + ": " + t)
  {
    EntryShape(key, t);
    EntryScan(key, t);
    TagFree(t);
    KeyCheckOk(key, ": " + t);
    assert key + ": " + t == key + (": " + t);
  }

  lemma CleanLineIsUncut(line: Line)
    requires IsClean(line.body)
    ensures StripComment(line.Text()) == line.Text() && !StartsWith(line.Text(), "---")
  {
    var text := line.Text();
    ScanNeutral(Spaces(line.indent), ' ');
    ScanConcat(Spaces(line.indent), line.body, ' ', None);
    StripIndented(line.indent, line.body);
    if line.indent == 0 {
      assert text == line.body;
    } else {
      assert text[0] == ' ';
    }
  }

  /** The reader takes a clean line for what it is. */
  lemma NextIsLine(cur: Cursor, line: Line)
    requires cur.i < |cur.raw| && cur.raw[cur.i] == line.Text() && IsClean(line.body)
    ensures Next(cur) == Some(Significant(cur.i, line.indent, line.body))
  {
    CleanLineIsUncut(line);
    StripIndented(line.indent, line.body);
  }
}
