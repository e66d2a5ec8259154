/**
 Whole documents: the emitted text splits into the emitted lines, and `loads` undoes `yaml` on every value
 whose leaves and keys read back.
 */
module YamlDocument {
  import opened Wrappers
  import opened YamlText
  import opened YamlScalar
  import opened YamlReader
  import opened YamlEmitter
  import opened YamlLayout
  import opened YamlRoundTrip

  // --- the emitted text is the emitted lines, joined -----------------------------------------------------

  lemma {:induction false} JoinConcat(a: seq<string>, b: seq<string>)
    requires a != [] && b != []
    ensures Join(a + b) == Join(a) + "\n" + Join(b)
  {
    if |a| == 1 {
      assert (a + b)[1..] == b;
    } else {
      assert (a + b)[1..] == a[1..] + b;
      JoinConcat(a[1..], b);
    }
  }

  lemma {:induction false} LStripSpaces(k: nat, c: string)
    requires c != "" && !IsBlank(c[0])
    ensures LStrip(Spaces(k) + c) == c
  {
    if k == 0 {
      assert Spaces(k) + c == c;
    } else {
      assert (Spaces(k) + c)[1..] == Spaces(k - 1) + c;
      LStripSpaces(k - 1, c);
    }
  }

  lemma {:induction false} YamlIsLines(v: Value, n: nat, u: Unicode)
    requires IsBlock(v) && Readable(v, u)
    ensures Yaml(v, n, u) == Join(Texts(Lines(v, n, u)))
    decreases v, 1
  {
    hide Readable, ReadableEntry, EntryText, ItemText, EntryBlock, ItemBlock;
    ReadableParts(v, n, u);
    if v.Dict? {
      EntriesAreLines(v.entries, n, u);
    } else {
      ItemsAreLines(v.items, n, u);
    }
  }

  lemma {:induction false} EntriesAreLines(entries: seq<Pair>, n: nat, u: Unicode)
    requires EntriesReadable(entries, u) && entries != []
    ensures Join(EntryTexts(entries, n, u)) == Join(Texts(EntryLines(entries, n, u)))
    decreases entries, 0
  {
    hide ReadableEntry, EntriesReadable, EntryText, EntryBlock, StartsAt, IsKeyLine;
    var e, others := entries[0], entries[1..];
    TailEntriesReadable(entries, u);
    EntryIsLines(e, n, u);
    EntryBlockLines(e, n, u);
    JoinFirst(EntryText(e, n, u), EntryBlock(e, n, u), n);
    if others == [] {
      assert EntryLines(entries, n, u) == EntryBlock(e, n, u);
    } else {
      EntriesAreLines(others, n, u);
      EntriesLines(others, n, u);
      NonEmpty(EntryBlock(e, n, u), 2 * n);
      NonEmpty(EntryLines(others, n, u), 2 * n);
      JoinBlocks(EntryText(e, n, u), EntryTexts(others, n, u), EntryBlock(e, n, u), EntryLines(others, n, u));
    }
  }

  lemma {:induction false} ItemsAreLines(items: seq<Value>, n: nat, u: Unicode)
    requires AllReadable(items, u) && items != []
    ensures Join(ItemTexts(items, n, u)) == Join(Texts(ItemLines(items, n, u)))
    decreases items, 0
  {
    hide Readable, AllReadable, ItemText, ItemBlock, StartsAt;
    var x, others := items[0], items[1..];
    TailReadable(items, u);
    ItemIsLines(x, n, u);
    ItemBlockLines(x, n, u);
    if others == [] {
      assert ItemLines(items, n, u) == ItemBlock(x, n, u);
    } else {
      ItemsAreLines(others, n, u);
      ItemsLines(others, n, u);
      NonEmpty(ItemBlock(x, n, u), 2 * n);
      NonEmpty(ItemLines(others, n, u), 2 * n);
      JoinBlocks(ItemText(x, n, u), ItemTexts(others, n, u), ItemBlock(x, n, u), ItemLines(others, n, u));
    }
  }

  lemma NonEmpty(lines: seq<Line>, k: nat)
    requires StartsAt(lines, k)
    ensures lines != []
  {
  }

  lemma JoinFirst(text: string, lines: seq<Line>, n: nat)
    ensures Join([text]) == text
  {
  }

  lemma JoinBlocks(text: string, texts: seq<string>, first: seq<Line>, others: seq<Line>)
    requires first != [] && others != [] && texts != []
    requires text == Join(Texts(first)) && Join(texts) == Join(Texts(others))
    ensures Join([text] + texts) == Join(Texts(first + others))
  {
    TextsConcat(first, others);
    JoinConcat(Texts(first), Texts(others));
    assert ([text] + texts)[1..] == texts;
  }

  lemma {:induction false} EntryIsLines(e: Pair, n: nat, u: Unicode)
    requires ReadableEntry(e, u)
    ensures EntryText(e, n, u) == Join(Texts(EntryBlock(e, n, u)))
    decreases e, 2
  {
    hide KeyReadsBackAs, KeyText, LeafText, Lines, Yaml, StartsAt, OpensBlock;
    var key := KeyText(KeyOf(e.key), u);
    var pad := Spaces(2 * n);
    if IsBlock(e.value) {
      YamlIsLines(e.value, n + 1, u);
      BlockLines(e.value, n + 1, u);
      NonEmpty(Lines(e.value, n + 1, u), 2 * (n + 1));
      var head := Line(2 * n, key + ":");
      JoinHead(head, Lines(e.value, n + 1, u));
      assert head.Text() + "\n" == pad + key + ":\n";
      assert EntryBlock(e, n, u) == [head] + Lines(e.value, n + 1, u);
    } else {
      var line := Line(2 * n, key + ": " + LeafText(e.value, u));
      assert EntryBlock(e, n, u) == [line] && Texts([line]) == [line.Text()];
      assert line.Text() == pad + key + ": " + LeafText(e.value, u);
    }
  }

  lemma JoinHead(head: Line, lines: seq<Line>)
    requires lines != []
    ensures Join(Texts([head] + lines)) == head.Text() + "\n" + Join(Texts(lines))
  {
    assert ([head] + lines)[1..] == lines;
    assert Texts([head] + lines) == [head.Text()] + Texts(lines);
    assert Texts([head] + lines)[1..] == Texts(lines);
  }

  lemma {:induction false} ItemIsLines(x: Value, n: nat, u: Unicode)
    requires Readable(x, u)
    ensures ItemText(x, n, u) == Join(Texts(ItemBlock(x, n, u)))
    decreases x, 2
  {
    hide Readable, LeafText, Lines, Yaml, OpensBlock;
    if IsBlock(x) {
      YamlIsLines(x, n + 1, u);
      BlockLines(x, n + 1, u);
      DashedJoin(Lines(x, n + 1, u), n);
    } else {
      var line := Line(2 * n, "- " + LeafText(x, u));
      assert ItemBlock(x, n, u) == [line] && Texts([line]) == [line.Text()];
      assert line.Text() == Spaces(2 * n) + "- " + LeafText(x, u);
    }
  }

  /** Cutting the first line's indentation off and putting a dash there is what the emitter does with a nested block. */
  lemma DashedJoin(lines: seq<Line>, n: nat)
    requires StartsAt(lines, 2 * n + 2)
    ensures Spaces(2 * n) + "- " + LStrip(Join(Texts(lines))) == Join(Texts(Dashed(lines, 2 * n)))
  {
    hide LStrip, Join, Texts, IsClean, Spaces;
    var pad, b, others := Spaces(2 * n), lines[0].body, lines[1..];
    assert lines == [lines[0]] + others;
    assert Dashed(lines, 2 * n) == [Line(2 * n, "- " + b)] + others;
    var tail := JoinTail(Line(2 * n + 2, b), others);
    var tail' := JoinTail(Line(2 * n, "- " + b), others);
    assert b != "" && !IsBlank(b[0]) by { assert IsClean(b); FirstOfClean(b); }
    LStripOfBody(2 * n + 2, b, tail);
    assert pad + "- " + (b + tail) == pad + ("- " + b) + tail;
  }

  lemma FirstOfClean(b: string)
    requires IsClean(b)
    ensures b != "" && !IsBlank(b[0])
  {
  }

  /** What joining puts after a line depends only on the lines after it. */
  ghost function JoinTail(head: Line, others: seq<Line>): (tail: string)
    ensures tail == if others == [] then "" else "\n" + Join(Texts(others))
    ensures Join(Texts([head] + others)) == Spaces(head.indent) + head.body + tail
  {
    if others == [] then
      assert [head] + others == [head] && Texts([head]) == [head.Text()];
      ""
    else
      JoinHead(head, others);
      "\n" + Join(Texts(others))
  }

  lemma LStripOfBody(k: nat, b: string, tail: string)
    requires b != "" && !IsBlank(b[0])
    ensures LStrip(Spaces(k) + b + tail) == b + tail
  {
    assert (b + tail)[0] == b[0];
    LStripSpaces(k, b + tail);
    assert Spaces(k) + b + tail == Spaces(k) + (b + tail);
  }

  // --- the text splits back into the lines -----------------------------------------------------------------

  lemma {:induction false} NoTabsToExpand(s: string, col: nat)
    requires '\t' !in s
    ensures ExpandTabs(s, col) == s
  {
    if s != "" {
      NoTabsToExpand(s[1..], if s[0] == '\n' || s[0] == '\r' then 0 else col + 1);
      assert s == [s[0]] + s[1..];
    }
  }

  lemma {:induction false} SplitFirst(a: string, rest: string)
    requires '\n' !in a && '\r' !in a
    ensures SplitLines(a) == [a]
    ensures SplitLines(a + "\n" + rest) == [a] + SplitLines(rest)
  {
    var s := a + "\n" + rest;
    if a == "" {
      assert s[1..] == rest;
    } else {
      assert s[0] == a[0] && s[1..] == a[1..] + "\n" + rest;
      SplitFirst(a[1..], rest);
      assert [a[0]] + a[1..] == a;
    }
  }

  ghost predicate UnbrokenTexts(texts: seq<string>) {
    forall i :: 0 <= i < |texts| ==> NoBreaks(texts[i]) && texts[i] != ""
  }

  lemma {:induction false} SplitJoin(texts: seq<string>)
    requires texts != [] && UnbrokenTexts(texts)
    ensures SplitLines(Join(texts)) == texts
    ensures '\t' !in Join(texts) && Join(texts) != "" && Join(texts)[|Join(texts)| - 1] != '\n'
  {
    hide SplitLines;
    assert NoBreaks(texts[0]) && texts[0] != "";
    if |texts| == 1 {
      SplitFirst(texts[0], "");
      assert texts == [texts[0]] && Join(texts) == texts[0];
    } else {
      var rest := Join(texts[1..]);
      SplitJoin(texts[1..]);
      SplitFirst(texts[0], rest);
      assert texts == [texts[0]] + texts[1..];
      assert Join(texts) == texts[0] + "\n" + rest;
    }
  }

  lemma EmittedLinesAreUnbroken(lines: seq<Line>, k: nat)
    requires StartsAt(lines, k)
    ensures UnbrokenTexts(Texts(lines)) && Texts(lines) != []
  {
    forall i | 0 <= i < |Texts(lines)| ensures NoBreaks(Texts(lines)[i]) && Texts(lines)[i] != "" {
      assert IsClean(lines[i].body);
    }
  }

  lemma LinesOfYaml(v: Value, u: Unicode)
    requires IsBlock(v) && Readable(v, u)
    ensures LinesOf(Yaml(v, 0, u)) == Texts(Lines(v, 0, u))
  {
    hide Readable, Lines, Yaml, StartsAt, OpensBlock, SplitLines, Texts, NoBreaks;
    YamlIsLines(v, 0, u);
    BlockLines(v, 0, u);
    EmittedLinesAreUnbroken(Lines(v, 0, u), 0);
    SplitJoin(Texts(Lines(v, 0, u)));
    NoTabsToExpand(Yaml(v, 0, u), 0);
  }

  // --- the round trip ----------------------------------------------------------------------------------------

  /** `loads(yaml(v)) == v` for every list or dict, however nested, whose leaves and keys read back. */
  lemma LoadsUndoesYaml(v: Value, u: Unicode)
    requires (v.List? || v.Dict?) && Readable(v, u)
    ensures Loads(Yaml(v, 0, u)) == Ok(v)
  {
    if IsBlock(v) {
      LoadsBlock(v, u);
    } else if v.List? {
      LoadsEmpty("[]", v);
      assert Spaces(0) + "[]" == "[]";
    } else {
      LoadsEmpty("{}", v);
      assert Spaces(0) + "{}" == "{}";
    }
  }

  lemma LoadsBlock(v: Value, u: Unicode)
    requires IsBlock(v) && Readable(v, u)
    ensures Loads(Yaml(v, 0, u)) == Ok(v)
  {
    hide Readable, Lines, Yaml, Block, Next, LinesOf;
    LinesOfYaml(v, u);
    var cur := Cursor(LinesOf(Yaml(v, 0, u)), 0);
    assert cur.Rest() == Texts(Lines(v, 0, u)) + [];
    var end := ReadBlock(cur, v, 0, [], u);
    assert Block(cur, 0) == Done(v, end);
    assert end.i == |end.raw|;
    NothingNext(end);
  }

  lemma NothingNext(cur: Cursor)
    requires cur.i == |cur.raw|
    ensures Next(cur).None?
  {
  }

  lemma LoadsEmpty(text: string, v: Value)
    requires (text == "[]" && v == List([])) || (text == "{}" && v == Dict([]))
    ensures Loads(text) == Ok(v)
  {
    hide LinesOf, Next, Block, SecondDocument;
    var cur := Cursor([text], 0);
    LinesOfEmpty(text);
    BlockOfEmpty(text, v);
    assert Block(cur, 0) == Done(v, Cursor([text], 1));
    NothingNext(Cursor([text], 1));
    assert SecondDocument([text], 1) == None by { NoSecondDocument(text); }
  }

  lemma NoSecondDocument(text: string)
    ensures SecondDocument([text], 1) == None
  {
  }

  lemma LinesOfEmpty(text: string)
    requires text == "[]" || text == "{}"
    ensures LinesOf(text) == [text]
  {
    hide ExpandTabs, SplitLines;
    NoTabsToExpand(text, 0);
    SplitFirst(text, "");
  }

  lemma BlockOfEmpty(text: string, v: Value)
    requires (text == "[]" && v == List([])) || (text == "{}" && v == Dict([]))
    ensures Block(Cursor([text], 0), 0) == Done(v, Cursor([text], 1))
  {
    hide Leaf, Next, IsClean, Sequence, Mapping, Size;
    var cur := Cursor([text], 0);
    EmptyIsClean(text);
    assert Line(0, text).Text() == text;
    NextIsLine(cur, Line(0, text));
    LeafEmpty(Consumed(cur), text, v);
  }

  lemma EmptyIsClean(text: string)
    requires text == "[]" || text == "{}"
    ensures IsClean(text) && !IsDash(text)
  {
    hide Scan;
    ScanNeutral(text, ' ');
    assert text[1..][1..] == "";
    assert !HasTaggedValue(text[1..]);
  }

  lemma LeafEmpty(cur: Cursor, text: string, v: Value)
    requires (text == "[]" && v == List([])) || (text == "{}" && v == Dict([]))
    ensures Leaf(cur, text, -1, 1) == Ok(v)
  {
    hide Scalar, Continues;
    ScalarOfEmpty();
  }
}
