/**
 Reading an emitted document gives the value back: `yamlish.loads` undoes `render.yaml`.
 */
module YamlRoundTrip {
  import opened Wrappers
  import opened YamlText
  import opened YamlScalar
  import opened YamlReader
  import opened YamlEmitter
  import opened YamlLayout

  // --- the lines of a readable value are clean ------------------------------------------------------

  ghost predicate AllClean(lines: seq<Line>) {
    forall i :: 0 <= i < |lines| ==> IsClean(lines[i].body)
  }

  /** What follows a block: nothing, or a clean line indented less than `k`. */
  ghost predicate Dedented(rest: seq<string>, k: nat) {
    rest != [] ==> exists line: Line :: IsClean(line.body) && line.indent < k && rest[0] == line.Text()
  }

  /** The lines start with a clean line of the given indent. */
  ghost predicate StartsAt(lines: seq<Line>, k: nat) {
    lines != [] && lines[0].indent == k && AllClean(lines)
  }

  /** A line that starts with the key: `key:` alone, or with a value after a blank. */
  ghost predicate IsKeyLine(b: string, key: string) {
    exists rest: string :: (rest == "" || rest[0] == ' ') && b == key + ":" + rest
  }

  ghost predicate OpensBlock(b: string, v: Value, u: Unicode)
    requires IsBlock(v)
  {
    if v.List? then StartsWith(b, "- ") else IsKeyLine(b, KeyText(KeyOf(v.entries[0].key), u))
  }

  lemma {:induction false} BlockLines(v: Value, n: nat, u: Unicode)
    requires IsBlock(v) && Readable(v, u)
    ensures StartsAt(Lines(v, n, u), 2 * n)
    ensures OpensBlock(Lines(v, n, u)[0].body, v, u)
    decreases v, 1
  {
    hide IsClean, IsKeyLine, KeyText;
    if v.Dict? {
      EntriesLines(v.entries, n, u);
    } else {
      ItemsLines(v.items, n, u);
    }
  }

  lemma {:induction false} EntriesLines(entries: seq<Pair>, n: nat, u: Unicode)
    requires EntriesReadable(entries, u)
    ensures if entries == [] then EntryLines(entries, n, u) == [] else StartsAt(EntryLines(entries, n, u), 2 * n)
    ensures entries != [] ==> IsKeyLine(EntryLines(entries, n, u)[0].body, KeyText(KeyOf(entries[0].key), u))
    decreases entries, 0
  {
    hide IsClean, IsKeyLine, KeyText, EntryBlock, ReadableEntry;
    if entries != [] {
      EntryBlockLines(entries[0], n, u);
      EntriesLines(entries[1..], n, u);
      assert EntryLines(entries, n, u) == EntryBlock(entries[0], n, u) + EntryLines(entries[1..], n, u);
    }
  }

  lemma {:induction false} EntryBlockLines(e: Pair, n: nat, u: Unicode)
    requires ReadableEntry(e, u)
    ensures StartsAt(EntryBlock(e, n, u), 2 * n)
    ensures IsKeyLine(EntryBlock(e, n, u)[0].body, KeyText(KeyOf(e.key), u))
    decreases e, 2
  {
    hide IsClean, KeyText, IsKeyText, IsInLine, Lines, LeafText, Scalar;
    var key := KeyText(e.key.s, u);
    if IsBlock(e.value) {
      BlockLines(e.value, n + 1, u);
      KeyLineIsClean(key);
      assert EntryBlock(e, n, u)[0].body == key + ":" + "";
    } else {
      var t := LeafText(e.value, u);
      EntryLeafReads(e, u);
      EntryLineIsClean(key, t);
      assert key + ": " + t == key + ":" + (" " + t);
    }
  }

  ghost predicate AllReadable(items: seq<Value>, u: Unicode) {
    forall i :: 0 <= i < |items| ==> Readable(items[i], u)
  }

  ghost predicate EntriesReadable(entries: seq<Pair>, u: Unicode) {
    forall i :: 0 <= i < |entries| ==> ReadableEntry(entries[i], u)
  }

  lemma {:induction false} ItemsLines(items: seq<Value>, n: nat, u: Unicode)
    requires AllReadable(items, u)
    ensures if items == [] then ItemLines(items, n, u) == [] else StartsAt(ItemLines(items, n, u), 2 * n)
    ensures items != [] ==> StartsWith(ItemLines(items, n, u)[0].body, "- ")
    decreases items, 0
  {
    hide IsClean, ItemBlock, Readable;
    if items != [] {
      ItemBlockLines(items[0], n, u);
      ItemsLines(items[1..], n, u);
    }
  }

  lemma {:induction false} ItemBlockLines(x: Value, n: nat, u: Unicode)
    requires Readable(x, u)
    ensures StartsAt(ItemBlock(x, n, u), 2 * n)
    ensures StartsWith(ItemBlock(x, n, u)[0].body, "- ")
    decreases x, 2
  {
    hide IsInLine, Lines, LeafText, Scalar, Readable, OpensBlock;
    if IsBlock(x) {
      BlockLines(x, n + 1, u);
      DashedIsClean(Lines(x, n + 1, u)[0].body);
    } else {
      LeafReadsBack(x, u);
      DashedIsClean(LeafText(x, u));
    }
  }

  // --- what follows a block ----------------------------------------------------------------------------

  lemma TextsConcat(a: seq<Line>, b: seq<Line>)
    ensures Texts(a + b) == Texts(a) + Texts(b)
  {
  }

  /** After one element come the rest of the block or what follows the block: both less indented than `k`. */
  lemma RestIsDedented(lines: seq<Line>, rest: seq<string>, at: nat, k: nat)
    requires lines != [] ==> StartsAt(lines, at)
    requires at < k && Dedented(rest, at)
    ensures Dedented(Texts(lines) + rest, k)
  {
    if lines != [] {
      assert (Texts(lines) + rest)[0] == lines[0].Text();
    } else {
      assert Texts(lines) + rest == rest;
    }
  }

  /** At the end of a block the reader sees no more of it. */
  lemma NextAfterBlock(cur: Cursor, rest: seq<string>, k: nat)
    requires cur.i <= |cur.raw| && cur.Rest() == rest && Dedented(rest, k)
    ensures Next(cur).None? || Next(cur).value.indent < k
  {
    if rest != [] {
      var line: Line :| IsClean(line.body) && line.indent < k && rest[0] == line.Text();
      assert cur.raw[cur.i] == rest[0];
      NextIsLine(cur, line);
    }
  }

  /** No scalar of the block goes on in the lines after it. */
  lemma NotContinued(cur: Cursor, rest: seq<string>, t: string, k: nat)
    requires cur.i <= |cur.raw| && cur.Rest() == rest && Dedented(rest, k + 1) && t != ""
    ensures !Continues(cur, t, k)
  {
    if rest != [] {
      var line: Line :| IsClean(line.body) && line.indent < k + 1 && rest[0] == line.Text();
      assert cur.raw[cur.i] == rest[0];
      StripIndented(line.indent, line.body);
    }
  }

  // --- reading one element -------------------------------------------------------------------------------

  lemma ReadLeafItem(cur: Cursor, x: Value, n: nat, rest: seq<string>, u: Unicode)
    requires Readable(x, u) && !IsBlock(x) && cur.i <= |cur.raw|
    requires cur.Rest() == Texts([Line(2 * n, "- " + LeafText(x, u))]) + rest
    requires Dedented(rest, 2 * n + 1)
    ensures Next(cur) == Some(Significant(cur.i, 2 * n, "- " + LeafText(x, u))) && IsDash(Next(cur).value.content)
    ensures ItemHead(cur) == Inline(x, Cursor(cur.raw, cur.i + 1))
    ensures cur.i < |cur.raw| && cur.raw[cur.i + 1..] == rest
  {
    hide Next, Readable, LeafText, Scalar, CheckOk, Scan, Size, Continues, Dedented, SplitKey, ItemHead, IsDash, Texts,
         Trimmed;
    var t := LeafText(x, u);
    LeafReadsBack(x, u);
    assert t != "" by { TrimmedIsFilled(t); }
    ReadLeafLine(cur, t, n, rest);
    NotContinued(Consumed(cur), rest, t, 2 * n);
    LeafItem(cur, t, x, 2 * n);
    DashedIsDash(t);
  }

  lemma TrimmedIsFilled(t: string)
    requires Trimmed(t)
    ensures t != ""
  {
  }

  lemma ReadLeafLine(cur: Cursor, t: string, n: nat, rest: seq<string>)
    requires IsInLine(t) && cur.i <= |cur.raw| && cur.Rest() == Texts([Line(2 * n, "- " + t)]) + rest
    ensures Next(cur) == Some(Significant(cur.i, 2 * n, "- " + t)) && CheckOk("- " + t)
    ensures cur.i < |cur.raw| && cur.raw[cur.i + 1..] == rest
    ensures Consumed(cur).i <= |Consumed(cur).raw| && Consumed(cur).Rest() == rest
  {
    hide Next, CheckOk, Scan, Size;
    var line := Line(2 * n, "- " + t);
    DashedIsClean(t);
    assert [line] + [] == [line] && Texts([]) + rest == rest;
    FirstText(cur, line, [], rest);
    NextIsLine(cur, line);
  }

  lemma LeafItem(cur: Cursor, t: string, x: Value, k: nat)
    requires Next(cur) == Some(Significant(cur.i, k, "- " + t)) && CheckOk("- " + t) && Trimmed(t)
    requires !IsDash(t) && SplitKey(t).None? && !IsBlockIndicator(t[0])
    requires IsFlowStart(t[0]) ==> t == "[]" || t == "{}"
    requires Scalar(t) == Ok(x)
    requires !Continues(Consumed(cur), t, k)
    ensures ItemHead(cur) == Inline(x, Cursor(cur.raw, cur.i + 1))
  {
    hide Next, Scalar, CheckOk, Size, Continues, SplitKey, Strip;
    DashedStrips(t);
  }

  lemma DashedStrips(b: string)
    requires Trimmed(b)
    ensures Strip(("- " + b)[1..]) == b
  {
    assert ("- " + b)[1..] == Spaces(1) + b;
    StripIndented(1, b);
  }

  /** A nested block in an item: the reader's blanked line is the first line of the block on its own. */
  lemma ReadBlockItem(cur: Cursor, x: Value, n: nat, rest: seq<string>, u: Unicode)
    requires Readable(x, u) && IsBlock(x) && cur.i <= |cur.raw|
    requires cur.Rest() == Texts(Dashed(Lines(x, n + 1, u), 2 * n)) + rest
    ensures Next(cur).Some? && Next(cur).value.indent == 2 * n && IsDash(Next(cur).value.content)
    ensures var item := ItemHead(cur);
            && item.Nested? && item.col == 2 * n + 2 && item.isSequence == x.List?
            && item.cur.i == cur.i <= |item.cur.raw| && item.cur.Rest() == Texts(Lines(x, n + 1, u)) + rest
  {
    hide Next, Readable, CheckOk, Scan, Size, SplitKey, OpensBlock, Lines, ItemHead, Texts, IsDash, Dashed;
    var lines := Lines(x, n + 1, u);
    BlockLines(x, n + 1, u);
    var b := lines[0].body;
    var line := Line(2 * n, "- " + b);
    DashedIsClean(b);
    DashedTexts(cur, lines, 2 * n, rest);
    NextIsLine(cur, line);
    BlockStartsItem(x, b, u);
    BlockItem(cur, b, n, x.List?);
    assert IsDash("- " + b) by { DashedIsDash(b); }
  }

  lemma DashedIsDash(b: string)
    ensures IsDash("- " + b)
  {
  }

  lemma DashedTexts(cur: Cursor, lines: seq<Line>, k: nat, rest: seq<string>)
    requires lines != [] && lines[0].indent == k + 2
    requires cur.i <= |cur.raw| && cur.Rest() == Texts(Dashed(lines, k)) + rest
    ensures cur.i < |cur.raw| && cur.raw[cur.i] == Line(k, "- " + lines[0].body).Text()
    ensures cur.raw[cur.i := Line(k + 2, lines[0].body).Text()][cur.i..] == Texts(lines) + rest
  {
    hide Texts, Spaces;
    var first, tail := lines[0].Text(), Texts(lines[1..]);
    assert Dashed(lines, k) == [Line(k, "- " + lines[0].body)] + lines[1..];
    FirstText(cur, Line(k, "- " + lines[0].body), lines[1..], rest);
    ReplacedText(cur, lines, tail + rest);
    TextsCons(lines);
    assert [first] + (tail + rest) == [first] + tail + rest;
  }

  lemma TextsCons(lines: seq<Line>)
    requires lines != []
    ensures Texts(lines) == [lines[0].Text()] + Texts(lines[1..])
  {
  }

  lemma ReplacedText(cur: Cursor, lines: seq<Line>, tail: seq<string>)
    requires lines != [] && cur.i < |cur.raw| && cur.raw[cur.i + 1..] == tail
    ensures cur.raw[cur.i := lines[0].Text()][cur.i..] == [lines[0].Text()] + tail
  {
  }

  /** The head of an item that holds a block: the dash is blanked out of its line. */
  lemma BlockItem(cur: Cursor, b: string, n: nat, isSequence: bool)
    requires cur.i < |cur.raw| && cur.raw[cur.i] == Line(2 * n, "- " + b).Text()
    requires Next(cur) == Some(Significant(cur.i, 2 * n, "- " + b)) && CheckOk("- " + b) && Trimmed(b)
    requires IsDash(b) == isSequence && (!isSequence ==> SplitKey(b).Some? && !IsFlowStart(b[0]))
    ensures ItemHead(cur) == Nested(isSequence, 2 * n + 2,
                                    Cursor(cur.raw[cur.i := Line(2 * n + 2, b).Text()], cur.i))
  {
    hide Next, CheckOk, Size, SplitKey, Strip, Find, Indent;
    DashedStrips(b);
    ColumnOfBody(n, b);
    assert cur.raw[cur.i][2 * n + 2..] == b;
  }

  lemma BlockStartsItem(x: Value, b: string, u: Unicode)
    requires Readable(x, u) && IsBlock(x) && OpensBlock(b, x, u)
    ensures IsDash(b) == x.List?
    ensures x.Dict? ==> SplitKey(b).Some? && !IsFlowStart(b[0])
  {
    hide SplitKey, KeyReadsBackAs, KeyText, IsFlowStart;
    if x.Dict? {
      var key := KeyText(KeyOf(x.entries[0].key), u);
      var rest: string :| (rest == "" || rest[0] == ' ') && b == key + ":" + rest;
      assert ReadableEntry(x.entries[0], u);
      EntryStartsItem(key, x.entries[0].key, rest);
    }
  }

  lemma EntryStartsItem(key: string, k: Value, rest: string)
    requires KeyReadsBackAs(key, k) && (rest == "" || rest[0] == ' ')
    ensures var b := key + ":" + rest; SplitKey(b).Some? && !IsFlowStart(b[0]) && !IsDash(b)
  {
    hide Scan, HasTaggedValue, SplitKey, Scalar, Strip;
    SplitEntry(key, rest);
    assert (key + ":" + rest)[0] == key[0];
  }

  lemma ColumnOfBody(n: nat, b: string)
    requires Trimmed(b)
    ensures var text := Spaces(2 * n) + ("- " + b);
            Indent(text) == 2 * n && Find(text, b[0], 2 * n + 1) == 2 * n + 2
  {
    hide Strip, LStrip, RStrip, Find, Indent;
    StripIndented(2 * n, "- " + b);
    FindSecond(Spaces(2 * n), b);
    assert Spaces(2 * n) + ("- " + b) == Spaces(2 * n) + "- " + b;
  }

  lemma FindSecond(pad: string, b: string)
    requires b != "" && b[0] != ' '
    ensures Find(pad + "- " + b, b[0], |pad| + 1) == |pad| + 2
  {
    var text := pad + "- " + b;
    assert text[|pad| + 1] == ' ' && text[|pad| + 2] == b[0];
  }

  /** The line that an entry starts with, and what is left of the entry after it. */
  lemma ReadEntryLine(cur: Cursor, e: Pair, n: nat, rest: seq<string>, u: Unicode)
    requires ReadableEntry(e, u)
    requires cur.i <= |cur.raw| && cur.Rest() == Texts(EntryBlock(e, n, u)) + rest
    ensures cur.i < |cur.raw|
    ensures Next(cur) == Some(Significant(cur.i, 2 * n, EntryBody(e, u))) && CheckOk(EntryBody(e, u))
    ensures cur.raw[cur.i + 1..] == Texts(if IsBlock(e.value) then Lines(e.value, n + 1, u) else []) + rest
  {
    hide Next, Readable, LeafText, KeyText, Scalar, CheckOk, Scan, Lines, HasTaggedValue, Texts;
    var key := KeyText(e.key.s, u);
    if IsBlock(e.value) {
      KeyLineIsClean(key);
    } else {
      EntryLeafReads(e, u);
      EntryLineIsClean(key, LeafText(e.value, u));
    }
    var line := Line(2 * n, EntryBody(e, u));
    assert EntryBlock(e, n, u) == [line] + (if IsBlock(e.value) then Lines(e.value, n + 1, u) else []);
    FirstText(cur, line, if IsBlock(e.value) then Lines(e.value, n + 1, u) else [], rest);
    NextIsLine(cur, line);
  }

  lemma FirstText(cur: Cursor, line: Line, lines: seq<Line>, rest: seq<string>)
    requires cur.i <= |cur.raw| && cur.Rest() == Texts([line] + lines) + rest
    ensures cur.i < |cur.raw| && cur.raw[cur.i] == line.Text()
    ensures cur.raw[cur.i + 1..] == Texts(lines) + rest
  {
    assert ([line] + lines)[1..] == lines;
    assert cur.raw[cur.i] == cur.Rest()[0];
    assert cur.raw[cur.i + 1..] == cur.Rest()[1..];
  }

  function EntryBody(e: Pair, u: Unicode): string {
    var key := KeyText(KeyOf(e.key), u);
    if IsBlock(e.value) then key + ":" else key + ": " + LeafText(e.value, u)
  }

  lemma ReadBlockHead(cur: Cursor, e: Pair, k: nat, out: seq<Pair>, u: Unicode)
    requires ReadableEntry(e, u) && IsBlock(e.value)
    requires Next(cur) == Some(Significant(cur.i, k, EntryBody(e, u))) && CheckOk(EntryBody(e, u))
    requires forall i :: 0 <= i < |out| ==> out[i].key.Str? && out[i].key != e.key
    ensures EntryHead(cur, k, out) == Head(e.key, "", Cursor(cur.raw, cur.i + 1))
    ensures !IsDash(EntryBody(e, u))
  {
    hide Next, Readable, KeyText, Scalar, CheckOk, Scan, SplitKey, HasTaggedValue, Size;
    var key := KeyText(e.key.s, u);
    SplitEntry(key, "");
    assert key + ":" + "" == key + ":";
    assert (key + ":")[0] == key[0];
  }

  lemma ReadLeafHead(cur: Cursor, e: Pair, k: nat, out: seq<Pair>, u: Unicode)
    requires ReadableEntry(e, u) && !IsBlock(e.value)
    requires Next(cur) == Some(Significant(cur.i, k, EntryBody(e, u))) && CheckOk(EntryBody(e, u))
    requires forall i :: 0 <= i < |out| ==> out[i].key.Str? && out[i].key != e.key
    requires var t := LeafText(e.value, u); t != "" && !Continues(Consumed(cur), t, k)
    ensures EntryHead(cur, k, out) == Head(e.key, LeafText(e.value, u), Cursor(cur.raw, cur.i + 1))
    ensures !IsDash(EntryBody(e, u))
  {
    hide Next, Readable, KeyText, LeafText, Scalar, CheckOk, Scan, SplitKey, HasTaggedValue, Size, Continues;
    var key, t := KeyText(e.key.s, u), LeafText(e.value, u);
    EntryLeafReads(e, u);
    SplitLeafEntry(key, t);
    LeafHead(cur, e, key, t, k, out);
  }

  lemma SplitLeafEntry(key: string, t: string)
    requires IsKeyText(key) && Trimmed(t)
    ensures SplitKey(key + ": " + t) == Some(Entry(key, t)) && !IsDash(key + ": " + t)
  {
    hide SplitKey, Scan, HasTaggedValue, Strip;
    SplitEntry(key, " " + t);
    assert key + ":" + (" " + t) == key + ": " + t;
    BlankStrips(t);
    NotDash(key, ": " + t);
    assert key + ": " + t == key + (": " + t);
  }

  lemma BlankStrips(t: string)
    requires Trimmed(t)
    ensures Strip(" " + t) == t
  {
    assert " " + t == Spaces(1) + t;
    StripIndented(1, t);
  }

  lemma NotDash(key: string, rest: string)
    requires key != "" && key[0] != '-'
    ensures !IsDash(key + rest)
  {
    assert (key + rest)[0] == key[0];
  }

  lemma LeafHead(cur: Cursor, e: Pair, key: string, t: string, k: nat, out: seq<Pair>)
    requires Next(cur) == Some(Significant(cur.i, k, key + ": " + t)) && CheckOk(key + ": " + t)
    requires SplitKey(key + ": " + t) == Some(Entry(key, t)) && Scalar(key) == Ok(e.key) && ReadsInEntry(t, e.value)
    requires e.key.Str? && forall i :: 0 <= i < |out| ==> out[i].key.Str? && out[i].key != e.key
    requires !Continues(Consumed(cur), t, k)
    ensures EntryHead(cur, k, out) == Head(e.key, t, Cursor(cur.raw, cur.i + 1))
  {
    hide Next, Scalar, CheckOk, SplitKey, Size, Continues, Scan;
  }

  // --- reading a whole block -----------------------------------------------------------------------------

  lemma TailReadable(items: seq<Value>, u: Unicode)
    requires items != [] && AllReadable(items, u)
    ensures Readable(items[0], u) && AllReadable(items[1..], u)
  {
    hide Readable;
  }

  lemma TailEntriesReadable(entries: seq<Pair>, u: Unicode)
    requires entries != [] && EntriesReadable(entries, u)
    ensures ReadableEntry(entries[0], u) && EntriesReadable(entries[1..], u)
  {
    hide ReadableEntry;
  }

  lemma Regroup<T>(a: seq<T>, b: seq<T>)
    ensures if b == [] then a + b == a else a + [b[0]] + b[1..] == a + b
  {
  }

  lemma NoLines(n: nat, rest: seq<string>, u: Unicode)
    ensures Texts(ItemLines([], n, u)) + rest == rest && Texts(EntryLines([], n, u)) + rest == rest
  {
  }

  lemma FirstItem(items: seq<Value>, n: nat, rest: seq<string>, u: Unicode)
    requires items != []
    ensures Texts(ItemLines(items, n, u)) + rest ==
              Texts(ItemBlock(items[0], n, u)) + (Texts(ItemLines(items[1..], n, u)) + rest)
  {
    hide ItemBlock;
    TextsConcat(ItemBlock(items[0], n, u), ItemLines(items[1..], n, u));
  }

  lemma FirstEntry(entries: seq<Pair>, n: nat, rest: seq<string>, u: Unicode)
    requires entries != []
    ensures Texts(EntryLines(entries, n, u)) + rest ==
              Texts(EntryBlock(entries[0], n, u)) + (Texts(EntryLines(entries[1..], n, u)) + rest)
  {
    hide EntryBlock;
    TextsConcat(EntryBlock(entries[0], n, u), EntryLines(entries[1..], n, u));
  }

  lemma SequenceStep(cur: Cursor, k: nat, out: seq<Value>, x: Value, mid: Cursor)
    requires cur.i <= |cur.raw|
    requires Next(cur).Some? && Next(cur).value.indent == k && IsDash(Next(cur).value.content)
    requires ItemValue(ItemHead(cur), k, Next(cur).value.at + 1, Size(cur)) == Done(x, mid)
    ensures mid.i <= |mid.raw| && Sequence(cur, k, out) == Sequence(mid, k, out + [x])
  {
    hide Next, ItemHead, ItemValue, Size, IsDash;
  }

  lemma SequenceEnd(cur: Cursor, k: nat, out: seq<Value>)
    requires cur.i <= |cur.raw| && (Next(cur).None? || Next(cur).value.indent < k)
    ensures Sequence(cur, k, out) == Done(List(out), cur)
  {
    hide Next;
  }

  /** The entry at the cursor was read: its key, and from the text behind it its value, up to `end`. */
  ghost predicate EntryRead(cur: Cursor, e: Pair, k: nat, out: seq<Pair>, end: Cursor) {
    && Next(cur).Some? && Next(cur).value.indent == k && !IsDash(Next(cur).value.content)
    && var head := EntryHead(cur, k, out);
       && head.Head? && head.key == e.key
       && ValueAfter(head.cur, head.rest, k, Next(cur).value.at + 1, true) == Done(e.value, end)
  }

  lemma MappingStep(cur: Cursor, k: nat, out: seq<Pair>, e: Pair, mid: Cursor)
    requires cur.i <= |cur.raw| && EntryRead(cur, e, k, out, mid)
    ensures mid.i <= |mid.raw| && Mapping(cur, k, out) == Mapping(mid, k, out + [e])
  {
    hide Next, EntryHead, ValueAfter, Size, IsDash;
    assert Pair(e.key, e.value) == e;
  }

  lemma MappingEnd(cur: Cursor, k: nat, out: seq<Pair>)
    requires cur.i <= |cur.raw| && (Next(cur).None? || Next(cur).value.indent < k)
    ensures Mapping(cur, k, out) == Done(Dict(out), cur)
  {
    hide Next;
  }

  /** A block read with `out` already gathered: the value grows by the block, and the cursor ends after it. */
  lemma {:induction false} ReadItems(cur: Cursor, items: seq<Value>, n: nat, out: seq<Value>, rest: seq<string>,
                                     u: Unicode)
    returns (end: Cursor)
    requires AllReadable(items, u)
    requires cur.i <= |cur.raw| && cur.Rest() == Texts(ItemLines(items, n, u)) + rest
    requires Dedented(rest, 2 * n)
    ensures end.i <= |end.raw| && end.Rest() == rest
    ensures Sequence(cur, 2 * n, out) == Done(List(out + items), end)
    decreases items, 0
  {
    hide Next, Size, ItemHead, ItemValue, IsDash, Readable, AllReadable, Sequence, Dedented, StartsAt, ItemBlock,
         ItemLines, Texts;
    if items == [] {
      end := cur;
      NoLines(n, rest, u);
      NextAfterBlock(cur, rest, 2 * n);
      SequenceEnd(cur, 2 * n, out);
      Regroup(out, items);
    } else {
      var x, others := items[0], items[1..];
      TailReadable(items, u);
      ItemsLines(others, n, u);
      RestIsDedented(ItemLines(others, n, u), rest, 2 * n, 2 * n + 1);
      FirstItem(items, n, rest, u);
      var mid := ReadItem(cur, x, n, Texts(ItemLines(others, n, u)) + rest, u);
      SequenceStep(cur, 2 * n, out, x, mid);
      end := ReadItems(mid, others, n, out + [x], rest, u);
      Regroup(out, items);
    }
  }

  lemma {:induction false} ReadItem(cur: Cursor, x: Value, n: nat, rest: seq<string>, u: Unicode) returns (end: Cursor)
    requires Readable(x, u)
    requires cur.i <= |cur.raw| && cur.Rest() == Texts(ItemBlock(x, n, u)) + rest
    requires Dedented(rest, 2 * n + 1)
    ensures end.i <= |end.raw| && end.Rest() == rest
    ensures Next(cur).Some? && Next(cur).value.indent == 2 * n && IsDash(Next(cur).value.content)
    ensures ItemValue(ItemHead(cur), 2 * n, Next(cur).value.at + 1, Size(cur)) == Done(x, end)
    decreases x, 2
  {
    hide Next, Size, ItemHead, Readable, Dedented, Lines, Sequence, Mapping, LeafText, IsDash, Dashed, Block,
         ValueAfter;
    if IsBlock(x) {
      ReadBlockItem(cur, x, n, rest, u);
      var inner := ItemHead(cur).cur;
      DedentedFurther(rest, 2 * n + 1, 2 * (n + 1));
      end := ReadBlock(inner, x, n + 1, rest, u);
    } else {
      ReadLeafItem(cur, x, n, rest, u);
      end := Cursor(cur.raw, cur.i + 1);
    }
  }

  lemma DedentedFurther(rest: seq<string>, k: nat, k': nat)
    requires Dedented(rest, k) && k <= k'
    ensures Dedented(rest, k')
  {
  }

  ghost predicate DistinctKeys(entries: seq<Pair>) {
    && (forall i :: 0 <= i < |entries| ==> entries[i].key.Str?)
    && (forall i, j :: 0 <= i < j < |entries| ==> entries[i].key != entries[j].key)
  }

  lemma NewKey(out: seq<Pair>, entries: seq<Pair>)
    requires entries != [] && DistinctKeys(out + entries)
    ensures forall i :: 0 <= i < |out| ==> out[i].key.Str? && out[i].key != entries[0].key
    ensures DistinctKeys(out + [entries[0]] + entries[1..])
  {
    var all := out + entries;
    assert forall i :: 0 <= i < |out| ==> all[i] == out[i];
    assert all[|out|] == entries[0];
    assert out + [entries[0]] + entries[1..] == all;
  }

  lemma {:induction false} ReadEntries(cur: Cursor, entries: seq<Pair>, n: nat, out: seq<Pair>, rest: seq<string>,
                                       u: Unicode)
    returns (end: Cursor)
    requires EntriesReadable(entries, u)
    requires DistinctKeys(out + entries)
    requires cur.i <= |cur.raw| && cur.Rest() == Texts(EntryLines(entries, n, u)) + rest
    requires Dedented(rest, 2 * n)
    ensures end.i <= |end.raw| && end.Rest() == rest
    ensures Mapping(cur, 2 * n, out) == Done(Dict(out + entries), end)
    decreases entries, 0
  {
    hide Next, Size, EntryHead, ValueAfter, ReadableEntry, EntriesReadable, Mapping, Dedented, StartsAt, EntryBlock,
         EntryLines, Texts, IsKeyLine, KeyText, DistinctKeys, EntryRead;
    if entries == [] {
      end := cur;
      NoLines(n, rest, u);
      NextAfterBlock(cur, rest, 2 * n);
      MappingEnd(cur, 2 * n, out);
      Regroup(out, entries);
    } else {
      var e, others := entries[0], entries[1..];
      assert ReadableEntry(e, u) && EntriesReadable(others, u) by { TailEntriesReadable(entries, u); }
      var rest' := Texts(EntryLines(others, n, u)) + rest;
      EntriesLines(others, n, u);
      RestIsDedented(EntryLines(others, n, u), rest, 2 * n, 2 * n + 1);
      FirstEntry(entries, n, rest, u);
      NewKey(out, entries);
      var mid := ReadEntry(cur, e, n, out, rest', u);
      MappingStep(cur, 2 * n, out, e, mid);
      end := ReadEntries(mid, others, n, out + [e], rest, u);
      Regroup(out, entries);
    }
  }

  lemma {:induction false} ReadEntry(cur: Cursor, e: Pair, n: nat, out: seq<Pair>, rest: seq<string>, u: Unicode)
    returns (end: Cursor)
    requires ReadableEntry(e, u)
    requires forall i :: 0 <= i < |out| ==> out[i].key.Str? && out[i].key != e.key
    requires cur.i <= |cur.raw| && cur.Rest() == Texts(EntryBlock(e, n, u)) + rest
    requires Dedented(rest, 2 * n + 1)
    ensures end.i <= |end.raw| && end.Rest() == rest && EntryRead(cur, e, 2 * n, out, end)
    decreases e, 2
  {
    hide Next, Size, EntryHead, Readable, ReadableEntry, Dedented, EntryBlock, IsDash, CheckOk, Block, Lines, EntryBody,
         ValueAfter, Texts, EntryRead, Sequence, Mapping;
    if IsBlock(e.value) {
      ReadEntryLine(cur, e, n, rest, u);
      var after := Cursor(cur.raw, cur.i + 1);
      DedentedFurther(rest, 2 * n + 1, 2 * (n + 1));
      EntryBlockReads(e, u);
      end := ReadBlock(after, e.value, n + 1, rest, u);
      BlockEntryRead(cur, e, 2 * n, out, end, u);
    } else {
      end := ReadLeafEntry(cur, e, n, out, rest, u);
    }
  }

  lemma BlockEntryRead(cur: Cursor, e: Pair, k: nat, out: seq<Pair>, end: Cursor, u: Unicode)
    requires ReadableEntry(e, u) && IsBlock(e.value) && cur.i < |cur.raw|
    requires Next(cur) == Some(Significant(cur.i, k, EntryBody(e, u))) && CheckOk(EntryBody(e, u))
    requires forall i :: 0 <= i < |out| ==> out[i].key.Str? && out[i].key != e.key
    requires var after := Cursor(cur.raw, cur.i + 1);
             Next(after).Some? && Next(after).value.indent > k &&
                 Block(after, Next(after).value.indent) == Done(e.value, end)
    ensures EntryRead(cur, e, k, out, end)
  {
    hide Next, Size, EntryHead, ReadableEntry, CheckOk, Block, EntryBody, ValueAfter;
    ReadBlockHead(cur, e, k, out, u);
    ValueAfterBlock(Cursor(cur.raw, cur.i + 1), k, cur.i + 1);
  }

  lemma ReadLeafEntry(cur: Cursor, e: Pair, n: nat, out: seq<Pair>, rest: seq<string>, u: Unicode)
    returns (end: Cursor)
    requires ReadableEntry(e, u) && !IsBlock(e.value)
    requires forall i :: 0 <= i < |out| ==> out[i].key.Str? && out[i].key != e.key
    requires cur.i <= |cur.raw| && cur.Rest() == Texts(EntryBlock(e, n, u)) + rest
    requires Dedented(rest, 2 * n + 1)
    ensures end.i <= |end.raw| && end.Rest() == rest && EntryRead(cur, e, 2 * n, out, end)
  {
    hide Next, Size, EntryHead, ReadableEntry, Dedented, EntryBlock, LeafText, CheckOk, Continues, EntryBody,
         ValueAfter,
         ReadsInEntry;
    ReadEntryLine(cur, e, n, rest, u);
    end := Cursor(cur.raw, cur.i + 1);
    var t := LeafText(e.value, u);
    EntryLeafReads(e, u);
    LeafIsThere(t, e.value);
    assert Texts([]) + rest == rest;
    NotContinued(end, rest, t, 2 * n);
    ReadLeafHead(cur, e, 2 * n, out, u);
    ValueAfterLeaf(end, t, e.value, 2 * n, Next(cur).value.at + 1);
  }

  lemma EntryBlockReads(e: Pair, u: Unicode)
    requires ReadableEntry(e, u) && IsBlock(e.value)
    ensures Readable(e.value, u)
  {
    hide Readable, KeyReadsBackAs;
  }

  /** After a key that has nothing behind it, a deeper block is its value. */
  lemma ValueAfterBlock(cur: Cursor, k: nat, line: nat)
    requires cur.i <= |cur.raw| && Next(cur).Some? && Next(cur).value.indent > k
    ensures ValueAfter(cur, "", k, line, true) == Block(cur, Next(cur).value.indent)
  {
    hide Next, Block;
  }

  lemma LeafIsThere(t: string, x: Value)
    requires ReadsInEntry(t, x)
    ensures t != ""
  {
  }

  lemma ValueAfterLeaf(cur: Cursor, t: string, x: Value, k: nat, line: nat)
    requires cur.i <= |cur.raw| && ReadsInEntry(t, x)
    ensures ValueAfter(cur, t, k, line, true) == Done(x, cur)
  {
    hide Next, Block, Scalar, SplitKey, CheckOk, Scan;
  }

  /** The value of a block, read from its first line. */
  lemma {:induction false} ReadBlock(cur: Cursor, v: Value, n: nat, rest: seq<string>, u: Unicode) returns (end: Cursor)
    requires IsBlock(v) && Readable(v, u)
    requires cur.i <= |cur.raw| && cur.Rest() == Texts(Lines(v, n, u)) + rest
    requires Dedented(rest, 2 * n)
    ensures end.i <= |end.raw| && end.Rest() == rest
    ensures Next(cur).Some? && Next(cur).value.indent == 2 * n
    ensures v.List? ==> Sequence(cur, 2 * n, []) == Done(v, end)
    ensures v.Dict? ==> Mapping(cur, 2 * n, []) == Done(v, end)
    ensures forall k: int :: Block(cur, k) == Done(v, end)
    decreases v, 1
  {
    hide Next, Size, Readable, ReadableEntry, Sequence, Mapping, Dedented, OpensBlock, Texts, Lines, Scan, CheckOk;
    BlockLines(v, n, u);
    var line := Lines(v, n, u)[0];
    assert Lines(v, n, u) == [line] + Lines(v, n, u)[1..];
    FirstText(cur, line, Lines(v, n, u)[1..], rest);
    NextIsLine(cur, line);
    BlockStartsItem(v, line.body, u);
    if v.List? {
      ReadableParts(v, n, u);
      end := ReadItems(cur, v.items, n, [], rest, u);
      assert [] + v.items == v.items;
    } else {
      ReadableParts(v, n, u);
      BlockIsNotFlow(v, line.body, u);
      end := ReadEntries(cur, v.entries, n, [], rest, u);
      assert [] + v.entries == v.entries;
    }
  }

  lemma BlockIsNotFlow(v: Value, b: string, u: Unicode)
    requires Readable(v, u) && IsBlock(v) && v.Dict? && OpensBlock(b, v, u)
    ensures b != "" && !IsFlowStart(b[0])
  {
    BlockStartsItem(v, b, u);
  }

  lemma ReadableParts(v: Value, n: nat, u: Unicode)
    requires Readable(v, u) && IsBlock(v)
    ensures v.List? ==> AllReadable(v.items, u) && Lines(v, n, u) == ItemLines(v.items, n, u)
    ensures v.Dict? ==> EntriesReadable(v.entries, u) &&
                        DistinctKeys([] + v.entries) && Lines(v, n, u) == EntryLines(v.entries, n, u)
  {
    hide KeyReadsBackAs;
    if v.Dict? {
      assert [] + v.entries == v.entries;
      assert forall i :: 0 <= i < |v.entries| ==> ReadableEntry(v.entries[i], u);
    }
  }
}
