/**
 What the reader promises to reject instead of misreading it, over every text: anchors, aliases, merge keys and tags,
 keys that a mapping has twice, and further documents.
 */
module YamlRejects {
  import opened Wrappers
  import opened YamlText
  import opened YamlScalar
  import opened YamlReader

  // --- keys --------------------------------------------------------------------------------------------------------

  /** Keys that a dictionary takes for one: the same, or `true` and 1, or `false` and 0. */
  predicate SameKey(a: Value, b: Value) {
    || a == b
    || (a.Bool? && b == Int(if a.b then 1 else 0))
    || (b.Bool? && a == Int(if b.b then 1 else 0))
  }

  ghost predicate DistinctKeys(entries: seq<Pair>) {
    forall i, j :: 0 <= i < j < |entries| ==> !SameKey(entries[i].key, entries[j].key)
  }

  /** No mapping in the value has a key twice. */
  ghost predicate AllDistinct(v: Value) {
    match v
    case Dict(entries) => DistinctKeys(entries) && forall i :: 0 <= i < |entries| ==> AllDistinct(entries[i].value)
    case List(items) => forall i :: 0 <= i < |items| ==> AllDistinct(items[i])
    case _ => true
  }

  // --- lines -------------------------------------------------------------------------------------------------------

  function Content(raw: seq<string>, k: nat): string
    requires k < |raw|
  {
    Strip(StripComment(raw[k]))
  }

  /** The line has something on it other than a comment or a document marker. */
  predicate IsSignificant(raw: seq<string>, k: nat)
    requires k < |raw|
  {
    Content(raw, k) != "" && !StartsWith(StripComment(raw[k]), "---")
  }

  /** The line ends the first document: dots, or a marker behind some content. */
  ghost predicate EndsDocument(raw: seq<string>, k: nat)
    requires k < |raw|
  {
    Content(raw, k) == "..." || (StartsWith(StripComment(raw[k]), "---") && SeenContent(raw[..k]))
  }

  /** The reader has changed the line of an item: it was checked before, and there is still content on it. */
  ghost predicate IsRewritten(raw0: seq<string>, raw: seq<string>, k: nat)
    requires k < |raw0| == |raw|
  {
    && IsSignificant(raw0, k) && IsDash(Content(raw0, k)) && CheckOk(Content(raw0, k)) && CheckOk(Content(raw, k))
    && IsItemContent(Content(raw, k)) && !StartsWith(StripComment(raw[k]), "---")
  }

  predicate IsItemContent(content: string) {
    content != "" && content != "---" && content != "..."
  }

  /** The line belongs to the first document, and if there is something on it, it passes the check. */
  ghost predicate HasPassed(raw0: seq<string>, k: nat)
    requires k < |raw0|
  {
    (IsSignificant(raw0, k) ==> CheckOk(Content(raw0, k))) && !EndsDocument(raw0, k)
  }

  /** The lines before the cursor belong to the first document and passed the check; those behind it are as they were
      in the text, and those of items may have been rewritten. */
  ghost predicate Tracks(raw0: seq<string>, cur: Cursor) {
    && cur.i <= |cur.raw| == |raw0|
    && (forall k :: 0 <= k < |raw0| ==> cur.raw[k] == raw0[k] || (k <= cur.i && IsRewritten(raw0, cur.raw, k)))
    && (forall k :: 0 <= k < |raw0| ==> '\t' !in cur.raw[k])
    && (forall k :: 0 <= k < cur.i ==> HasPassed(raw0, k))
  }

  lemma SeenAlike(raw0: seq<string>, cur: Cursor, k: nat)
    requires Tracks(raw0, cur) && k <= |raw0|
    ensures SeenContent(cur.raw[..k]) <==> SeenContent(raw0[..k])
  {
    hide CheckOk, StripComment, Strip;
    forall i | 0 <= i < k
      ensures (Content(cur.raw, i) != "" && Content(cur.raw, i) != "---") <==>
              (Content(raw0, i) != "" && Content(raw0, i) != "---")
    {
      if cur.raw[i] != raw0[i] {
        assert IsRewritten(raw0, cur.raw, i);
        DashIsNoMarker(Content(raw0, i));
      }
    }
    SeenIs(cur.raw, k);
    SeenIs(raw0, k);
  }

  lemma SeenIs(raw: seq<string>, k: nat)
    requires k <= |raw|
    ensures SeenContent(raw[..k]) <==> exists i :: 0 <= i < k && Content(raw, i) != "" && Content(raw, i) != "---"
  {
    hide StripComment, Strip;
    var part := raw[..k];
    assert forall i :: 0 <= i < k ==> part[i] == raw[i] && Content(part, i) == Content(raw, i);
  }

  lemma RStripKeeps(s: string, n: nat)
    requires 0 < n <= |s| && !IsBlank(s[n - 1])
    ensures |RStrip(s)| >= n && RStrip(s)[..n] == s[..n]
  {
  }

  lemma DashIsNoMarker(content: string)
    requires IsDash(content)
    ensures !StartsWith(content, "---") && content != "" && content != "..." && content != "---"
  {
    SecondChars(content);
  }

  lemma SecondChars(s: string)
    ensures StartsWith(s, "- ") ==> |s| >= 2 && s[0] == '-' && s[1] == ' '
    ensures StartsWith(s, "---") ==> |s| >= 3 && s[0] == '-' && s[1] == '-' && s[2] == '-'
  {
    assert StartsWith(s, "- ") ==> s[..2] == "- ";
    assert StartsWith(s, "---") ==> s[..3] == "---";
  }

  /** A rewritten line did not end the document. */
  lemma RewrittenIsInside(raw0: seq<string>, raw: seq<string>, k: nat)
    requires k < |raw0| == |raw| && IsRewritten(raw0, raw, k)
    ensures !EndsDocument(raw0, k)
  {
    hide CheckOk, StripComment, Strip, SeenContent;
    DashIsNoMarker(Content(raw0, k));
  }

  /** The lines passed over on the way to the next significant one, or to where there is none. */
  lemma {:induction false} PassedOver(raw: seq<string>, j: nat, k: nat)
    requires j <= k < |raw| && (NextFrom(raw, j).Some? ==> k < NextFrom(raw, j).value.at)
    requires NextFrom(raw, j).None? ==> forall e :: j <= e <= k ==> !EndsDocument(raw, e)
    ensures !IsSignificant(raw, k) && !EndsDocument(raw, k)
    decreases |raw| - j
  {
    hide StripComment, Strip, SeenContent;
    assert !(Content(raw, j) == "..." || (StartsWith(StripComment(raw[j]), "---") && SeenContent(raw[..j]))) by {
      if NextFrom(raw, j).None? {
        assert !EndsDocument(raw, j);
      }
    }
    if j < k {
      PassedOver(raw, j + 1, k);
    }
  }

  lemma {:induction false} NextIs(raw: seq<string>, j: nat)
    requires NextFrom(raw, j).Some?
    ensures var s := NextFrom(raw, j).value;
            && s.content == Content(raw, s.at) && IsSignificant(raw, s.at) && !EndsDocument(raw, s.at)
            && s.indent == Indent(StripComment(raw[s.at]))
    decreases |raw| - j
  {
    hide StripComment, Strip, SeenContent;
    var line := StripComment(raw[j]);
    if !(Strip(line) != "" && !StartsWith(line, "---")) {
      NextIs(raw, j + 1);
    }
  }

  /** The cursor's view of a line that is no rewritten one agrees with the text's. */
  lemma LineAlike(raw0: seq<string>, cur: Cursor, k: nat)
    requires Tracks(raw0, cur) && k < |raw0| && cur.raw[k] == raw0[k]
    ensures IsSignificant(cur.raw, k) == IsSignificant(raw0, k) && Content(cur.raw, k) == Content(raw0, k)
    ensures EndsDocument(cur.raw, k) == EndsDocument(raw0, k)
  {
    hide StripComment, Strip, SeenContent, CheckOk;
    SeenAlike(raw0, cur, k);
  }

  lemma TracksTo(raw0: seq<string>, cur: Cursor, k: nat)
    requires Tracks(raw0, cur) && Next(cur).Some? && cur.i <= k < Next(cur).value.at
    ensures HasPassed(raw0, k)
  {
    hide NextFrom, CheckOk, StripComment, Strip, EndsDocument, IsSignificant;
    if cur.raw[k] == raw0[k] {
      LineAlike(raw0, cur, k);
      PassedOver(cur.raw, cur.i, k);
    } else {
      RewrittenIsInside(raw0, cur.raw, k);
    }
  }

  /** The next significant line, once it passed the check, belongs to the document. */
  lemma TracksAt(raw0: seq<string>, cur: Cursor)
    requires Tracks(raw0, cur) && Next(cur).Some? && CheckOk(Next(cur).value.content)
    ensures HasPassed(raw0, Next(cur).value.at)
  {
    hide NextFrom, CheckOk, StripComment, Strip, EndsDocument, IsSignificant;
    var k := Next(cur).value.at;
    NextIs(cur.raw, cur.i);
    if cur.raw[k] == raw0[k] {
      LineAlike(raw0, cur, k);
    } else {
      RewrittenIsInside(raw0, cur.raw, k);
    }
  }

  lemma ConsumedTracks(raw0: seq<string>, cur: Cursor)
    requires Tracks(raw0, cur) && Next(cur).Some? && CheckOk(Next(cur).value.content)
    ensures Tracks(raw0, Consumed(cur))
  {
    hide NextFrom, CheckOk, Strip, StripComment, HasPassed, IsRewritten;
    TracksAt(raw0, cur);
    forall k | cur.i <= k < Next(cur).value.at
      ensures HasPassed(raw0, k)
    {
      TracksTo(raw0, cur, k);
    }
  }

  // --- the line of an item, rewritten ------------------------------------------------------------------------------

  lemma {:induction false} BlanksScan(p: string, prev: char)
    requires forall k :: 0 <= k < |p| ==> p[k] == ' ' || p[k] == '-'
    ensures Scan(p, prev, None) == Through(None)
  {
    if p != "" {
      BlanksScan(p[1..], p[0]);
    }
  }

  /** A scan behind a blank end is the scan behind any other. */
  lemma {:induction false} ScanBehind(p: string, q: string, prev: char)
    requires p != "" && p[|p| - 1] == ' ' && forall k :: 0 <= k < |p| ==> p[k] == ' ' || p[k] == '-'
    ensures var r := Scan(q, ' ', None);
            Scan(p + q, prev, None) == if r.Cut? then Cut(|p| + r.at) else r
    decreases |p|
  {
    assert (p + q)[1..] == p[1..] + q && (p + q)[0] == p[0];
    if |p| > 1 {
      ScanBehind(p[1..], q, p[0]);
    } else {
      assert p[1..] + q == q;
    }
  }

  /** What is left of a line of blanks and dashes and a text behind a blank. */
  lemma StrippedBehind(p: string, q: string)
    requires p != "" && p[|p| - 1] == ' ' && forall k :: 0 <= k < |p| ==> p[k] == ' ' || p[k] == '-'
    requires q != "" && !IsBlank(q[0]) && q[0] != '#'
    ensures var r := Scan(q, ' ', None);
            var e := if r.Cut? then r.at else |q|;
            && e > 0 && RStrip(q[..e]) != "" && RStrip(q[..e])[0] == q[0]
            && StripComment(p + q) == p + RStrip(q[..e])
  {
    hide Scan, RStrip, StripComment;
    ScanBehind(p, q, ' ');
    StripCommentIs(p + q);
    var r := Scan(q, ' ', None);
    var e := if r.Cut? then r.at else |q|;
    var kept := q[..e];
    assert e > 0 by { FirstIsKept(q); }
    RStripKeeps(kept, 1);
    assert RStrip(kept)[..1][0] == kept[0];
    RStripBehind(p, kept);
    assert (p + q)[..|p| + e] == p + kept;
    assert r.Through? ==> p + q == p + kept;
  }

  lemma FirstIsKept(q: string)
    requires q != "" && q[0] != '#'
    ensures var r := Scan(q, ' ', None); r.Cut? ==> r.at > 0
  {
  }

  lemma {:induction false} RStripBehind(p: string, q: string)
    requires RStrip(q) != ""
    ensures RStrip(p + q) == p + RStrip(q)
    decreases |q|
  {
    if IsBlank(q[|q| - 1]) {
      assert (p + q)[..|p + q| - 1] == p + q[..|q| - 1];
      RStripBehind(p, q[..|q| - 1]);
    }
  }

  /** A significant line is its indentation, its content and what the comment scan cuts off. */
  lemma ContentOf(line: string)
    requires '\t' !in line && Strip(StripComment(line)) != ""
    ensures var s, n := StripComment(line), Indent(line);
            s <= line && n < |s| && Strip(s) == s[n..]
  {
    hide Scan, StripComment;
    var s := StripComment(line);
    StripIsPrefix(line);
    LStripIsIndent(s, Indent(s));
    RStripStays(s, Indent(s));
    SameIndent(line, s);
  }

  /** Where the item starts in the content of its line. */
  lemma ItemIn(content: string) returns (k: nat)
    requires IsDash(content) && '\t' !in content && !IsBlank(content[|content| - 1]) && Strip(content[1..]) != ""
    ensures 2 <= k < |content| && Strip(content[1..]) == content[k..] && !IsBlank(content[k])
    ensures forall i :: 1 <= i < k ==> content[i] == ' '
  {
    SecondChars(content);
    var n := Leading(content[1..]);
    k := n + 1;
    assert content[1..][n..] == content[k..] && content[1..][n] == content[k];
    forall i | 1 <= i < k ensures content[i] == ' ' {
      assert content[i] == content[1..][i - 1];
    }
    RStripStays(content, k);
  }

  /** How many blanks come first. */
  lemma Leading(s: string) returns (n: nat)
    requires '\t' !in s && Strip(s) != ""
    ensures n < |s| && LStrip(s) == s[n..] && !IsBlank(s[n]) && forall i :: 0 <= i < n ==> s[i] == ' '
  {
    hide RStrip;
    n := |s| - |LStrip(s)|;
    RStripOfNothing();
  }

  lemma RStripOfNothing()
    ensures RStrip("") == ""
  {
  }

  lemma DashComesFirst(content: string)
    requires IsDash(content)
    ensures content != "" && content[0] == '-'
  {
    SecondChars(content);
  }

  lemma FindsItem(line: string, n: nat, m: nat, col: int)
    requires n == Indent(line) < m < |line| && line[n] == '-' && !IsBlank(line[m])
    requires forall i :: n + 1 <= i < m ==> line[i] == ' '
    requires col == Find(line, line[m], n + 1)
    ensures col == m && forall k :: 0 <= k < m ==> line[k] == ' ' || line[k] == '-'
  {
    hide Indent, Find;
    assert col != -1 && n + 1 <= col <= m && line[col] == line[m];
    assert line[m] != ' ';
  }

  /** The line of an item by its parts: blanks, the dash, blanks, and the item up to the end of what is significant. */
  lemma ItemLine(line: string, col: int)
    requires '\t' !in line && Strip(StripComment(line)) != ""
    requires var content := Strip(StripComment(line));
             && IsDash(content) && Strip(content[1..]) != ""
             && col == Find(line, Strip(content[1..])[0], Indent(line) + 1)
    ensures Indent(line) < col < |line| && line[col - 1] == ' ' && !IsBlank(line[col]) && line[col] != '#'
    ensures forall k :: 0 <= k < col ==> line[k] == ' ' || line[k] == '-'
    ensures var s := StripComment(line); col < |s| && s <= line && Strip(Strip(s)[1..]) == s[col..]
  {
    hide Scan, StripComment, Strip, Find, Indent, IsDash;
    var s, n := StripComment(line), Indent(line);
    var content := Strip(s);
    ContentOf(line);
    StripIsPrefix(line);
    var k := ItemIn(content);
    assert content == s[n..] && content[k..] == s[n + k..];
    forall i | n + 1 <= i < n + k ensures line[i] == ' ' {
      assert line[i] == content[i - n];
    }
    assert line[n + k] == content[k];
    DashComesFirst(content);
    assert line[n] == content[0];
    FindsItem(line, n, n + k, col);
    if line[col] == '#' {
      CommentHere(line, col);
    }
  }

  lemma StripIsPrefix(line: string)
    ensures StripComment(line) <= line
    ensures var s := StripComment(line); s != "" ==> !IsBlank(s[|s| - 1])
  {
    hide Scan;
  }

  lemma LStripIsIndent(s: string, n: nat)
    requires '\t' !in s && n == Indent(s)
    ensures LStrip(s) == s[n..]
  {
  }

  lemma RStripStays(s: string, n: nat)
    requires n <= |s| && (s != "" ==> !IsBlank(s[|s| - 1]))
    ensures RStrip(s[n..]) == s[n..]
  {
  }

  lemma SameIndent(line: string, s: string)
    requires s <= line && Indent(s) < |s|
    ensures Indent(line) == Indent(s)
  {
    var n := Indent(s);
    assert line[n] == s[n];
    assert forall k :: 0 <= k < n ==> line[k] == s[k];
  }

  lemma CommentHere(line: string, m: nat)
    requires 0 < m < |line| && line[m - 1] == ' ' && line[m] == '#'
    requires forall k :: 0 <= k < m ==> line[k] == ' ' || line[k] == '-'
    ensures |StripComment(line)| <= m
  {
    ScanBehind(line[..m], line[m..], ' ');
    assert line == line[..m] + line[m..];
  }

  /** Blanked up to its column, the line of an item has the item as its content. */
  lemma RewrittenContent(line: string, col: int)
    requires '\t' !in line && Strip(StripComment(line)) != ""
    requires var content := Strip(StripComment(line));
             && IsDash(content) && Strip(content[1..]) != ""
             && col == Find(line, Strip(content[1..])[0], Indent(line) + 1)
    ensures 0 < col < |line| && Indent(line) < col
    ensures Strip(StripComment(Spaces(col) + line[col..])) == Strip(Strip(StripComment(line))[1..])
    ensures !StartsWith(StripComment(Spaces(col) + line[col..]), "---")
    ensures '\t' !in Spaces(col) + line[col..]
  {
    hide Scan, StripComment, Strip, Indent, IsDash;
    ItemLine(line, col);
    RewrittenLine(line, col);
    assert forall k :: 0 <= k < |line| - col ==> line[col..][k] == line[col + k];
  }

  lemma RewrittenLine(line: string, col: nat)
    requires 0 < col < |line| && line[col - 1] == ' ' && !IsBlank(line[col]) && line[col] != '#'
    requires forall k :: 0 <= k < col ==> line[k] == ' ' || line[k] == '-'
    requires col < |StripComment(line)|
    ensures Strip(StripComment(Spaces(col) + line[col..])) == StripComment(line)[col..]
    ensures !StartsWith(StripComment(Spaces(col) + line[col..]), "---")
  {
    hide Scan, StripComment, Strip;
    StripIsPrefix(line);
    var p, q := line[..col], line[col..];
    assert line == p + q && q[0] == line[col] && p[|p| - 1] == line[col - 1];
    assert forall k :: 0 <= k < |p| ==> p[k] == line[k];
    SameBehind(p, Spaces(col), q, StripComment(line));
  }

  /** A text behind blanks and dashes is stripped to the same as behind blanks only. */
  lemma SameBehind(p: string, b: string, q: string, s: string)
    requires p != "" && p[|p| - 1] == ' ' && forall k :: 0 <= k < |p| ==> p[k] == ' ' || p[k] == '-'
    requires b == Spaces(|p|) && q != "" && !IsBlank(q[0]) && q[0] != '#'
    requires s == StripComment(p + q) && |p| < |s| && !IsBlank(s[|s| - 1])
    ensures Strip(StripComment(b + q)) == s[|p|..] && !StartsWith(StripComment(b + q), "---")
  {
    hide Scan, StripComment, Strip;
    StrippedBehind(p, q);
    StrippedBehind(b, q);
    var r := s[|p|..];
    assert s == p + r && StripComment(b + q) == b + r;
    assert r[0] == q[0];
    StripIndented(|p|, r);
    SecondChars(b + r);
  }

  lemma {:induction false} CheckedSuffix(s: string, k: nat)
    requires k <= |s| && CheckOk(s) && forall i :: 0 <= i < k ==> s[i] == '-' || s[i] == ' '
    ensures CheckOk(s[k..])
    decreases k
  {
    if k > 0 {
      CheckedSuffix(s[1..], k - 1);
      assert s[1..][k - 1..] == s[k..];
    } else {
      assert s[k..] == s;
    }
  }

  /** If the line of an item passes the check, the item does. */
  lemma ItemPasses(line: string)
    requires '\t' !in line && Strip(StripComment(line)) != ""
    requires var content := Strip(StripComment(line));
             IsDash(content) && Strip(content[1..]) != "" && CheckOk(content)
    ensures CheckOk(Strip(Strip(StripComment(line))[1..]))
  {
    hide Scan, StripComment, Strip, CheckOk;
    var content := Strip(StripComment(line));
    ContentOf(line);
    StripIsPrefix(line);
    var k := ItemIn(content);
    SecondChars(content);
    CheckedSuffix(content, k);
  }

  lemma NestedItem(item: string)
    requires IsDash(item) || SplitKey(item).Some?
    ensures IsItemContent(item)
  {
    if IsDash(item) {
      DashIsNoMarker(item);
    }
    NoColonNoKey("---");
    NoColonNoKey("...");
  }

  lemma NoColonNoKey(s: string)
    requires ':' !in s
    ensures SplitKey(s).None?
  {
  }

  /** The lines of the text after the line at `j` has been replaced by one with some content. */
  lemma TracksRewritten(raw0: seq<string>, cur: Cursor, line: string)
    requires Tracks(raw0, cur) && Next(cur).Some? && IsDash(Next(cur).value.content)
    requires CheckOk(Next(cur).value.content) && '\t' !in line
    requires IsItemContent(Strip(StripComment(line))) && CheckOk(Strip(StripComment(line)))
    requires !StartsWith(StripComment(line), "---")
    ensures var j := Next(cur).value.at; Tracks(raw0, Cursor(cur.raw[j := line], j))
  {
    hide NextFrom, CheckOk, StripComment, Strip, SeenContent, EndsDocument;
    var j := Next(cur).value.at;
    var raw := cur.raw[j := line];
    NextIs(cur.raw, cur.i);
    if cur.raw[j] == raw0[j] {
      LineAlike(raw0, cur, j);
    }
    assert IsRewritten(raw0, raw, j);
    forall k | cur.i <= k < j
      ensures HasPassed(raw0, k)
    {
      TracksTo(raw0, cur, k);
    }
    assert forall k :: 0 <= k < |raw0| && k != j && IsRewritten(raw0, cur.raw, k) ==> IsRewritten(raw0, raw, k);
  }

  /** Rewriting the line of an item keeps track of the text. */
  lemma ReopenedTracks(raw0: seq<string>, cur: Cursor, item: string)
    requires Tracks(raw0, cur) && Next(cur).Some? && IsDash(Next(cur).value.content)
    requires CheckOk(Next(cur).value.content) && item == Strip(Next(cur).value.content[1..])
    requires item != "" && (IsDash(item) || SplitKey(item).Some?) && !NestedHead(cur, item).BadItem?
    ensures Tracks(raw0, NestedHead(cur, item).cur)
  {
    hide NextFrom, CheckOk, StripComment, Strip, SplitKey, Spaces, Tracks, NestedHead, Find, Indent, IsDash;
    NestedIs(cur, item);
    var j, col := Next(cur).value.at, NestedHead(cur, item).col;
    NextLine(raw0, cur);
    RewrittenContent(cur.raw[j], col);
    ItemPasses(cur.raw[j]);
    NestedItem(item);
    TracksRewritten(raw0, cur, Spaces(col) + cur.raw[j][col..]);
  }

  lemma NextLine(raw0: seq<string>, cur: Cursor)
    requires Tracks(raw0, cur) && Next(cur).Some?
    ensures var line := cur.raw[Next(cur).value.at];
            '\t' !in line && Strip(StripComment(line)) == Next(cur).value.content
  {
    hide NextFrom, CheckOk, StripComment, Strip, SeenContent;
    NextIs(cur.raw, cur.i);
  }

  lemma NestedIs(cur: Cursor, item: string)
    requires Next(cur).Some? && item != "" && !NestedHead(cur, item).BadItem?
    ensures var r, j := NestedHead(cur, item), Next(cur).value.at;
            && r.Nested? && r.col == Find(cur.raw[j], item[0], Indent(cur.raw[j]) + 1) && r.col <= |cur.raw[j]|
            && r.cur == Cursor(cur.raw[j := Spaces(r.col) + cur.raw[j][r.col..]], j)
  {
    hide NextFrom, Find, Indent, Spaces;
  }

  // --- reading -----------------------------------------------------------------------------------------------------

  /** The line of an error is one of the text with something on it; if it is about a mark, the line has one. */
  ghost predicate IsReal(raw0: seq<string>, e: Error) {
    && 1 <= e.line <= |raw0| && IsSignificant(raw0, e.line - 1)
    && !(e.Rejected? && e.why.Documents?)
    && (e.Rejected? && e.why.Tagged? ==> !CheckOk(Content(raw0, e.line - 1)))
  }

  /** A line number, as long as the error is not about a mark. */
  predicate IsRealLine(raw0: seq<string>, line: nat) {
    1 <= line <= |raw0| && IsSignificant(raw0, line - 1)
  }

  /** The reader still tracks the text, and what it has read has no key twice; an error is about a line of the text. */
  ghost predicate Proper(raw0: seq<string>, r: Parsed) {
    if r.Done? then Tracks(raw0, r.cur) && AllDistinct(r.value) else IsReal(raw0, r.error)
  }

  /** The line that is read next is a line of the text, if perhaps rewritten. */
  lemma NextIsReal(raw0: seq<string>, cur: Cursor)
    requires Tracks(raw0, cur) && Next(cur).Some?
    ensures IsRealLine(raw0, Next(cur).value.at + 1)
  {
    hide NextFrom, CheckOk, StripComment, Strip, SeenContent;
    var k := Next(cur).value.at;
    NextIs(cur.raw, cur.i);
    if cur.raw[k] == raw0[k] {
      LineAlike(raw0, cur, k);
    }
  }

  lemma ScalarErrors(raw0: seq<string>, text: string, line: nat)
    requires IsRealLine(raw0, line)
    ensures ScalarAt(text, line).Err? ==> IsReal(raw0, ScalarAt(text, line).error)
  {
    hide Scalar, IsSignificant;
  }

  lemma LeafErrors(raw0: seq<string>, cur: Cursor, first: string, indent: int, line: nat)
    requires first != "" && IsRealLine(raw0, line)
    ensures Leaf(cur, first, indent, line).Err? ==> IsReal(raw0, Leaf(cur, first, indent, line).error)
  {
    hide Continues, IsSignificant, ScalarAt;
    ScalarErrors(raw0, first, line);
  }

  lemma ScalarsAreDistinct(text: string, line: nat)
    ensures ScalarAt(text, line).Ok? ==> AllDistinct(ScalarAt(text, line).value)
  {
    hide Strip, IsInt, IsFloat, HalveQuotes, UnterminatedFrom, Unescaped;
  }

  lemma MarkIsReal(raw0: seq<string>, cur: Cursor)
    requires Tracks(raw0, cur) && Next(cur).Some? && !CheckOk(Next(cur).value.content)
    ensures IsReal(raw0, Rejected(Next(cur).value.at + 1, Tagged))
  {
    hide NextFrom, CheckOk, StripComment, Strip, SeenContent;
    var k := Next(cur).value.at;
    NextIs(cur.raw, cur.i);
    if cur.raw[k] == raw0[k] {
      LineAlike(raw0, cur, k);
    }
  }

  lemma EntryErrors(raw0: seq<string>, cur: Cursor, indent: int, out: seq<Pair>)
    requires Tracks(raw0, cur) && Next(cur).Some? && EntryHead(cur, indent, out).BadHead?
    ensures IsReal(raw0, EntryHead(cur, indent, out).error)
  {
    hide NextFrom, CheckOk, SplitKey, ScalarAt, Tracks, HasKey, Leaf, IsSignificant, Weight, Content;
    var Significant(j, ind, content) := Next(cur).value;
    NextIsReal(raw0, cur);
    if !CheckOk(content) {
      MarkIsReal(raw0, cur);
    } else if SplitKey(content).Some? {
      var e := SplitKey(content).value;
      ScalarErrors(raw0, e.key, j + 1);
      if e.rest != "" {
        LeafErrors(raw0, Consumed(cur), e.rest, indent, j + 1);
      }
    }
  }

  lemma ItemErrors(raw0: seq<string>, cur: Cursor)
    requires Tracks(raw0, cur) && Next(cur).Some? && IsDash(Next(cur).value.content) && ItemHead(cur).BadItem?
    ensures IsReal(raw0, ItemHead(cur).error)
  {
    hide NextFrom, CheckOk, SplitKey, Tracks, Leaf, IsSignificant, Strip, NestedHead, Weight, IsDash;
    var Significant(j, indent, content) := Next(cur).value;
    NextIsReal(raw0, cur);
    var item := Strip(content[1..]);
    if !CheckOk(content) {
      MarkIsReal(raw0, cur);
    } else if item != "" {
      if NestedHead(cur, item).BadItem? {
        NestedErrors(cur, item);
      }
      LeafErrors(raw0, Consumed(cur), item, indent, j + 1);
    }
  }

  lemma NestedErrors(cur: Cursor, item: string)
    requires Next(cur).Some? && item != "" && NestedHead(cur, item).BadItem?
    ensures NestedHead(cur, item).error == Rejected(Next(cur).value.at + 1, NoColumn)
  {
    hide NextFrom, Find, Indent;
  }

  lemma EntryTracks(raw0: seq<string>, cur: Cursor, indent: int, out: seq<Pair>)
    requires Tracks(raw0, cur) && Next(cur).Some? && EntryHead(cur, indent, out).Head?
    ensures var head := EntryHead(cur, indent, out); Tracks(raw0, head.cur) && !HasKey(out, head.key)
  {
    hide NextFrom, CheckOk, SplitKey, Scalar, Tracks, HasKey, Continues;
    assert CheckOk(Next(cur).value.content);
    ConsumedTracks(raw0, cur);
  }

  lemma MoreKeys(out: seq<Pair>, p: Pair)
    requires AllDistinct(Dict(out)) && !HasKey(out, p.key) && AllDistinct(p.value)
    ensures AllDistinct(Dict(out + [p]))
  {
  }

  lemma ItemTracks(raw0: seq<string>, cur: Cursor)
    requires Tracks(raw0, cur) && Next(cur).Some? && IsDash(Next(cur).value.content) && !ItemHead(cur).BadItem?
    ensures Tracks(raw0, ItemHead(cur).cur)
    ensures ItemHead(cur).Inline? ==> AllDistinct(ItemHead(cur).value)
  {
    hide NextFrom, CheckOk, SplitKey, Scalar, Tracks, Continues, Strip, AllDistinct, Reopened;
    var item := Strip(Next(cur).value.content[1..]);
    assert CheckOk(Next(cur).value.content);
    ConsumedTracks(raw0, cur);
    ScalarsAreDistinct(item, Next(cur).value.at + 1);
    if item != "" && (IsDash(item) || (SplitKey(item).Some? && !IsFlowStart(item[0]))) {
      ReopenedTracks(raw0, cur, item);
    }
  }

  lemma FlowPasses(content: string)
    requires content == "[]" || content == "{}"
    ensures CheckOk(content)
  {
    assert DropDashes(content) == content;
    assert content[1..][1..] == "" && !HasTaggedValue(content[1..]);
  }

  lemma FlowTracks(raw0: seq<string>, cur: Cursor)
    requires Tracks(raw0, cur) && Next(cur).Some? && IsFlowStart(Next(cur).value.content[0])
    ensures Proper(raw0, FlowBlock(cur))
  {
    hide NextFrom, CheckOk, ScalarAt, Tracks, Continues, AllDistinct, Weight, IsSignificant;
    var content := Next(cur).value.content;
    NextIsReal(raw0, cur);
    LeafErrors(raw0, Consumed(cur), content, Next(cur).value.indent - 1, Next(cur).value.at + 1);
    if content == "[]" || content == "{}" {
      FlowPasses(content);
      ConsumedTracks(raw0, cur);
      ScalarsAreDistinct(content, Next(cur).value.at + 1);
    }
  }

  lemma {:induction false} BlockTracks(raw0: seq<string>, cur: Cursor, indent: int)
    requires Tracks(raw0, cur)
    ensures Proper(raw0, Block(cur, indent))
    decreases Size(cur), 1
  {
    hide NextFrom, Tracks, AllDistinct, FlowBlock;
    TracksInside(raw0, cur);
    NullIsDistinct();
    if Next(cur).Some? {
      var next := Next(cur).value;
      if IsDash(next.content) {
        NothingIsDistinct();
        SequenceTracks(raw0, cur, next.indent, []);
      } else if IsFlowStart(next.content[0]) {
        FlowTracks(raw0, cur);
      } else {
        NothingIsDistinct();
        MappingTracks(raw0, cur, next.indent, []);
      }
    }
  }

  lemma TracksInside(raw0: seq<string>, cur: Cursor)
    requires Tracks(raw0, cur)
    ensures cur.i <= |cur.raw|
  {
  }

  lemma NothingIsDistinct()
    ensures AllDistinct(Dict([])) && AllDistinct(List([]))
  {
  }

  lemma NullIsDistinct()
    ensures AllDistinct(Null)
  {
  }

  lemma {:induction false} ValueTracks(raw0: seq<string>, cur: Cursor, rest: string, indent: int, line: nat,
                                       seqSameIndent: bool)
    requires Tracks(raw0, cur) && cur.i <= |cur.raw| && IsRealLine(raw0, line)
    ensures Proper(raw0, ValueAfter(cur, rest, indent, line, seqSameIndent))
    decreases Size(cur), 2
  {
    hide NextFrom, Tracks, AllDistinct, ScalarAt, IsBlockHeader, IsSignificant, Block, Weight, IsDash;
    NullIsDistinct();
    ScalarErrors(raw0, rest, line);
    ScalarsAreDistinct(rest, line);
    if rest == "" && Next(cur).Some? {
      BlockTracks(raw0, cur, Next(cur).value.indent);
    }
  }

  /** One step of a mapping: its next entry and the rest, or the end. */
  lemma MappingSteps(cur: Cursor, indent: int, out: seq<Pair>)
    requires cur.i <= |cur.raw|
    ensures var r := Mapping(cur, indent, out);
            if Next(cur).Some? && !(Next(cur).value.indent < indent ||
                (Next(cur).value.indent == indent && IsDash(Next(cur).value.content))) then
              var head := EntryHead(cur, indent, out);
              if head.BadHead? then r == Failed(head.error)
              else
                var value := ValueAfter(head.cur, head.rest, indent, Next(cur).value.at + 1, true);
                r == if value.Failed? then value
                     else Mapping(value.cur, indent, out + [Pair(head.key, value.value)])
            else r == Done(Dict(out), cur)
  {
    hide NextFrom, EntryHead, ValueAfter, Weight, IsDash;
  }

  lemma {:induction false} MappingTracks(raw0: seq<string>, cur: Cursor, indent: int, out: seq<Pair>)
    requires Tracks(raw0, cur) && cur.i <= |cur.raw| && AllDistinct(Dict(out))
    ensures Proper(raw0, Mapping(cur, indent, out))
    decreases Size(cur), 0
  {
    hide NextFrom, Tracks, AllDistinct, EntryHead, HasKey, ValueAfter, Weight, Mapping, IsDash, IsSignificant;
    MappingSteps(cur, indent, out);
    if Next(cur).Some? {
      var next := Next(cur).value;
      if !(next.indent < indent || (next.indent == indent && IsDash(next.content))) {
        var head := EntryHead(cur, indent, out);
        NextIsReal(raw0, cur);
        if head.BadHead? {
          EntryErrors(raw0, cur, indent, out);
        } else {
          EntryTracks(raw0, cur, indent, out);
          ValueTracks(raw0, head.cur, head.rest, indent, next.at + 1, true);
          var value := ValueAfter(head.cur, head.rest, indent, next.at + 1, true);
          if value.Done? {
            MoreKeys(out, Pair(head.key, value.value));
            MappingTracks(raw0, value.cur, indent, out + [Pair(head.key, value.value)]);
          }
        }
      }
    }
  }

  lemma MoreItems(out: seq<Value>, v: Value)
    requires AllDistinct(List(out)) && AllDistinct(v)
    ensures AllDistinct(List(out + [v]))
  {
  }

  /** One step of a sequence: its next item and the rest, or the end. */
  lemma SequenceSteps(cur: Cursor, indent: int, out: seq<Value>)
    requires cur.i <= |cur.raw|
    ensures var r := Sequence(cur, indent, out);
            if Next(cur).Some? && Next(cur).value.indent == indent && IsDash(Next(cur).value.content) then
              var item := ItemValue(ItemHead(cur), indent, Next(cur).value.at + 1, Size(cur));
              r == if item.Failed? then item else Sequence(item.cur, indent, out + [item.value])
            else r == Done(List(out), cur) ||
                 (Next(cur).Some? && r == Failed(Rejected(Next(cur).value.at + 1, Indented)))
  {
    hide NextFrom, ItemHead, ItemValue, Weight, IsDash;
  }

  lemma {:induction false} ItemReads(raw0: seq<string>, cur: Cursor, indent: int)
    requires Tracks(raw0, cur) && cur.i <= |cur.raw| && Next(cur).Some? && IsDash(Next(cur).value.content)
    ensures Proper(raw0, ItemValue(ItemHead(cur), indent, Next(cur).value.at + 1, Size(cur)))
    decreases Size(cur), 0, 1
  {
    hide NextFrom, Tracks, AllDistinct, ItemHead, ItemValue, Weight, IsDash, IsSignificant;
    NextIsReal(raw0, cur);
    if ItemHead(cur).BadItem? {
      ItemErrors(raw0, cur);
      BadItemFails(ItemHead(cur), indent, Next(cur).value.at + 1, Size(cur));
    } else {
      ItemTracks(raw0, cur);
      ItemValueTracks(raw0, ItemHead(cur), indent, Next(cur).value.at + 1, Size(cur));
    }
  }

  lemma {:induction false} SequenceTracks(raw0: seq<string>, cur: Cursor, indent: int, out: seq<Value>)
    requires Tracks(raw0, cur) && cur.i <= |cur.raw| && AllDistinct(List(out))
    ensures Proper(raw0, Sequence(cur, indent, out))
    decreases Size(cur), 0
  {
    hide NextFrom, Tracks, AllDistinct, ItemHead, ItemValue, Weight, Sequence, IsDash, IsSignificant;
    SequenceSteps(cur, indent, out);
    if Next(cur).Some? {
      var next := Next(cur).value;
      NextIsReal(raw0, cur);
      if next.indent == indent && IsDash(next.content) {
        ItemReads(raw0, cur, indent);
        var item := ItemValue(ItemHead(cur), indent, next.at + 1, Size(cur));
        if item.Done? {
          MoreItems(out, item.value);
          SequenceTracks(raw0, item.cur, indent, out + [item.value]);
        }
      }
    }
  }

  lemma BadItemFails(item: Item, indent: int, line: nat, size: nat)
    requires item.BadItem?
    ensures ItemValue(item, indent, line, size) == Failed(item.error)
  {
  }

  lemma {:induction false} ItemValueTracks(raw0: seq<string>, item: Item, indent: int, line: nat, size: nat)
    requires !item.BadItem? && item.cur.i <= |item.cur.raw| && Size(item.cur) < size && Tracks(raw0, item.cur)
    requires (item.Inline? ==> AllDistinct(item.value)) && IsRealLine(raw0, line)
    ensures Proper(raw0, ItemValue(item, indent, line, size))
    decreases size, 0, 0
  {
    hide NextFrom, Tracks, AllDistinct, Mapping, Sequence, ValueAfter;
    NothingIsDistinct();
    match item
    case Inline(v, cur) =>
    case After(text, cur) => ValueTracks(raw0, cur, text, indent, line, false);
    case Nested(isSequence, col, cur) =>
      if isSequence {
        SequenceTracks(raw0, cur, col, []);
      } else {
        MappingTracks(raw0, cur, col, []);
      }
  }

  // --- whole texts -------------------------------------------------------------------------------------------------

  lemma {:induction false} ExpandedHasNoTab(s: string, col: nat)
    ensures '\t' !in ExpandTabs(s, col)
  {
    if s != "" {
      ExpandedHasNoTab(s[1..], if s[0] == '\t' then col + (2 - col % 2) else if s[0] == '\n' || s[0] == '\r' then 0
                               else col + 1);
    }
  }

  lemma {:induction false} SplitHasNoTab(s: string)
    requires '\t' !in s
    ensures forall k :: 0 <= k < |SplitLines(s)| ==> '\t' !in SplitLines(s)[k]
    decreases |s|
  {
    if s == "" {
    } else if |s| > 1 && s[0] == '\r' && s[1] == '\n' {
      SplitHasNoTab(s[2..]);
    } else {
      SplitHasNoTab(s[1..]);
    }
  }

  lemma StartTracks(text: string)
    ensures Tracks(LinesOf(text), Cursor(LinesOf(text), 0))
  {
    hide SplitLines, ExpandTabs, IsRewritten, EndsDocument, IsSignificant, CheckOk, Content;
    ExpandedHasNoTab(text, 0);
    SplitHasNoTab(BeforeDollar(ExpandTabs(text, 0)));
  }

  /** No mapping in what a text is read as has a key twice (`true` and `1` are one key). */
  lemma KeysAreDistinct(text: string)
    ensures Loads(text).Ok? ==> AllDistinct(Loads(text).value)
  {
    hide LinesOf, NextFrom, Tracks, AllDistinct, SecondDocument;
    StartTracks(text);
    BlockTracks(LinesOf(text), Cursor(LinesOf(text), 0), 0);
  }

  /** The text is behind the last line that was read: nothing there but insignificant lines, or the document's end. */
  lemma AfterTheLast(raw0: seq<string>, cur: Cursor, k: nat)
    requires Tracks(raw0, cur) && Next(cur).None? && k < |raw0|
    requires IsSignificant(raw0, k) && forall e :: 0 <= e <= k ==> !EndsDocument(raw0, e)
    ensures CheckOk(Content(raw0, k))
  {
    hide NextFrom, CheckOk, StripComment, Strip, SeenContent;
    if k < cur.i {
      assert HasPassed(raw0, k);
    } else if cur.raw[k] != raw0[k] {
      assert IsRewritten(raw0, cur.raw, k);
    } else {
      forall e | cur.i <= e <= k ensures !EndsDocument(cur.raw, e) {
        if cur.raw[e] == raw0[e] {
          LineAlike(raw0, cur, e);
        } else {
          assert IsRewritten(raw0, cur.raw, e);
        }
      }
      LineAlike(raw0, cur, k);
      PassedOver(cur.raw, cur.i, k);
    }
  }

  /** An anchor, alias or tag where a value or key would start, a merge key, or one of them behind a colon. */
  ghost predicate HasMark(s: string) {
    || (exists n :: 0 <= n < |s| && OnlyDashes(s[..n]) && (IsTag(s[n]) || StartsWith(s[n..], "<<")))
    || (exists i, j :: 0 <= i && i + 1 < j < |s| && s[i] == ':' && OnlyBlanks(s[i + 1..j]) && IsTag(s[j]))
  }

  predicate OnlyDashes(s: string) {
    forall k :: 0 <= k < |s| ==> s[k] == '-' || s[k] == ' '
  }

  predicate OnlyBlanks(s: string) {
    forall k :: 0 <= k < |s| ==> IsBlank(s[k])
  }

  lemma {:induction false} DroppedDashes(s: string)
    ensures var t := DropDashes(s);
            && t == s[|s| - |t|..] && OnlyDashes(s[..|s| - |t|]) && (t != "" ==> t[0] != '-' && t[0] != ' ')
  {
    if s != "" && (s[0] == '-' || s[0] == ' ') {
      DroppedDashes(s[1..]);
    }
  }

  lemma FirstIsBlank(s: string)
    requires s != ""
    ensures forall j :: 0 < j <= |s| && OnlyBlanks(s[..j]) ==> IsBlank(s[0])
  {
    forall j | 0 < j <= |s| && OnlyBlanks(s[..j]) ensures IsBlank(s[0]) {
      assert s[..j][0] == s[0];
    }
  }

  lemma {:induction false} BlanksBeforeTag(s: string)
    ensures BlanksThenTag(s) <==> exists j :: 0 <= j < |s| && OnlyBlanks(s[..j]) && IsTag(s[j])
  {
    if s != "" && !IsTag(s[0]) && IsBlank(s[0]) {
      BlanksBeforeTag(s[1..]);
      if j :| 0 <= j < |s[1..]| && OnlyBlanks(s[1..][..j]) && IsTag(s[1..][j]) {
        assert s[..j + 1] == [s[0]] + s[1..][..j];
        assert OnlyBlanks(s[..j + 1]) && IsTag(s[j + 1]);
      }
      if j :| 0 <= j < |s| && OnlyBlanks(s[..j]) && IsTag(s[j]) {
        assert s[1..][..j - 1] == s[..j][1..];
        assert OnlyBlanks(s[1..][..j - 1]) && IsTag(s[1..][j - 1]);
      }
    } else if s != "" && IsTag(s[0]) {
      assert OnlyBlanks(s[..0]);
    } else if s != "" {
      FirstIsBlank(s);
    }
  }

  /** A tag behind the colon at `i`. */
  predicate TaggedAt(s: string, i: int) {
    0 <= i < |s| - 1 && s[i] == ':' && IsBlank(s[i + 1]) && BlanksThenTag(s[i + 1..])
  }

  lemma {:induction false} TaggedValues(s: string)
    ensures HasTaggedValue(s) <==> exists i :: TaggedAt(s, i)
  {
    hide BlanksThenTag;
    if s != "" {
      TaggedValues(s[1..]);
      assert s[0] == ':' && |s| > 1 && IsBlank(s[1]) && BlanksThenTag(s[1..]) ==> TaggedAt(s, 0);
      if i :| TaggedAt(s[1..], i) {
        assert s[1..][i + 1..] == s[i + 2..];
        assert TaggedAt(s, i + 1);
      }
      if i :| TaggedAt(s, i) {
        if i > 0 {
          assert s[1..][i..] == s[i + 1..];
          assert TaggedAt(s[1..], i - 1);
        } else {
          assert s[i] == s[0] && s[i + 1] == s[1] && s[i + 1..] == s[1..];
        }
      }
    }
  }

  lemma TaggedIs(s: string, i: int)
    requires 0 <= i < |s|
    ensures TaggedAt(s, i) <==>
              s[i] == ':' && exists j :: i + 1 < j < |s| && OnlyBlanks(s[i + 1..j]) && IsTag(s[j])
  {
    if i + 1 < |s| {
      var t := s[i + 1..];
      BlanksBeforeTag(t);
      if j :| i + 1 < j < |s| && OnlyBlanks(s[i + 1..j]) && IsTag(s[j]) {
        assert t[..j - i - 1] == s[i + 1..j] && t[j - i - 1] == s[j];
        assert IsBlank(s[i + 1..j][0]);
      }
      if TaggedAt(s, i) {
        var j :| 0 <= j < |t| && OnlyBlanks(t[..j]) && IsTag(t[j]);
        assert s[i + 1..i + 1 + j] == t[..j] && s[i + 1 + j] == t[j];
      }
    }
  }

  /** The check lets exactly the texts without such a mark pass. */
  lemma CheckFindsMarks(s: string)
    ensures CheckOk(s) <==> !HasMark(s)
  {
    hide DropDashes, HasTaggedValue, TaggedAt, OnlyBlanks;
    DroppedDashes(s);
    TaggedValues(s);
    forall i | 0 <= i < |s|
      ensures TaggedAt(s, i) <==>
                s[i] == ':' && exists j :: i + 1 < j < |s| && OnlyBlanks(s[i + 1..j]) && IsTag(s[j])
    {
      TaggedIs(s, i);
    }
    DashesEnd(s);
    TaggedInside(s);
  }

  lemma TaggedInside(s: string)
    ensures forall i :: TaggedAt(s, i) ==> 0 <= i < |s|
  {
  }

  lemma DashesReach(s: string, m: nat)
    requires m <= |s| && OnlyDashes(s[..m]) && (m < |s| ==> s[m] != '-' && s[m] != ' ')
    ensures forall n :: 0 <= n < m ==> s[n] == '-' || s[n] == ' '
    ensures forall n :: 0 <= n <= |s| && OnlyDashes(s[..n]) ==> n <= m
  {
    forall n | 0 <= n < m ensures s[n] == '-' || s[n] == ' ' {
      assert s[..m][n] == s[n];
    }
    if m < |s| {
      forall n | m < n <= |s| ensures !OnlyDashes(s[..n]) {
        assert s[..n][m] == s[m];
      }
    }
  }

  lemma DashesEnd(s: string)
    ensures var t := DropDashes(s);
            (t != "" && (IsTag(t[0]) || StartsWith(t, "<<"))) <==>
            exists n :: 0 <= n < |s| && OnlyDashes(s[..n]) && (IsTag(s[n]) || StartsWith(s[n..], "<<"))
  {
    hide DropDashes, OnlyDashes;
    DroppedDashes(s);
    var t := DropDashes(s);
    DashesReach(s, |s| - |t|);
    forall n | 0 <= n < |s| && StartsWith(s[n..], "<<") ensures s[n] == '<' {
      FirstOfMerge(s[n..]);
    }
  }

  lemma FirstOfMerge(s: string)
    ensures StartsWith(s, "<<") ==> s != "" && s[0] == '<'
  {
    assert StartsWith(s, "<<") ==> s[..2] == "<<";
  }

  /** A text is rejected, or left unread by the model, if a significant line of its first document has an anchor, alias,
      tag or merge key where a key or a value starts, or one behind a colon. */
  lemma AnchorsAndTagsAreRejected(text: string, k: nat)
    requires k < |LinesOf(text)| && HasMark(Content(LinesOf(text), k))
    requires IsSignificant(LinesOf(text), k) && forall e :: 0 <= e <= k ==> !EndsDocument(LinesOf(text), e)
    ensures Loads(text).Err?
  {
    hide LinesOf, NextFrom, CheckOk, AllDistinct, SecondDocument, IsSignificant, EndsDocument, IsRewritten, Content;
    var raw := LinesOf(text);
    StartTracks(text);
    BlockTracks(raw, Cursor(raw, 0), 0);
    CheckFindsMarks(Content(raw, k));
    var r := Block(Cursor(raw, 0), 0);
    if Loads(text).Ok? {
      AfterTheLast(raw, r.cur, k);
    }
  }

  lemma {:induction false} NoSecondDocument(raw: seq<string>, i: nat, j: nat)
    requires SecondDocument(raw, i).None? && i <= j < |raw|
    ensures !(StartsWith(raw[j], "---") && HasContent(raw[j + 1..]))
    decreases |raw| - i
  {
    hide HasContent;
    if i < j {
      NoSecondDocument(raw, i + 1, j);
    }
  }

  predicate ThreeDashes(s: string) {
    |s| >= 3 && s[0] == '-' && s[1] == '-' && s[2] == '-'
  }

  lemma MarkerIsDashes(s: string)
    ensures StartsWith(s, "---") <==> ThreeDashes(s)
  {
    if |s| >= 3 {
      assert s[..3] == [s[0], s[1], s[2]];
    }
  }

  lemma DashesStay(s: string)
    requires ThreeDashes(s)
    ensures ThreeDashes(RStrip(s)) && LStrip(s) == s
  {
    hide RStrip;
    RStripKeeps(s, 3);
    assert RStrip(s)[..3][0] == '-' && RStrip(s)[..3][1] == '-' && RStrip(s)[..3][2] == '-';
  }

  lemma StripCommentIs(s: string)
    ensures var r := Scan(s, ' ', None); StripComment(s) == RStrip(if r.Cut? then s[..r.at] else s)
  {
    hide Scan, RStrip;
  }

  /** A line that starts with the marker still does without its comment. */
  lemma MarkerSurvives(line: string)
    requires StartsWith(line, "---")
    ensures StartsWith(StripComment(line), "---") && StartsWith(Strip(StripComment(line)), "---")
  {
    hide Scan, RStrip, LStrip, StripComment, StartsWith;
    MarkerIsDashes(line);
    NoCutInMarker(line);
    StripCommentIs(line);
    var r := Scan(line, ' ', None);
    DashesStay(if r.Cut? then line[..r.at] else line);
    var s := StripComment(line);
    DashesStay(s);
    MarkerIsDashes(s);
    MarkerIsDashes(RStrip(s));
  }

  lemma NoCutInMarker(line: string)
    requires |line| >= 3 && line[0] == '-' && line[1] == '-' && line[2] == '-'
    ensures var r := Scan(line, ' ', None); r.Cut? ==> r.at >= 3
  {
    assert line[1..][0] == '-' && line[1..][1..][0] == '-' && line[1..][1..][1..] == line[3..];
  }

  /** Content, a marker at the start of a line, and more content: such a text is rejected. */
  lemma FurtherDocumentsAreRejected(text: string, i: nat, j: nat, k: nat)
    requires i < j < k < |LinesOf(text)| && StartsWith(LinesOf(text)[j], "---")
    requires Content(LinesOf(text), i) != "" && Content(LinesOf(text), i) != "---" && Content(LinesOf(text), k) != ""
    ensures Loads(text).Err?
  {
    hide LinesOf, NextFrom, CheckOk, AllDistinct, Content, Tracks, EndsDocument, Block, Weight, SecondDocument;
    var raw := LinesOf(text);
    StartTracks(text);
    TracksInside(raw, Cursor(raw, 0));
    BlockTracks(raw, Cursor(raw, 0), 0);
    var r := Block(Cursor(raw, 0), 0);
    MarkerEnds(raw, i, j);
    if r.Done? {
      EndIsNotRead(raw, r.cur, j);
      SecondIsThere(raw, r.cur, j, k);
    }
  }

  lemma MarkerEnds(raw: seq<string>, i: nat, j: nat)
    requires i < j < |raw| && StartsWith(raw[j], "---")
    requires Content(raw, i) != "" && Content(raw, i) != "---"
    ensures EndsDocument(raw, j)
  {
    hide StripComment, Strip;
    MarkerSurvives(raw[j]);
    SeenIs(raw, j);
  }

  lemma EndIsNotRead(raw0: seq<string>, cur: Cursor, j: nat)
    requires Tracks(raw0, cur) && j < |raw0| && EndsDocument(raw0, j)
    ensures cur.i <= j
  {
    hide CheckOk, StripComment, Strip, SeenContent;
    assert forall k :: 0 <= k < cur.i && HasPassed(raw0, k) ==> !EndsDocument(raw0, k);
  }

  lemma SecondIsThere(raw0: seq<string>, cur: Cursor, j: nat, k: nat)
    requires Tracks(raw0, cur) && cur.i <= j < k < |raw0|
    requires StartsWith(raw0[j], "---") && Content(raw0, k) != ""
    ensures SecondDocument(cur.raw, cur.i).Some?
  {
    hide CheckOk, StripComment, Strip, SecondDocument;
    MarkerSurvives(raw0[j]);
    if cur.raw[j] != raw0[j] {
      assert IsRewritten(raw0, cur.raw, j);
      DashIsNoMarker(Content(raw0, j));
    }
    var behind := cur.raw[j + 1..];
    assert behind[k - j - 1] == raw0[k];
    if SecondDocument(cur.raw, cur.i).None? {
      NoSecondDocument(cur.raw, cur.i, j);
    }
  }

  lemma {:induction false} SecondStarts(raw: seq<string>, j: nat)
    requires SecondDocument(raw, j).Some?
    ensures var n := SecondDocument(raw, j).value; j < n <= |raw| && StartsWith(raw[n - 1], "---")
    decreases |raw| - j
  {
    hide HasContent;
    if !(StartsWith(raw[j], "---") && HasContent(raw[j + 1..])) {
      SecondStarts(raw, j + 1);
    }
  }

  /** An error names a line of the text: where further content is found, one that starts with the marker of a document,
      else one with something on it; and where it is about a mark, one that has such a mark. */
  lemma ErrorsNameLines(text: string)
    ensures Loads(text).Err? ==>
              var raw, e := LinesOf(text), Loads(text).error;
              && 1 <= e.line <= |raw|
              && (if e.Rejected? && e.why.Documents? then StartsWith(raw[e.line - 1], "---")
                  else IsSignificant(raw, e.line - 1))
              && (e.Rejected? && e.why.Tagged? ==> HasMark(Content(raw, e.line - 1)))
  {
    hide LinesOf, NextFrom, CheckOk, AllDistinct, SecondDocument, IsSignificant, HasMark, Content, Block, Weight,
         Tracks;
    var raw := LinesOf(text);
    StartTracks(text);
    TracksInside(raw, Cursor(raw, 0));
    BlockTracks(raw, Cursor(raw, 0), 0);
    match Block(Cursor(raw, 0), 0)
    case Failed(e) => CheckFindsMarks(Content(raw, e.line - 1));
    case Done(v, cur) =>
      if Next(cur).Some? {
        NextIsReal(raw, cur);
      } else if SecondDocument(cur.raw, cur.i).Some? {
        SecondStarts(cur.raw, cur.i);
        TracksAll(raw, cur);
        MarkerIsUnchanged(raw, cur, SecondDocument(cur.raw, cur.i).value - 1);
      }
  }

  lemma TracksAll(raw0: seq<string>, cur: Cursor)
    requires Tracks(raw0, cur)
    ensures |cur.raw| == |raw0|
  {
  }

  lemma MarkerIsUnchanged(raw0: seq<string>, cur: Cursor, k: nat)
    requires Tracks(raw0, cur) && k < |raw0| && StartsWith(cur.raw[k], "---")
    ensures StartsWith(raw0[k], "---")
  {
    hide CheckOk, StripComment, Strip, SeenContent;
    MarkerSurvives(cur.raw[k]);
  }
}
