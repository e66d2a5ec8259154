/**
 The block reader of `yamlish.py` as functions on the reader's state: the lines (which `- - x` and
 `- key: value` rewrite) and the cursor. The class in YamlLines.dfy is proved against these functions.
 */
module YamlReader {
  import opened Wrappers
  import opened YamlText
  import opened YamlScalar

  /** The fields of `_Lines`. */
  datatype Cursor = Cursor(raw: seq<string>, i: nat) {
    function Rest(): seq<string> {
      if i <= |raw| then raw[i..] else []
    }
  }

  datatype Why = BadScalar(reason: Reason) | Tagged | Indented | NoKey | Duplicate | NoColumn | Trailing | Documents

  /** `YAMLError` with its 1-based line, or input that the code reads but this model does not. */
  datatype Error = Rejected(line: nat, why: Why) | NotModelled(line: nat)

  datatype Parsed = Done(value: Value, cur: Cursor) | Failed(error: Error)

  datatype Significant = Significant(at: nat, indent: nat, content: string)

  // --- how much text is left: the termination measure --------------------------------------------

  function LineWeight(s: string): nat {
    if s == "" then 0 else (if s[0] == ' ' then 0 else 1) + LineWeight(s[1..])
  }

  function Weight(lines: seq<string>): nat {
    if lines == [] then 0 else LineWeight(lines[0]) + Weight(lines[1..])
  }

  lemma {:induction false} LineWeightConcat(a: string, b: string)
    ensures LineWeight(a + b) == LineWeight(a) + LineWeight(b)
  {
    if a == "" {
      assert a + b == b;
    } else {
      assert (a + b)[1..] == a[1..] + b;
      LineWeightConcat(a[1..], b);
    }
  }

  lemma {:induction false} LineWeightPositive(s: string, k: nat)
    requires k < |s| && s[k] != ' '
    ensures LineWeight(s) > 0
  {
    if k > 0 {
      LineWeightPositive(s[1..], k - 1);
    }
  }

  lemma {:induction false} SpacesWeigh0(n: nat)
    ensures LineWeight(Spaces(n)) == 0
  {
    if n > 0 {
      assert Spaces(n)[1..] == Spaces(n - 1);
      SpacesWeigh0(n - 1);
    }
  }

  lemma {:induction false} WeightConcat(a: seq<string>, b: seq<string>)
    ensures Weight(a + b) == Weight(a) + Weight(b)
  {
    if a == [] {
      assert a + b == b;
    } else {
      assert (a + b)[1..] == a[1..] + b;
      WeightConcat(a[1..], b);
    }
  }

  /** The characters other than spaces still to be read. */
  function Size(cur: Cursor): nat {
    Weight(cur.Rest())
  }

  lemma WeightFrom(lines: seq<string>, i: nat, j: nat)
    requires i <= j < |lines|
    ensures Weight(lines[i..]) >= LineWeight(lines[j]) + Weight(lines[j + 1..])
  {
    assert lines[i..] == lines[i..j] + ([lines[j]] + lines[j + 1..]);
    WeightConcat(lines[i..j], [lines[j]] + lines[j + 1..]);
    WeightConcat([lines[j]], lines[j + 1..]);
  }

  // --- lines -------------------------------------------------------------------------------------

  predicate SeenContent(lines: seq<string>) {
    exists k :: 0 <= k < |lines| && Strip(StripComment(lines[k])) != "" && Strip(StripComment(lines[k])) != "---"
  }

  /** `next_significant` looking from line `j`. */
  function NextFrom(raw: seq<string>, j: nat): (r: Option<Significant>)
    ensures r.Some? ==> j <= r.value.at < |raw| && r.value.content != ""
    decreases |raw| - j
  {
    if j >= |raw| then None
    else
      var line := StripComment(raw[j]);
      var text := Strip(line);
      if text == "..." || (StartsWith(line, "---") && SeenContent(raw[..j])) then None
      else if text != "" && !StartsWith(line, "---") then Some(Significant(j, Indent(line), text))
      else NextFrom(raw, j + 1)
  }

  function Next(cur: Cursor): (r: Option<Significant>)
    ensures r.Some? ==> cur.i <= r.value.at < |cur.raw| && r.value.content != ""
  {
    NextFrom(cur.raw, cur.i)
  }

  lemma {:induction false} NextHasWeight(raw: seq<string>, j: nat)
    requires NextFrom(raw, j).Some?
    ensures LineWeight(raw[NextFrom(raw, j).value.at]) > 0
    decreases |raw| - j
  {
    hide Scan, LStrip, RStrip, LineWeight, SeenContent, Indent;
    var line := StripComment(raw[j]);
    var text := Strip(line);
    if text == "..." || (StartsWith(line, "---") && SeenContent(raw[..j])) {
    } else if text != "" && !StartsWith(line, "---") {
      var l := LStrip(line);
      var k := |line| - |l|;
      assert line[k] == l[0] && !IsBlank(l[0]);
      assert line <= raw[j];
      LineWeightPositive(raw[j], k);
    } else {
      NextHasWeight(raw, j + 1);
    }
  }

  /** `" " * col + raw[j][col:]` */
  function Reindented(raw: seq<string>, j: nat, col: nat): seq<string>
    requires j < |raw| && col <= |raw[j]|
  {
    raw[j := Spaces(col) + raw[j][col..]]
  }

  /** The state after the next significant line. */
  function Consumed(cur: Cursor): (r: Cursor)
    requires Next(cur).Some?
    ensures r == Cursor(cur.raw, Next(cur).value.at + 1)
    ensures r.i <= |r.raw| && Size(r) < Size(cur)
  {
    ConsumedShrinks(cur);
    Cursor(cur.raw, Next(cur).value.at + 1)
  }

  lemma ConsumedShrinks(cur: Cursor)
    requires Next(cur).Some?
    ensures Size(Cursor(cur.raw, Next(cur).value.at + 1)) < Size(cur)
  {
    hide NextFrom, LineWeight, Weight, StripComment, Strip, Indent;
    NextHasWeight(cur.raw, cur.i);
    WeightFrom(cur.raw, cur.i, Next(cur).value.at);
  }

  lemma BlankedWeighsLess(line: string, col: nat)
    requires Indent(line) < col <= |line|
    ensures LineWeight(Spaces(col) + line[col..]) < LineWeight(line)
  {
    hide LineWeight, Indent;
    var k := Indent(line);
    assert line == line[..col] + line[col..];
    LineWeightConcat(line[..col], line[col..]);
    LineWeightConcat(Spaces(col), line[col..]);
    SpacesWeigh0(col);
    assert line[..col][k] != ' ';
    LineWeightPositive(line[..col], k);
  }

  /** The state with the next significant line blanked up to `col` and still to be read. */
  function Reopened(cur: Cursor, col: nat): (r: Cursor)
    requires Next(cur).Some?
    requires Indent(cur.raw[Next(cur).value.at]) < col <= |cur.raw[Next(cur).value.at]|
    ensures r == Cursor(Reindented(cur.raw, Next(cur).value.at, col), Next(cur).value.at)
    ensures r.i <= |r.raw| && Size(r) < Size(cur)
  {
    ReopenedShrinks(cur, col);
    Cursor(Reindented(cur.raw, Next(cur).value.at, col), Next(cur).value.at)
  }

  lemma ReopenedShrinks(cur: Cursor, col: nat)
    requires Next(cur).Some?
    requires Indent(cur.raw[Next(cur).value.at]) < col <= |cur.raw[Next(cur).value.at]|
    ensures var j := Next(cur).value.at; Size(Cursor(Reindented(cur.raw, j, col), j)) < Size(cur)
  {
    hide NextFrom, LineWeight, Indent, Weight;
    var j := Next(cur).value.at;
    BlankedWeighsLess(cur.raw[j], col);
    WeightFrom(cur.raw, cur.i, j);
    WeightOfFirst(Reindented(cur.raw, j, col), j);
    assert Reindented(cur.raw, j, col)[j + 1..] == cur.raw[j + 1..];
  }

  lemma WeightOfFirst(lines: seq<string>, i: nat)
    requires i < |lines|
    ensures Weight(lines[i..]) == LineWeight(lines[i]) + Weight(lines[i + 1..])
  {
    assert lines[i..][1..] == lines[i + 1..];
  }

  // --- scalars in the text -----------------------------------------------------------------------

  predicate IsFlowStart(c: char) {
    c == '[' || c == '{'
  }

  /** `_continued` would take the next line into the scalar `first` (a multi-line scalar). */
  predicate Continues(cur: Cursor, first: string, indent: int)
    requires first != ""
  {
    && cur.i < |cur.raw|
    && (IsQuote(first[0]) ==> UnterminatedFrom(first, first[0], 1))
    && var raw := cur.raw[cur.i];
       if Strip(raw) == "" then IsQuote(first[0]) || (Next(cur).Some? && Next(cur).value.indent > indent)
       else
         && Indent(raw) > indent
         && (!IsQuote(first[0]) ==>
               var text := Strip(StripComment(raw)); !IsDash(text) && SplitKey(text).None?)
  }

  /** `scalar(_continued(lines, first, indent), lineno)` for a scalar that stays on its line. */
  function Leaf(cur: Cursor, first: string, indent: int, line: nat): Result<Value, Error>
    requires first != ""
  {
    if IsFlowStart(first[0]) && first != "[]" && first != "{}" then Err(NotModelled(line))
    else if !IsFlowStart(first[0]) && Continues(cur, first, indent) then Err(NotModelled(line))
    else ScalarAt(first, line)
  }

  function ScalarAt(text: string, line: nat): Result<Value, Error> {
    match Scalar(text)
    case Ok(v) => Ok(v)
    case Err(FlowNotModelled) => Err(NotModelled(line))
    case Err(reason) => Err(Rejected(line, BadScalar(reason)))
  }

  /** `[|>][-+]?\d?`, the header of a block scalar. */
  predicate IsBlockHeader(s: string) {
    && s != "" && (s[0] == '|' || s[0] == '>')
    && var t := DropSign(s[1..]); t == "" || (|t| == 1 && IsDigit(t[0]))
  }

  predicate IsBlockIndicator(c: char) {
    c == '|' || c == '>'
  }

  /** Keys that a dict takes for the same key (`True == 1`, `False == 0`). */
  function KeyIdentity(k: Value): Value {
    if k.Bool? then Int(if k.b then 1 else 0) else k
  }

  predicate HasKey(entries: seq<Pair>, k: Value) {
    exists e :: 0 <= e < |entries| && KeyIdentity(entries[e].key) == KeyIdentity(k)
  }

  // --- blocks ------------------------------------------------------------------------------------

  /** The key line of a mapping entry: its key, the text after the colon, and the state after the line. */
  datatype Head = Head(key: Value, rest: string, cur: Cursor) | BadHead(error: Error)

  function EntryHead(cur: Cursor, indent: int, out: seq<Pair>): (r: Head)
    requires Next(cur).Some?
    ensures r.Head? ==> r.cur.i <= |r.cur.raw| && Size(r.cur) < Size(cur)
  {
    var Significant(j, ind, content) := Next(cur).value;
    if ind > indent then BadHead(Rejected(j + 1, Indented))
    else if !CheckOk(content) then BadHead(Rejected(j + 1, Tagged))
    else
      match SplitKey(content)
      case None => BadHead(Rejected(j + 1, NoKey))
      case Some(Entry(key, rest)) =>
        match ScalarAt(key, j + 1)
        case Err(e) => BadHead(e)
        case Ok(k) =>
          var after := Consumed(cur);
          if HasKey(out, k) then BadHead(Rejected(j + 1, Duplicate))
          else if rest != "" && !IsBlockIndicator(rest[0]) && Leaf(after, rest, indent, j + 1).Err? then
            BadHead(Leaf(after, rest, indent, j + 1).error)
          else Head(k, rest, after)
  }

  /** How a `- ` item goes on: a value on the line, a value after it, or a block that starts in the line. */
  datatype Item =
    | Inline(value: Value, cur: Cursor)
    | After(text: string, cur: Cursor)
    | Nested(isSequence: bool, col: nat, cur: Cursor)
    | BadItem(error: Error)

  /** An item that is itself a block: the dash is blanked out, and the block read from its own column. */
  function NestedHead(cur: Cursor, item: string): (r: Item)
    requires Next(cur).Some? && item != ""
    ensures !r.BadItem? ==> r.cur.i <= |r.cur.raw| && Size(r.cur) < Size(cur)
  {
    var j := Next(cur).value.at;
    var col := Find(cur.raw[j], item[0], Indent(cur.raw[j]) + 1);
    if col < 0 then BadItem(Rejected(j + 1, NoColumn)) else Nested(IsDash(item), col, Reopened(cur, col))
  }

  /** The dash line of a sequence item. */
  function ItemHead(cur: Cursor): (r: Item)
    requires Next(cur).Some? && IsDash(Next(cur).value.content)
    ensures !r.BadItem? ==> r.cur.i <= |r.cur.raw| && Size(r.cur) < Size(cur)
  {
    var Significant(j, indent, content) := Next(cur).value;
    var item := Strip(content[1..]);
    if !CheckOk(content) then BadItem(Rejected(j + 1, Tagged))
    else if item == "" then After("", Consumed(cur))
    else if IsDash(item) || (SplitKey(item).Some? && !IsFlowStart(item[0])) then
      NestedHead(cur, item)
    else if IsBlockIndicator(item[0]) then After(item, Consumed(cur))
    else
      match Leaf(Consumed(cur), item, indent, j + 1)
      case Ok(v) => Inline(v, Consumed(cur))
      case Err(e) => BadItem(e)
  }

  predicate Shrinks(r: Parsed, cur: Cursor) {
    r.Done? ==> r.cur.i <= |r.cur.raw| && Size(r.cur) <= Size(cur)
  }

  /** `_block` */
  function Block(cur: Cursor, indent: int): (r: Parsed)
    requires cur.i <= |cur.raw|
    ensures Shrinks(r, cur)
    decreases Size(cur), 1
  {
    match Next(cur)
    case None => Done(Null, cur)
    case Some(next) =>
      if IsDash(next.content) then Sequence(cur, next.indent, [])
      else if IsFlowStart(next.content[0]) then FlowBlock(cur)
      else Mapping(cur, next.indent, [])
  }

  /** A flow collection as a whole block value. */
  function FlowBlock(cur: Cursor): (r: Parsed)
    requires Next(cur).Some?
    ensures Shrinks(r, cur)
  {
    var next := Next(cur).value;
    match Leaf(Consumed(cur), next.content, next.indent - 1, next.at + 1)
    case Ok(v) => Done(v, Consumed(cur))
    case Err(e) => Failed(e)
  }

  /** `_value_after` */
  function ValueAfter(cur: Cursor, rest: string, indent: int, line: nat, seqSameIndent: bool): (r: Parsed)
    requires cur.i <= |cur.raw|
    ensures Shrinks(r, cur)
    decreases Size(cur), 2
  {
    if IsBlockHeader(rest) then Failed(NotModelled(line))
    else if rest != "" then
      match ScalarAt(rest, line)
      case Ok(v) => Done(v, cur)
      case Err(e) => Failed(e)
    else
      match Next(cur)
      case None => Done(Null, cur)
      case Some(next) =>
        if next.indent > indent || (seqSameIndent && next.indent == indent && IsDash(next.content))
        then Block(cur, next.indent)
        else Done(Null, cur)
  }

  /** `_map`, with the entries read so far. */
  function Mapping(cur: Cursor, indent: int, out: seq<Pair>): (r: Parsed)
    requires cur.i <= |cur.raw|
    ensures Shrinks(r, cur)
    decreases Size(cur), 0
  {
    match Next(cur)
    case None => Done(Dict(out), cur)
    case Some(next) =>
      if next.indent < indent || (next.indent == indent && IsDash(next.content)) then Done(Dict(out), cur)
      else
        var head := EntryHead(cur, indent, out);
        if head.BadHead? then Failed(head.error)
        else
          var value := ValueAfter(head.cur, head.rest, indent, next.at + 1, true);
          if value.Failed? then value else Mapping(value.cur, indent, out + [Pair(head.key, value.value)])
  }

  /** `_seq`, with the items read so far. */
  function Sequence(cur: Cursor, indent: int, out: seq<Value>): (r: Parsed)
    requires cur.i <= |cur.raw|
    ensures Shrinks(r, cur)
    decreases Size(cur), 0
  {
    match Next(cur)
    case None => Done(List(out), cur)
    case Some(next) =>
      if next.indent > indent then Failed(Rejected(next.at + 1, Indented))
      else if next.indent < indent || !IsDash(next.content) then Done(List(out), cur)
      else
        var item := ItemValue(ItemHead(cur), indent, next.at + 1, Size(cur));
        if item.Failed? then item else Sequence(item.cur, indent, out + [item.value])
  }

  /** The value of one item, read from the state its dash line leaves; `size` bounds that state. */
  function ItemValue(item: Item, indent: int, line: nat, size: nat): (r: Parsed)
    requires !item.BadItem? ==> item.cur.i <= |item.cur.raw| && Size(item.cur) < size
    ensures r.Done? ==> r.cur.i <= |r.cur.raw| && Size(r.cur) < size
    decreases size, 0, 0
  {
    match item
    case BadItem(e) => Failed(e)
    case Inline(v, cur) => Done(v, cur)
    case After(text, cur) => ValueAfter(cur, text, indent, line, false)
    case Nested(isSequence, col, cur) => if isSequence then Sequence(cur, col, []) else Mapping(cur, col, [])
  }

  // --- documents ---------------------------------------------------------------------------------

  /** `text.expandtabs(2)`, entered at column `col`. */
  function ExpandTabs(s: string, col: nat): string {
    if s == "" then ""
    else if s[0] == '\t' then Spaces(2 - col % 2) + ExpandTabs(s[1..], col + (2 - col % 2))
    else if s[0] == '\n' || s[0] == '\r' then [s[0]] + ExpandTabs(s[1..], 0)
    else [s[0]] + ExpandTabs(s[1..], col + 1)
  }

  /** `re.split(r"\r\n|\r|\n", s)` */
  function SplitLines(s: string): (r: seq<string>)
    ensures r != []
    decreases |s|
  {
    if s == "" then [""]
    else if |s| > 1 && s[0] == '\r' && s[1] == '\n' then [""] + SplitLines(s[2..])
    else if s[0] == '\r' || s[0] == '\n' then [""] + SplitLines(s[1..])
    else
      var r := SplitLines(s[1..]);
      [[s[0]] + r[0]] + r[1..]
  }

  /** `_Lines.__init__` */
  function LinesOf(text: string): seq<string> {
    SplitLines(BeforeDollar(ExpandTabs(text, 0)))
  }

  predicate HasContent(lines: seq<string>) {
    exists k :: 0 <= k < |lines| && Strip(StripComment(lines[k])) != ""
  }

  /** The line of a `---` at or after `j` that more content follows, or None. */
  function SecondDocument(raw: seq<string>, j: nat): Option<nat>
    decreases |raw| - j
  {
    if j >= |raw| then None
    else if StartsWith(raw[j], "---") && HasContent(raw[j + 1..]) then Some(j + 1)
    else SecondDocument(raw, j + 1)
  }

  /** `loads` */
  function Loads(text: string): Result<Value, Error> {
    match Block(Cursor(LinesOf(text), 0), 0)
    case Failed(e) => Err(e)
    case Done(v, cur) =>
      match Next(cur)
      case Some(s) => Err(Rejected(s.at + 1, Trailing))
      case None =>
        match SecondDocument(cur.raw, cur.i)
        case Some(line) => Err(Rejected(line, Documents))
        case None => Ok(v)
  }
}
