/**
 The reader as the program runs it: the `_Lines` object, whose lines and cursor the methods change in place,
 and the character loops. Each is proved against its specification function.
 */
module YamlLines {
  import opened Wrappers
  import T = YamlText
  import opened YamlScalar
  import R = YamlReader

  // --- character loops ---------------------------------------------------------------------------------------

  function ShiftBy(r: T.Scanned, n: nat): T.Scanned {
    match r
    case Cut(k) => T.Cut(k + n)
    case Through(q) => T.Through(q)
  }

  /** What one character does to the comment scan. */
  lemma ScanOn(s: string, i: nat, prev: char, quote: Option<char>)
    requires i < |s|
    ensures var ch := s[i];
            ShiftBy(T.Scan(s[i..], prev, quote), i) ==
              if quote.Some? then ShiftBy(T.Scan(s[i + 1..], ch, if ch == quote.value then None else quote), i + 1)
              else if T.IsQuote(ch) && T.OpensQuote(prev) then ShiftBy(T.Scan(s[i + 1..], ch, Some(ch)), i + 1)
              else if ch == '#' && T.IsBlank(prev) then T.Cut(i)
              else ShiftBy(T.Scan(s[i + 1..], ch, None), i + 1)
  {
    assert s[i..][0] == s[i] && s[i..][1..] == s[i + 1..];
  }

  lemma ScanEnds(s: string, prev: char, quote: Option<char>)
    ensures T.Scan(s[|s|..], prev, quote) == T.Through(quote)
    ensures ShiftBy(T.Scan(s[0..], ' ', None), 0) == T.Scan(s, ' ', None)
  {
    assert s[0..] == s;
  }

  method StripComment(s: string) returns (r: string)
    ensures r == T.StripComment(s)
  {
    hide T.Scan, T.IsQuote, T.OpensQuote, T.IsBlank, T.RStrip;
    var out: string, quote: Option<char> := "", None;
    var prev := ' ';
    var i := 0;
    ScanEnds(s, prev, quote);
    while i < |s|
      invariant i <= |s| && out == s[..i]
      invariant ShiftBy(T.Scan(s[i..], prev, quote), i) == T.Scan(s, ' ', None)
    {
      var ch := s[i];
      ScanOn(s, i, prev, quote);
      if quote.Some? {
        if ch == quote.value {
          quote := None;
        }
      } else if T.IsQuote(ch) && T.OpensQuote(prev) {
        quote := Some(ch);
      } else if ch == '#' && T.IsBlank(prev) {
        break;
      }
      out := out + [ch];
      prev := ch;
      i := i + 1;
    }
    ScanEnds(s, prev, quote);
    assert i == |s| ==> out == s;
    r := T.RStrip(out);
  }

  /** The text with more before it. */
  function After(out: string, r: Option<string>): Option<string> {
    match r
    case None => None
    case Some(rest) => Some(out + rest)
  }

  lemma UnescapeOn(body: string, i: nat, out: string)
    requires i < |body|
    ensures match ReadChar(body[i..])
            case None => After(out, Unescaped(body[i..])) == None
            case Some((c, k)) =>
              i + k <= |body| && After(out, Unescaped(body[i..])) == After(out + [c], Unescaped(body[i + k..]))
  {
    hide ReadChar;
    match ReadChar(body[i..])
    case None =>
    case Some((c, k)) =>
      assert body[i..][k..] == body[i + k..];
      var more := Unescaped(body[i + k..]);
      if more.Some? {
        assert out + ([c] + more.value) == out + [c] + more.value;
      }
  }

  lemma UnescapeEnds(body: string, out: string)
    ensures After(out, Unescaped(body[|body|..])) == Some(out)
    ensures After("", Unescaped(body[0..])) == Unescaped(body)
  {
    assert body[|body|..] == "" && out + "" == out && body[0..] == body;
    if Unescaped(body).Some? {
      assert "" + Unescaped(body).value == Unescaped(body).value;
    }
  }

  method Unescape(body: string) returns (r: Option<string>)
    ensures r == Unescaped(body)
  {
    hide ReadChar, Unescaped, After;
    var out := "";
    var i := 0;
    UnescapeEnds(body, out);
    while i < |body|
      invariant i <= |body| && Unescaped(body) == After(out, Unescaped(body[i..]))
    {
      UnescapeOn(body, i, out);
      match ReadChar(body[i..])
      case None => return None;
      case Some((c, k)) =>
        out := out + [c];
        i := i + k;
    }
    UnescapeEnds(body, out);
    r := Some(out);
  }

  method Unterminated(s: string) returns (r: bool)
    requires s != ""
    ensures r == UnterminatedFrom(s, s[0], 1)
  {
    var q, i := s[0], 1;
    while i < |s|
      invariant UnterminatedFrom(s, q, i) == UnterminatedFrom(s, q, 1)
    {
      if q == '"' && s[i] == '\\' {
        i := i + 2;
      } else if s[i] == q {
        if q == '\'' && i + 1 < |s| && s[i + 1] == '\'' {
          i := i + 2;
        } else {
          return i != |s| - 1;
        }
      } else {
        i := i + 1;
      }
    }
    r := true;
  }

  // --- the lines and the cursor ------------------------------------------------------------------------------

  class Lines {
    var raw: seq<string>
    var i: nat

    constructor (text: string)
      ensures raw == R.LinesOf(text) && i == 0
    {
      raw := R.LinesOf(text);
      i := 0;
    }

    function State(): R.Cursor
      reads this
    {
      R.Cursor(raw, i)
    }

    /** The method returned what the specification says, and left the object in the state it says. */
    ghost predicate Agrees(r: Result<Value, R.Error>, spec: R.Parsed)
      reads this
    {
      match spec
      case Done(v, cur) => r == Ok(v) && State() == cur
      case Failed(e) => r == Err(e)
    }

    /** `next_significant`: finds without consuming. */
    method NextSignificant() returns (r: Option<R.Significant>)
      ensures r == R.Next(State())
    {
      hide T.StripComment, T.Strip, T.Indent, T.StartsWith, R.SeenContent;
      var j := i;
      while j < |raw|
        invariant R.NextFrom(raw, j) == R.NextFrom(raw, i)
        decreases |raw| - j
      {
        var line := StripComment(raw[j]);
        var text := T.Strip(line);
        if text == "..." || (T.StartsWith(line, "---") && R.SeenContent(raw[..j])) {
          return None;
        }
        if text != "" && !T.StartsWith(line, "---") {
          return Some(R.Significant(j, T.Indent(line), text));
        }
        j := j + 1;
      }
      r := None;
    }

    method Block(indent: int) returns (r: Result<Value, R.Error>)
      requires i <= |raw|
      modifies this
      ensures Agrees(r, R.Block(old(State()), indent))
      ensures r.Ok? ==> i <= |raw| && R.Size(State()) <= R.Size(old(State()))
      decreases R.Size(State()), 1
    {
      hide R.Next, R.Leaf, R.Size, R.Sequence, R.Mapping;
      var next := NextSignificant();
      if next.None? {
        return Ok(Null);
      }
      var j, ind, content := next.value.at, next.value.indent, next.value.content;
      if T.IsDash(content) {
        r := Sequence(ind);
      } else if R.IsFlowStart(content[0]) {
        ghost var after := R.Consumed(State());
        i := j + 1;
        r := R.Leaf(State(), content, (ind as int) - 1, j + 1);
      } else {
        r := Mapping(ind);
      }
    }

    method ValueAfter(rest: string, indent: int, line: nat, seqSameIndent: bool) returns (r: Result<Value, R.Error>)
      requires i <= |raw|
      modifies this
      ensures Agrees(r, R.ValueAfter(old(State()), rest, indent, line, seqSameIndent))
      ensures r.Ok? ==> i <= |raw| && R.Size(State()) <= R.Size(old(State()))
      decreases R.Size(State()), 2
    {
      hide R.Next, R.Size, R.Block, R.ScalarAt;
      if R.IsBlockHeader(rest) {
        return Err(R.NotModelled(line));
      }
      if rest != "" {
        r := R.ScalarAt(rest, line);
        return;
      }
      var next := NextSignificant();
      if next.None? {
        return Ok(Null);
      }
      var ind, content := next.value.indent, next.value.content;
      if ind > indent || (seqSameIndent && ind == indent && T.IsDash(content)) {
        r := Block(ind);
      } else {
        r := Ok(Null);
      }
    }

    method Mapping(indent: int) returns (r: Result<Value, R.Error>)
      requires i <= |raw|
      modifies this
      ensures Agrees(r, R.Mapping(old(State()), indent, []))
      ensures r.Ok? ==> i <= |raw| && R.Size(State()) <= R.Size(old(State()))
      decreases R.Size(State()), 0
    {
      hide R.Next, R.Size, R.Leaf, R.ScalarAt, R.ValueAfter, T.CheckOk, T.SplitKey, R.HasKey, T.IsDash;
      var out: seq<Pair> := [];
      var next := NextSignificant();
      while next.Some?
        invariant i <= |raw| && next == R.Next(State())
        invariant R.Size(State()) <= R.Size(old(State()))
        invariant R.Mapping(State(), indent, out) == R.Mapping(old(State()), indent, [])
        decreases R.Size(State())
      {
        var j, ind, content := next.value.at, next.value.indent, next.value.content;
        ghost var here := State();
        if ind < indent || (ind == indent && T.IsDash(content)) {
          break;
        }
        if ind > indent {
          return Err(R.Rejected(j + 1, R.Indented));
        }
        if !T.CheckOk(content) {
          return Err(R.Rejected(j + 1, R.Tagged));
        }
        var entry := T.SplitKey(content);
        if entry.None? {
          return Err(R.Rejected(j + 1, R.NoKey));
        }
        var key, rest := entry.value.key, entry.value.rest;
        var k := R.ScalarAt(key, j + 1);
        if k.Err? {
          return Err(k.error);
        }
        if R.HasKey(out, k.value) {
          return Err(R.Rejected(j + 1, R.Duplicate));
        }
        assert R.Consumed(here) == R.Cursor(raw, j + 1);
        i := j + 1;
        if rest != "" && !R.IsBlockIndicator(rest[0]) {
          var leaf := R.Leaf(State(), rest, indent, j + 1);
          if leaf.Err? {
            return Err(leaf.error);
          }
        }
        assert R.EntryHead(here, indent, out) == R.Head(k.value, rest, State());
        var value := ValueAfter(rest, indent, j + 1, true);
        if value.Err? {
          return value;
        }
        out := out + [Pair(k.value, value.value)];
        next := NextSignificant();
      }
      r := Ok(Dict(out));
    }

    method Sequence(indent: int) returns (r: Result<Value, R.Error>)
      requires i <= |raw|
      modifies this
      ensures Agrees(r, R.Sequence(old(State()), indent, []))
      ensures r.Ok? ==> i <= |raw| && R.Size(State()) <= R.Size(old(State()))
      decreases R.Size(State()), 0
    {
      hide R.Next, R.Size, R.ItemHead, R.ItemValue, T.IsDash;
      var out: seq<Value> := [];
      var next := NextSignificant();
      while next.Some?
        invariant i <= |raw| && next == R.Next(State())
        invariant R.Size(State()) <= R.Size(old(State()))
        invariant R.Sequence(State(), indent, out) == R.Sequence(old(State()), indent, [])
        decreases R.Size(State())
      {
        var j, ind, content := next.value.at, next.value.indent, next.value.content;
        if ind != indent || !T.IsDash(content) {
          if ind > indent {
            return Err(R.Rejected(j + 1, R.Indented));
          }
          break;
        }
        var item := Item(indent, next.value);
        if item.Err? {
          return item;
        }
        out := out + [item.value];
        next := NextSignificant();
      }
      r := Ok(List(out));
    }

    /** One pass through the loop of `_seq`: an item that holds a block has its line blanked up to the block. */
    method Item(indent: int, next: R.Significant) returns (r: Result<Value, R.Error>)
      requires i <= |raw|
      requires R.Next(State()) == Some(next) && T.IsDash(next.content) && indent == next.indent
      modifies this
      ensures Agrees(r, R.ItemValue(R.ItemHead(old(State())), indent, next.at + 1, R.Size(old(State()))))
      ensures r.Ok? ==> i <= |raw| && R.Size(State()) < R.Size(old(State()))
      decreases R.Size(State()), 0, 0
    {
      hide R.Next, R.Size, R.Leaf, R.ValueAfter, R.Sequence, R.Mapping, T.CheckOk, T.SplitKey, T.IsDash, T.Strip,
           T.Find, T.Indent;
      var j, content := next.at, next.content;
      ghost var here := State();
      if !T.CheckOk(content) {
        return Err(R.Rejected(j + 1, R.Tagged));
      }
      var item := T.Strip(content[1..]);
      if item == "" {
        assert R.Consumed(here) == R.Cursor(raw, j + 1);
        i := j + 1;
        r := ValueAfter("", indent, j + 1, false);
        return;
      }
      var nested := T.IsDash(item);
      if nested || (T.SplitKey(item).Some? && !R.IsFlowStart(item[0])) {
        var col := T.Find(raw[j], item[0], T.Indent(raw[j]) + 1);
        if col < 0 {
          return Err(R.Rejected(j + 1, R.NoColumn));
        }
        ghost var inner := R.Reopened(here, col);
        raw := raw[j := T.Spaces(col) + raw[j][col..]];
        i := j;
        assert State() == inner;
        if nested {
          r := Sequence(col);
        } else {
          r := Mapping(col);
        }
        return;
      }
      assert R.Consumed(here) == R.Cursor(raw, j + 1);
      i := j + 1;
      if R.IsBlockIndicator(item[0]) {
        r := ValueAfter(item, indent, j + 1, false);
      } else {
        r := R.Leaf(State(), item, indent, j + 1);
      }
    }
  }

  method Loads(text: string) returns (r: Result<Value, R.Error>)
    ensures r == R.Loads(text)
  {
    hide R.Next, R.Size, R.Block, R.LinesOf, R.HasContent, T.StartsWith;
    var lines := new Lines(text);
    var value := lines.Block(0);
    if value.Err? {
      return value;
    }
    var rest := lines.NextSignificant();
    if rest.Some? {
      return Err(R.Rejected(rest.value.at + 1, R.Trailing));
    }
    var j := lines.i;
    while j < |lines.raw|
      invariant R.SecondDocument(lines.raw, j) == R.SecondDocument(lines.raw, lines.i)
      decreases |lines.raw| - j
    {
      if T.StartsWith(lines.raw[j], "---") && R.HasContent(lines.raw[j + 1..]) {
        return Err(R.Rejected(j + 1, R.Documents));
      }
      j := j + 1;
    }
    r := value;
  }
}
