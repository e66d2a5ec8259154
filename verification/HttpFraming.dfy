/**
 Splitting a byte stream into HTTP/1.1 messages (`parse_http` in `insights/traffic.py`). Bytes are characters, as the
 code decodes them.
 */
module HttpFraming {
  import opened Wrappers

  /** Trimming, lower case and numbers in base 10 and 16, as Python reads them. */
  datatype Lexis = Lexis(strip: string -> string, lower: string -> string, int10: string -> Option<int>,
                         int16: string -> Option<int>)

  datatype Header = Header(name: string, value: string)

  datatype Message = Message(start: string, headers: seq<Header>, body: string)

  /** A length that is no number raises. A loop that has not ended within the turns it was given is still running: these
      are its messages so far, and where it begins the next one. */
  datatype Outcome = Parsed(messages: seq<Message>) | NotANumber | StillRunning(messages: seq<Message>, off: int)

  const CRLF := "\r\n"
  const BLANK := "\r\n\r\n"

  predicate IsAt(s: string, pat: string, i: nat) {
    i + |pat| <= |s| && s[i..i + |pat|] == pat
  }

  /** `s.find(pat, i)` */
  function Find(s: string, pat: string, i: nat): (r: Option<nat>)
    ensures r.Some? ==> i <= r.value && IsAt(s, pat, r.value)
    ensures forall k :: i <= k && (r.None? || k < r.value) ==> !IsAt(s, pat, k)
    decreases |s| - i
  {
    if i + |pat| > |s| then None else if IsAt(s, pat, i) then Some(i) else Find(s, pat, i + 1)
  }

  /** An index below zero counts from the end. */
  function FromStart(s: string, i: int): nat {
    if i >= 0 then i else if |s| + i >= 0 then |s| + i else 0
  }

  /** `s.find(pat, i)` for `i` of either sign. */
  function FindFrom(s: string, pat: string, i: int): Option<nat> {
    Find(s, pat, FromStart(s, i))
  }

  /** `s[a:b]`, cut off at the end. */
  function Slice(s: string, a: int, b: int): string {
    var lo, hi := FromStart(s, a), FromStart(s, b);
    if lo >= |s| || hi <= lo then "" else if hi >= |s| then s[lo..] else s[lo..hi]
  }

  /** The text before the first such character, and after it. */
  function Before(s: string, ch: char): (r: string)
    ensures r <= s && ch !in r && (|r| < |s| ==> s[|r|] == ch)
  {
    if s == "" || s[0] == ch then "" else [s[0]] + Before(s[1..], ch)
  }

  function After(s: string, ch: char): string {
    var k := |Before(s, ch)|;
    if k < |s| then s[k + 1..] else ""
  }

  /** `s.split("\r\n")` */
  function SplitLines(s: string): (r: seq<string>)
    ensures r != []
    decreases |s|
  {
    var k := Find(s, CRLF, 0);
    if k.None? then [s] else [s[..k.value]] + SplitLines(s[k.value + 2..])
  }

  /** Setting a key of a dictionary: its first place stays, its last value counts. */
  function Put(hs: seq<Header>, h: Header): seq<Header> {
    if hs == [] then [h] else if hs[0].name == h.name then [h] + hs[1..] else [hs[0]] + Put(hs[1..], h)
  }

  /** The headers of the lines after the first. */
  function HeadersOf(x: Lexis, lines: seq<string>): seq<Header> {
    if lines == [] then []
    else
      var line := lines[|lines| - 1];
      Put(HeadersOf(x, lines[..|lines| - 1]), Header(x.strip(Before(line, ':')), x.strip(After(line, ':'))))
  }

  /** The values by lower-case name; of two spellings the later one counts. */
  function ByLowerName(x: Lexis, hs: seq<Header>): map<string, string> {
    if hs == [] then map[]
    else ByLowerName(x, hs[..|hs| - 1])[x.lower(hs[|hs| - 1].name) := hs[|hs| - 1].value]
  }

  predicate Contains(s: string, word: string) {
    exists i :: 0 <= i <= |s| && IsAt(s, word, i)
  }

  predicate IsChunked(x: Lexis, values: map<string, string>) {
    "transfer-encoding" in values && Contains(x.lower(values["transfer-encoding"]), "chunked")
  }

  // --- bodies ----------------------------------------------------------------------------------------------------

  datatype Body = Body(text: string, next: int) | BadNumber | Unfinished

  /** The body with more text before it. */
  function Prefixed(text: string, b: Body): Body {
    if b.Body? then Body(text + b.text, b.next) else b
  }

  lemma PrefixedTwice(s: string, t: string, b: Body)
    ensures Prefixed(s, Prefixed(t, b)) == Prefixed(s + t, b) && Prefixed("", b) == b
  {
    if b.Body? {
      assert s + (t + b.text) == s + t + b.text && "" + b.text == b.text;
    }
  }

  function WithEarlier(msgs: seq<Message>, r: Outcome): Outcome {
    match r
    case Parsed(more) => Parsed(msgs + more)
    case NotANumber => NotANumber
    case StillRunning(more, off) => StillRunning(msgs + more, off)
  }

  lemma WithEarlierTwice(a: seq<Message>, b: seq<Message>, r: Outcome)
    ensures WithEarlier(a, WithEarlier(b, r)) == WithEarlier(a + b, r) && WithEarlier([], r) == r
  {
    if !r.NotANumber? {
      assert a + (b + r.messages) == a + b + r.messages && [] + r.messages == r.messages;
    }
  }

  /** The text of a chunk's size, on the line from `off` to `nl`. */
  function SizeText(data: string, off: int, nl: nat): string {
    var text := Before(Slice(data, off, nl), ';');
    if text == "" then "0" else text
  }

  /** One turn of the loop over chunks: the last one, one that adds a text, or one whose size is no number. */
  datatype ChunkTurn = LastTurn(next: int) | Adds(text: string, next: int) | BadSize

  function TurnOfChunk(x: Lexis, data: string, off: int): ChunkTurn {
    var nl := FindFrom(data, CRLF, off);
    if nl.None? then LastTurn(off)
    else
      var size := x.int16(SizeText(data, off, nl.value));
      var start := nl.value + 2;
      if size.None? then BadSize
      else if size.value == 0 then
        var last := FindFrom(data, CRLF, start);
        LastTurn(if last.Some? then last.value + 2 else |data|)
      else Adds(Slice(data, start, start + size.value), start + size.value + 2)
  }

  /** A chunked body from `off` on, read in at most `limit` turns. */
  function ChunkedFrom(x: Lexis, data: string, off: int, limit: nat): Body
    decreases limit
  {
    if limit == 0 then Unfinished
    else
      match TurnOfChunk(x, data, off)
      case LastTurn(next) => Body("", next)
      case BadSize => BadNumber
      case Adds(text, next) => Prefixed(text, ChunkedFrom(x, data, next, limit - 1))
  }

  /** The body of a message whose head ended at `off`. */
  function BodyAt(x: Lexis, data: string, off: nat, values: map<string, string>, isHead: bool, limit: nat): Body {
    if IsChunked(x, values) then ChunkedFrom(x, data, off, limit)
    else if !isHead && "content-length" in values then
      var n := x.int10(values["content-length"]);
      if n.None? then BadNumber else Body(Slice(data, off, off + n.value), off + n.value)
    else Body("", off)
  }

  predicate FlaggedHead(flags: seq<bool>, idx: nat) {
    idx < |flags| && flags[idx]
  }

  // --- messages --------------------------------------------------------------------------------------------------

  /** One turn of the loop over messages. */
  datatype Turn = End | Reads(message: Message, next: int) | NoNumber | InChunks

  function HeadAt(data: string, off: int, end: nat): (r: seq<string>)
    ensures r != []
  {
    SplitLines(Slice(data, off, end))
  }

  function TurnOfMessage(x: Lexis, data: string, off: int, flags: seq<bool>, idx: nat, limit: nat): Turn {
    var end := FindFrom(data, BLANK, off);
    if end.None? then End
    else
      var head := HeadAt(data, off, end.value);
      var headers := HeadersOf(x, head[1..]);
      match BodyAt(x, data, end.value + 4, ByLowerName(x, headers), FlaggedHead(flags, idx), limit)
      case BadNumber => NoNumber
      case Unfinished => InChunks
      case Body(text, next) => Reads(Message(head[0], headers, text), next)
  }

  /** The messages from `off` on, read in at most `turns` turns, with at most `limit` for each chunked body; `idx`
      messages came before. */
  function ParseFrom(x: Lexis, data: string, off: int, flags: seq<bool>, idx: nat, turns: nat, limit: nat): Outcome
    decreases turns
  {
    if off >= |data| then Parsed([])
    else if turns == 0 then StillRunning([], off)
    else
      match TurnOfMessage(x, data, off, flags, idx, limit)
      case End => Parsed([])
      case NoNumber => NotANumber
      case InChunks => StillRunning([], off)
      case Reads(m, next) => WithEarlier([m], ParseFrom(x, data, next, flags, idx + 1, turns - 1, limit))
  }

  // --- the loops ---------------------------------------------------------------------------------------------------

  method ReadChunks(x: Lexis, data: string, off0: int, limit: nat) returns (b: Body)
    ensures b == ChunkedFrom(x, data, off0, limit)
  {
    hide Before, Slice, FindFrom, Prefixed;
    var off, body := off0, "";
    PrefixedTwice("", "", ChunkedFrom(x, data, off, limit));
    for i := 0 to limit
      invariant ChunkedFrom(x, data, off0, limit) == Prefixed(body, ChunkedFrom(x, data, off, limit - i))
    {
      var nl := FindFrom(data, CRLF, off);
      if nl.None? {
        NothingMore(body, off);
        return Body(body, off);
      }
      var size := x.int16(SizeText(data, off, nl.value));
      BodyErrorStays(body);
      if size.None? {
        return BadNumber;
      }
      off := nl.value + 2;
      if size.value == 0 {
        var last := FindFrom(data, CRLF, off);
        off := if last.Some? then last.value + 2 else |data|;
        NothingMore(body, off);
        return Body(body, off);
      }
      var text := Slice(data, off, off + size.value);
      PrefixedTwice(body, text, ChunkedFrom(x, data, off + size.value + 2, limit - i - 1));
      body := body + text;
      off := off + size.value + 2;
    }
    BodyErrorStays(body);
    b := Unfinished;
  }

  lemma BodyErrorStays(body: string)
    ensures Prefixed(body, BadNumber) == BadNumber && Prefixed(body, Unfinished) == Unfinished
  {
  }

  lemma NothingMore(body: string, off: int)
    ensures Prefixed(body, Body("", off)) == Body(body, off)
  {
  }

  /** `parse_http`, as far as it gets in so many turns. */
  method ParseHttp(x: Lexis, data: string, flags: seq<bool>, turns: nat, limit: nat) returns (r: Outcome)
    ensures r == ParseFrom(x, data, 0, flags, 0, turns, limit)
  {
    hide FindFrom, HeadAt, HeadersOf, ByLowerName, IsChunked, ChunkedFrom, Slice, WithEarlier;
    var msgs: seq<Message>, off: int, idx, left := [], 0, 0, turns;
    WithEarlierTwice([], [], ParseFrom(x, data, 0, flags, 0, turns, limit));
    while off < |data| && left > 0
      invariant ParseFrom(x, data, 0, flags, 0, turns, limit) ==
                  WithEarlier(msgs, ParseFrom(x, data, off, flags, idx, left, limit))
      decreases left
    {
      NoMoreMessages(msgs, off);
      var end := FindFrom(data, BLANK, off);
      if end.None? {
        return Parsed(msgs);
      }
      var head := HeadAt(data, off, end.value);
      var headers := HeadersOf(x, head[1..]);
      var values := ByLowerName(x, headers);
      var body: Body;
      if IsChunked(x, values) {
        body := ReadChunks(x, data, end.value + 4, limit);
      } else {
        body := BodyAt(x, data, end.value + 4, values, FlaggedHead(flags, idx), limit);
      }
      assert body == BodyAt(x, data, end.value + 4, values, FlaggedHead(flags, idx), limit);
      match body {
        case BadNumber =>
          return NotANumber;
        case Unfinished =>
          return StillRunning(msgs, off);
        case Body(text, next) =>
          var m := Message(head[0], headers, text);
          WithEarlierTwice(msgs, [m], ParseFrom(x, data, next, flags, idx + 1, left - 1, limit));
          msgs := msgs + [m];
          off, idx, left := next, idx + 1, left - 1;
      }
    }
    NoMoreMessages(msgs, off);
    r := if off >= |data| then Parsed(msgs) else StillRunning(msgs, off);
  }

  lemma NoMoreMessages(msgs: seq<Message>, off: int)
    ensures WithEarlier(msgs, Parsed([])) == Parsed(msgs) && WithEarlier(msgs, NotANumber) == NotANumber
    ensures WithEarlier(msgs, StillRunning([], off)) == StillRunning(msgs, off)
  {
  }

  // --- where a turn ends -------------------------------------------------------------------------------------------

  /** A turn over a chunk ends beyond where it began exactly when its size line ends in a line break, and its size is
      not below zero or not by enough to take back the line. */
  lemma ChunkTurnMovesOn(x: Lexis, data: string, off: nat)
    requires off <= |data|
    ensures var t, nl := TurnOfChunk(x, data, off), FindFrom(data, CRLF, off);
            && (t.LastTurn? ==> t.next >= off && (t.next > off <==> nl.Some?))
            && (t.Adds? ==>
                 var size := x.int16(SizeText(data, off, nl.value)).value;
                 t.next > off <==> -size < nl.value - off + 4)
  {
    hide SizeText, Slice;
  }

  /** Where the loop over chunks begins its last turn. */
  function LastTurnFrom(x: Lexis, data: string, off: int, limit: nat): (r: int)
    ensures ChunkedFrom(x, data, off, limit).Body? ==>
              TurnOfChunk(x, data, r) == LastTurn(ChunkedFrom(x, data, off, limit).next)
    decreases limit
  {
    if limit > 0 && TurnOfChunk(x, data, off).Adds?
    then LastTurnFrom(x, data, TurnOfChunk(x, data, off).next, limit - 1)
    else off
  }

  /** No line break ends between the one at `nl` and `off`. */
  predicate NoBreakBetween(data: string, nl: nat, off: nat) {
    var next := Find(data, CRLF, nl + 2);
    next.None? || next.value + 2 > off
  }

  /** What a turn over a message that begins at `off` and whose head ends at `end` needs to end beyond `off`: a length
      that does not take back the head; for chunks, a last turn that begins behind `off`, or reads a size of zero and
      finds no line break to stop at before `off`. */
  predicate GoesOn(x: Lexis, data: string, off: nat, end: nat, values: map<string, string>, isHead: bool, limit: nat) {
    if IsChunked(x, values) then
      var last := LastTurnFrom(x, data, end + 4, limit);
      var nl := FindFrom(data, CRLF, last);
      last > off || (nl.Some? && NoBreakBetween(data, nl.value, off))
    else if !isHead && "content-length" in values && x.int10(values["content-length"]).Some? then
      -x.int10(values["content-length"]).value < end - off + 4
    else true
  }

  /** Exactly when a turn over a message ends beyond where it began. */
  lemma MessageTurnMovesOn(x: Lexis, data: string, off: nat, flags: seq<bool>, idx: nat, limit: nat)
    requires off < |data| && TurnOfMessage(x, data, off, flags, idx, limit).Reads?
    ensures var end := FindFrom(data, BLANK, off);
            end.Some? &&
            var values := ByLowerName(x, HeadersOf(x, HeadAt(data, off, end.value)[1..]));
            TurnOfMessage(x, data, off, flags, idx, limit).next > off <==>
              GoesOn(x, data, off, end.value, values, FlaggedHead(flags, idx), limit)
  {
    hide ByLowerName, HeadersOf, HeadAt, IsChunked, SizeText, Slice, ChunkedFrom, LastTurnFrom, Find;
  }

  // --- the loops end -----------------------------------------------------------------------------------------------

  /** The size on the line at `off` takes back that line. */
  ghost predicate SizeTakesBackAt(x: Lexis, data: string, off: nat) {
    var nl := FindFrom(data, CRLF, off);
    nl.Some? &&
    var size := x.int16(SizeText(data, off, nl.value));
    size.Some? && -size.value >= nl.value - off + 4
  }

  /** The length announced in the head at `off` takes back that head. */
  ghost predicate LengthTakesBackAt(x: Lexis, data: string, off: nat) {
    var end := FindFrom(data, BLANK, off);
    end.Some? &&
    var values := ByLowerName(x, HeadersOf(x, HeadAt(data, off, end.value)[1..]));
    "content-length" in values &&
    var length := x.int10(values["content-length"]);
    length.Some? && -length.value >= end.value - off + 4
  }

  /** From `off` on, no line read as a size takes itself back. */
  ghost predicate SizesGoOn(x: Lexis, data: string, off: nat) {
    forall o: nat :: o >= off ==> !SizeTakesBackAt(x, data, o)
  }

  ghost predicate LengthsGoOn(x: Lexis, data: string) {
    forall o: nat :: !LengthTakesBackAt(x, data, o)
  }

  lemma {:induction false} ChunksEnd(x: Lexis, data: string, off: nat, limit: nat)
    requires SizesGoOn(x, data, off) && limit >= 1 && |data| - off < limit
    ensures var b := ChunkedFrom(x, data, off, limit); !b.Unfinished? && (b.Body? ==> b.next >= off)
    decreases limit
  {
    hide SizeText, Slice, Prefixed;
    assert !SizeTakesBackAt(x, data, off);
    match TurnOfChunk(x, data, off)
    case LastTurn(next) =>
    case BadSize =>
    case Adds(text, next) =>
      assert next > off;
      ChunksEnd(x, data, next, limit - 1);
      PrefixKeeps(text, ChunkedFrom(x, data, next, limit - 1));
  }

  lemma PrefixKeeps(text: string, b: Body)
    ensures Prefixed(text, b).Unfinished? == b.Unfinished? && Prefixed(text, b).Body? == b.Body?
    ensures b.Body? ==> Prefixed(text, b).next == b.next
  {
  }

  /** A chunked message goes on where no line behind its head, read as a size, takes itself back: its loop over chunks
      ends, and the turn ends behind the head. */
  lemma ChunkedMessageGoesOn(x: Lexis, data: string, off: nat, flags: seq<bool>, idx: nat, limit: nat)
    requires off < |data| && limit > |data|
    requires var end := FindFrom(data, BLANK, off);
             end.Some? && SizesGoOn(x, data, end.value + 4) &&
             IsChunked(x, ByLowerName(x, HeadersOf(x, HeadAt(data, off, end.value)[1..])))
    ensures var t := TurnOfMessage(x, data, off, flags, idx, limit);
            !t.InChunks? && (t.Reads? ==> t.next >= FindFrom(data, BLANK, off).value + 4 > off)
  {
    hide ByLowerName, HeadersOf, HeadAt, IsChunked, ChunkedFrom, Slice, SizesGoOn;
    ChunksEnd(x, data, FindFrom(data, BLANK, off).value + 4, limit);
  }

  /** Where no size takes back its line and no length its head, both loops advance at every turn, and within as many
      turns as there are bytes left the parser ends. */
  lemma {:induction false} ParsingEnds(x: Lexis, data: string, off: nat, flags: seq<bool>, idx: nat, turns: nat,
                                       limit: nat)
    requires SizesGoOn(x, data, 0) && LengthsGoOn(x, data) && |data| - off <= turns && limit > |data|
    ensures !ParseFrom(x, data, off, flags, idx, turns, limit).StillRunning?
    decreases turns
  {
    hide TurnOfMessage, WithEarlier, SizesGoOn, LengthsGoOn;
    if off < |data| {
      TurnGoesOn(x, data, off, flags, idx, limit);
      match TurnOfMessage(x, data, off, flags, idx, limit)
      case Reads(m, next) =>
        ParsingEnds(x, data, next, flags, idx + 1, turns - 1, limit);
        EarlierKeeps([m], ParseFrom(x, data, next, flags, idx + 1, turns - 1, limit));
      case _ =>
    }
  }

  lemma TurnGoesOn(x: Lexis, data: string, off: nat, flags: seq<bool>, idx: nat, limit: nat)
    requires SizesGoOn(x, data, 0) && LengthsGoOn(x, data) && off < |data| && limit > |data|
    ensures var t := TurnOfMessage(x, data, off, flags, idx, limit); !t.InChunks? && (t.Reads? ==> t.next > off)
  {
    hide ByLowerName, HeadersOf, HeadAt, IsChunked, ChunkedFrom, Slice, SizesGoOn, LengthsGoOn;
    var end := FindFrom(data, BLANK, off);
    assert !LengthTakesBackAt(x, data, off) by { NowhereBack(x, data, off); }
    if end.Some? {
      assert SizesGoOn(x, data, end.value + 4) by { NowhereBack(x, data, end.value + 4); }
      if IsChunked(x, ByLowerName(x, HeadersOf(x, HeadAt(data, off, end.value)[1..]))) {
        ChunkedMessageGoesOn(x, data, off, flags, idx, limit);
      }
    }
  }

  lemma NowhereBack(x: Lexis, data: string, off: nat)
    requires SizesGoOn(x, data, 0) && LengthsGoOn(x, data)
    ensures SizesGoOn(x, data, off) && !LengthTakesBackAt(x, data, off)
  {
  }

  lemma EarlierKeeps(msgs: seq<Message>, r: Outcome)
    ensures WithEarlier(msgs, r).StillRunning? == r.StillRunning?
  {
  }

  /** An outcome is final: given more turns, it stays. */
  lemma {:induction false} MoreTurnsSameOutcome(x: Lexis, data: string, off: int, flags: seq<bool>, idx: nat,
                                                turns: nat, limit: nat,
                                                turns': nat, limit': nat)
    requires turns <= turns' && limit <= limit' && !ParseFrom(x, data, off, flags, idx, turns, limit).StillRunning?
    ensures ParseFrom(x, data, off, flags, idx, turns', limit') == ParseFrom(x, data, off, flags, idx, turns, limit)
    decreases turns
  {
    hide ByLowerName, HeadersOf, HeadAt, IsChunked, ChunkedFrom, Slice, WithEarlier, FindFrom;
    if off < |data| {
      forall at: int ensures !ChunkedFrom(x, data, at, limit).Unfinished? ==>
                              ChunkedFrom(x, data, at, limit') == ChunkedFrom(x, data, at, limit) {
        MoreTurnsSameBody(x, data, at, limit, limit');
      }
      match TurnOfMessage(x, data, off, flags, idx, limit)
      case Reads(m, next) =>
        EarlierKeeps([m], ParseFrom(x, data, next, flags, idx + 1, turns - 1, limit));
        MoreTurnsSameOutcome(x, data, next, flags, idx + 1, turns - 1, limit, turns' - 1, limit');
      case _ =>
    }
  }

  lemma {:induction false} MoreTurnsSameBody(x: Lexis, data: string, off: int, limit: nat, limit': nat)
    requires limit <= limit'
    ensures !ChunkedFrom(x, data, off, limit).Unfinished? ==>
              ChunkedFrom(x, data, off, limit') == ChunkedFrom(x, data, off, limit)
    decreases limit
  {
    hide TurnOfChunk, Prefixed;
    if limit > 0 && TurnOfChunk(x, data, off).Adds? {
      var t := TurnOfChunk(x, data, off);
      MoreTurnsSameBody(x, data, t.next, limit - 1, limit' - 1);
      PrefixKeeps(t.text, ChunkedFrom(x, data, t.next, limit - 1));
    }
  }
}
