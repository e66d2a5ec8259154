/**
 Parsing undoes sending: any list of messages, with lengths, chunks cut anywhere, no bodies or bodies left out, one
 after the other on the wire (sections 6.3 and 7.1 of RFC 9112). Bodies left out that the head announces all the same
 are where it can fail, and it is said exactly when.
 */
module HttpRoundTrip {
  import opened Wrappers
  import opened HttpFraming

  datatype Chunk = Chunk(data: string, ext: string)

  /** `HeadOnly`: an answer whose body is not sent, whatever its head announces: to a HEAD request, or of a status such
      as 304. */
  datatype Framing = NoBody | Length(body: string) | Chunked(chunks: seq<Chunk>) | HeadOnly

  datatype Sent = Sent(start: string, headers: seq<Header>, framing: Framing)

  type Hex = nat -> string

  function LineOf(h: Header): string {
    h.name + ": " + h.value
  }

  function LinesOf(hs: seq<Header>): (r: seq<string>)
    ensures |r| == |hs| && forall i :: 0 <= i < |r| ==> r[i] == LineOf(hs[i])
  {
    seq(|hs|, i requires 0 <= i < |hs| => LineOf(hs[i]))
  }

  function JoinLines(lines: seq<string>): string
    requires lines != []
  {
    if |lines| == 1 then lines[0] else lines[0] + CRLF + JoinLines(lines[1..])
  }

  function ChunkWire(hex: Hex, c: Chunk): string {
    hex(|c.data|) + c.ext + CRLF + c.data + CRLF
  }

  function ChunksWire(hex: Hex, chunks: seq<Chunk>): string {
    if chunks == [] then hex(0) + CRLF + CRLF else ChunkWire(hex, chunks[0]) + ChunksWire(hex, chunks[1..])
  }

  function BodyWire(hex: Hex, f: Framing): string {
    match f
    case Length(body) => body
    case Chunked(chunks) => ChunksWire(hex, chunks)
    case _ => ""
  }

  function BodyOf(f: Framing): string {
    match f
    case Length(body) => body
    case Chunked(chunks) => Unchunked(chunks)
    case _ => ""
  }

  function Unchunked(chunks: seq<Chunk>): string {
    if chunks == [] then "" else chunks[0].data + Unchunked(chunks[1..])
  }

  function HeadWire(m: Sent): string {
    JoinLines([m.start] + LinesOf(m.headers))
  }

  function Wire(hex: Hex, m: Sent): string {
    HeadWire(m) + BLANK + BodyWire(hex, m.framing)
  }

  function WireAll(hex: Hex, ms: seq<Sent>): string {
    if ms == [] then "" else Wire(hex, ms[0]) + WireAll(hex, ms[1..])
  }

  function Received(m: Sent): Message {
    Message(m.start, m.headers, BodyOf(m.framing))
  }

  function ReceivedAll(ms: seq<Sent>): seq<Message> {
    if ms == [] then [] else [Received(ms[0])] + ReceivedAll(ms[1..])
  }

  // --- well-formed messages ------------------------------------------------------------------------------------------

  ghost predicate HexReads(x: Lexis, hex: Hex) {
    forall n: nat :: x.int16(hex(n)) == Some(n) && hex(n) != "" && '\r' !in hex(n) && ';' !in hex(n)
  }

  ghost predicate GoodHeader(x: Lexis, h: Header) {
    && '\r' !in h.name && '\r' !in h.value && ':' !in h.name
    && x.strip(h.name) == h.name && x.strip(" " + h.value) == h.value
  }

  /** Names differ, upper and lower case being the same. */
  ghost predicate GoodHeaders(x: Lexis, hs: seq<Header>) {
    && (forall i :: 0 <= i < |hs| ==> GoodHeader(x, hs[i]))
    && forall i, j :: 0 <= i < j < |hs| ==> x.lower(hs[i].name) != x.lower(hs[j].name)
  }

  ghost predicate Says(x: Lexis, hs: seq<Header>, name: string, value: string) {
    exists i :: 0 <= i < |hs| && x.lower(hs[i].name) == name && hs[i].value == value
  }

  ghost predicate SaysChunked(x: Lexis, hs: seq<Header>) {
    exists v :: Says(x, hs, "transfer-encoding", v) && Contains(x.lower(v), "chunked")
  }

  ghost predicate GoodChunk(c: Chunk) {
    c.data != "" && '\r' !in c.ext && (c.ext == "" || c.ext[0] == ';')
  }

  /** The headers announce the body the way it is sent. */
  ghost predicate Announces(x: Lexis, m: Sent) {
    match m.framing
    case NoBody => !SaysChunked(x, m.headers) && forall v :: !Says(x, m.headers, "content-length", v)
    case Length(body) =>
      !SaysChunked(x, m.headers) && exists v :: Says(x, m.headers, "content-length", v) && x.int10(v) == Some(|body|)
    case Chunked(chunks) => SaysChunked(x, m.headers) && forall i :: 0 <= i < |chunks| ==> GoodChunk(chunks[i])
    case HeadOnly => true
  }

  ghost predicate Good(x: Lexis, m: Sent) {
    '\r' !in m.start && GoodHeaders(x, m.headers) && Announces(x, m)
  }

  ghost predicate AnnouncesNumber(x: Lexis, m: Sent) {
    forall v :: Says(x, m.headers, "content-length", v) ==> x.int10(v).Some? && x.int10(v).value >= 0
  }

  /** The reader is not told of a HEAD request where a body of some length is sent; where it is not told and no body is
      sent, the announced length at least is one. */
  ghost predicate FlagFits(x: Lexis, m: Sent, flagged: bool) {
    && (m.framing.Length? ==> !flagged)
    && (m.framing.HeadOnly? && !flagged ==> SaysChunked(x, m.headers) || AnnouncesNumber(x, m))
  }

  ghost predicate FlagsFit(x: Lexis, ms: seq<Sent>, flags: seq<bool>, idx: nat) {
    forall i :: 0 <= i < |ms| ==> FlagFits(x, ms[i], FlaggedHead(flags, idx + i))
  }

  /** The head makes the reader look for a body that is not there: chunks always, for it asks whether there was a HEAD
      request only where it looks for a length; and a length if it knows of no HEAD request. */
  ghost predicate Misleads(x: Lexis, m: Sent, flagged: bool) {
    && m.framing.HeadOnly?
    && (|| SaysChunked(x, m.headers)
        || (!flagged && exists v :: Says(x, m.headers, "content-length", v) && x.int10(v) != Some(0)))
  }

  ghost predicate OnlyLastMisleads(x: Lexis, ms: seq<Sent>, flags: seq<bool>, idx: nat) {
    forall i :: 0 <= i < |ms| - 1 ==> !Misleads(x, ms[i], FlaggedHead(flags, idx + i))
  }

  /** The line is no chunk size. */
  predicate IsNoSize(x: Lexis, line: string) {
    var text := Before(line, ';');
    x.int16(if text == "" then "0" else text).None?
  }

  // --- finding the ends --------------------------------------------------------------------------------------------

  lemma FindFirst(s: string, pat: string, i: nat, k: nat)
    requires i <= k && IsAt(s, pat, k) && forall j :: i <= j < k ==> !IsAt(s, pat, j)
    ensures Find(s, pat, i) == Some(k)
  {
    hide Find, IsAt;
    var r := Find(s, pat, i);
    assert r.None? ==> !IsAt(s, pat, k);
  }

  lemma NotAt(s: string, pat: string, i: nat, d: nat)
    requires i + d < |s| && d < |pat| && s[i + d] != pat[d]
    ensures !IsAt(s, pat, i)
  {
    assert i + |pat| <= |s| ==> s[i..i + |pat|][d] == s[i + d];
  }

  /** A line without carriage return ends at the next line break. */
  lemma FindLineEnd(data: string, off: nat, line: string, rest: string)
    requires off <= |data| && data[off..] == line + CRLF + rest && '\r' !in line
    ensures Find(data, CRLF, off) == Some(off + |line|)
  {
    var t := line + CRLF + rest;
    assert forall j :: 0 <= j < |t| ==> data[off + j] == t[j];
    var k := off + |line|;
    assert data[k..k + 2] == CRLF;
    forall j | off <= j < k ensures !IsAt(data, CRLF, j) {
      assert data[j] == line[j - off];
      assert line[j - off] in line;
    }
    FindFirst(data, CRLF, off, k);
  }

  /** In a head, what follows a line break is the start of a line. */
  ghost predicate NoBlankIn(s: string) {
    forall k :: 0 <= k < |s| && s[k] == '\r' ==> k + 2 < |s| && s[k + 2] != '\r'
  }

  ghost predicate FilledLines(lines: seq<string>) {
    lines != [] && (forall i :: 0 <= i < |lines| ==> '\r' !in lines[i]) && forall i :: 1 <= i < |lines| ==>
        lines[i] != ""
  }

  lemma {:induction false} HeadsHaveNoBlank(lines: seq<string>)
    requires FilledLines(lines)
    ensures NoBlankIn(JoinLines(lines)) && (lines[0] != "" ==> JoinLines(lines) != "" && JoinLines(lines)[0] != '\r')
    decreases |lines|
  {
    if |lines| == 1 {
      assert forall k :: 0 <= k < |lines[0]| ==> lines[0][k] in lines[0];
    } else {
      HeadsHaveNoBlank(lines[1..]);
      var first, rest := lines[0], JoinLines(lines[1..]);
      var all := first + CRLF + rest;
      assert forall k :: 0 <= k < |first| ==> first[k] in first;
      assert forall k :: 0 <= k < |first| ==> all[k] == first[k];
      forall k | |first| <= k < |all| && all[k] == '\r' ensures k + 2 < |all| && all[k + 2] != '\r' {
        if k >= |first| + 2 {
          assert all[k] == rest[k - |first| - 2];
        } else {
          assert all[|first| + 2] == rest[0];
        }
      }
    }
  }

  lemma FindHeadEnd(data: string, off: nat, head: string, rest: string)
    requires off <= |data| && data[off..] == head + BLANK + rest && NoBlankIn(head)
    ensures Find(data, BLANK, off) == Some(off + |head|)
  {
    var t := head + BLANK + rest;
    assert forall j :: 0 <= j < |t| ==> data[off + j] == t[j];
    var k := off + |head|;
    assert data[k..k + 4] == BLANK;
    forall j | off <= j < k ensures !IsAt(data, BLANK, j) {
      assert data[j] == head[j - off];
      if head[j - off] == '\r' {
        assert data[j + 2] == head[j - off + 2];
        NotAt(data, BLANK, j, 2);
      } else {
        NotAt(data, BLANK, j, 0);
      }
    }
    FindFirst(data, BLANK, off, k);
  }

  // --- the head ----------------------------------------------------------------------------------------------------

  lemma {:induction false} SplitUndoesJoin(lines: seq<string>)
    requires FilledLines(lines)
    ensures SplitLines(JoinLines(lines)) == lines
    decreases |lines|
  {
    hide Find, IsAt;
    if |lines| == 1 {
      var s := lines[0];
      forall k: nat ensures !IsAt(s, CRLF, k) {
        if k < |s| {
          assert s[k] in s;
          NotAt(s, CRLF, k, 0);
        } else {
          PastTheEnd(s, CRLF, k);
        }
      }
    } else {
      var first, rest := lines[0], JoinLines(lines[1..]);
      var all := first + CRLF + rest;
      assert all[0..] == first + CRLF + rest;
      FindLineEnd(all, 0, first, rest);
      assert all[|first| + 2..] == rest && all[..|first|] == first;
      SplitUndoesJoin(lines[1..]);
    }
  }

  lemma PastTheEnd(s: string, pat: string, i: nat)
    requires i >= |s| && pat != ""
    ensures !IsAt(s, pat, i)
  {
  }

  lemma {:induction false} BeforeFirst(a: string, ch: char, b: string)
    requires ch !in a
    ensures Before(a + [ch] + b, ch) == a && After(a + [ch] + b, ch) == b
  {
    if a != "" {
      BeforeFirst(a[1..], ch, b);
      assert (a + [ch] + b)[1..] == a[1..] + [ch] + b;
      assert forall k :: 0 <= k < |a| ==> a[k] in a;
      assert (a + [ch] + b)[|a| + 1..] == b;
    }
  }

  lemma {:induction false} PutNew(hs: seq<Header>, h: Header)
    requires forall i :: 0 <= i < |hs| ==> hs[i].name != h.name
    ensures Put(hs, h) == hs + [h]
  {
    if hs != [] {
      PutNew(hs[1..], h);
      assert hs == [hs[0]] + hs[1..];
    }
  }

  lemma {:induction false} HeadersComeBack(x: Lexis, hs: seq<Header>)
    requires GoodHeaders(x, hs)
    ensures HeadersOf(x, LinesOf(hs)) == hs
    decreases |hs|
  {
    hide Before, After, Put;
    if hs != [] {
      var n := |hs| - 1;
      HeadersComeBack(x, hs[..n]);
      assert LinesOf(hs)[..n] == LinesOf(hs[..n]);
      HeaderComesBack(x, hs[n]);
      PutNew(hs[..n], hs[n]);
      assert hs == hs[..n] + [hs[n]];
    }
  }

  lemma HeaderComesBack(x: Lexis, h: Header)
    requires GoodHeader(x, h)
    ensures Header(x.strip(Before(LineOf(h), ':')), x.strip(After(LineOf(h), ':'))) == h
  {
    hide Before, After;
    BeforeFirst(h.name, ':', " " + h.value);
    assert LineOf(h) == h.name + [':'] + (" " + h.value);
  }

  lemma SaidOnce(x: Lexis, hs: seq<Header>, h: Header, name: string)
    ensures forall v :: Says(x, hs + [h], name, v) <==>
        Says(x, hs, name, v) || (x.lower(h.name) == name && h.value == v)
  {
    var all := hs + [h];
    forall v ensures Says(x, all, name, v) <==> Says(x, hs, name, v) || (x.lower(h.name) == name && h.value == v) {
      if Says(x, hs, name, v) {
        var i :| 0 <= i < |hs| && x.lower(hs[i].name) == name && hs[i].value == v;
        assert all[i] == hs[i];
      }
      if x.lower(h.name) == name && h.value == v {
        assert all[|hs|] == h;
      }
    }
  }

  /** Looking up a lower-case name finds what a header says, and nothing else. */
  lemma {:induction false} LookupIsSaid(x: Lexis, hs: seq<Header>, name: string)
    requires GoodHeaders(x, hs)
    ensures var values := ByLowerName(x, hs);
            && (forall v :: Says(x, hs, name, v) <==> name in values && values[name] == v)
            && (name in values ==> Says(x, hs, name, values[name]))
    decreases |hs|
  {
    hide Says, GoodHeader;
    if hs == [] {
      NothingSaid(x, name);
    } else {
      var n := |hs| - 1;
      LookupIsSaid(x, hs[..n], name);
      SaidOnce(x, hs[..n], hs[n], name);
      assert hs == hs[..n] + [hs[n]];
      if x.lower(hs[n].name) == name {
        LaterSayNothing(x, hs[..n], hs[n], name);
      }
    }
  }

  lemma NothingSaid(x: Lexis, name: string)
    ensures forall v :: !Says(x, [], name, v)
  {
  }

  lemma LaterSayNothing(x: Lexis, hs: seq<Header>, h: Header, name: string)
    requires GoodHeaders(x, hs + [h]) && x.lower(h.name) == name
    ensures forall v :: !Says(x, hs, name, v)
  {
    hide GoodHeader;
    var all := hs + [h];
    forall i | 0 <= i < |hs| ensures x.lower(hs[i].name) != name {
      assert x.lower(all[i].name) != x.lower(all[|hs|].name);
    }
  }

  lemma ChunkedIsSaid(x: Lexis, hs: seq<Header>)
    requires GoodHeaders(x, hs)
    ensures IsChunked(x, ByLowerName(x, hs)) <==> SaysChunked(x, hs)
  {
    hide ByLowerName, Says, Contains, GoodHeaders;
    LookupIsSaid(x, hs, "transfer-encoding");
  }

  // --- the body ----------------------------------------------------------------------------------------------------

  lemma SizeLineReads(x: Lexis, hex: Hex, n: nat, ext: string)
    requires HexReads(x, hex) && (ext == "" || ext[0] == ';')
    ensures Before(hex(n) + ext, ';') == hex(n)
  {
    if ext == "" {
      assert hex(n) + ext == hex(n);
      NoSuch(hex(n), ';');
    } else {
      assert hex(n) + ext == hex(n) + [';'] + ext[1..];
      BeforeFirst(hex(n), ';', ext[1..]);
    }
  }

  lemma {:induction false} NoSuch(s: string, ch: char)
    requires ch !in s
    ensures Before(s, ch) == s
  {
    if s != "" {
      assert s[0] in s;
      NoSuch(s[1..], ch);
      assert s == [s[0]] + s[1..];
    }
  }

  /** Chunks are read back wherever the text was cut. */
  lemma {:induction false} ChunksComeBack(x: Lexis, hex: Hex, data: string, off: nat, chunks: seq<Chunk>, rest: string,
                                          limit: nat)
    requires HexReads(x, hex) && forall i :: 0 <= i < |chunks| ==> GoodChunk(chunks[i])
    requires off <= |data| && data[off..] == ChunksWire(hex, chunks) + rest && limit > |chunks|
    ensures ChunkedFrom(x, data, off, limit) == Body(Unchunked(chunks), off + |ChunksWire(hex, chunks)|)
    decreases |chunks|
  {
    hide ChunkedFrom, ChunkWire, Prefixed, ChunksWire, Unchunked, HexReads, GoodChunk;
    ChunksUnfold(hex, chunks);
    if chunks == [] {
      LastChunk(x, hex, data, off, rest, limit);
    } else {
      var c, more := chunks[0], ChunksWire(hex, chunks[1..]);
      assert data[off..] == ChunkWire(hex, c) + (more + rest);
      OneChunk(x, hex, data, off, c, more + rest, limit);
      ChunksComeBack(x, hex, data, off + |ChunkWire(hex, c)|, chunks[1..], rest, limit - 1);
      PrefixedBody(c.data, Unchunked(chunks[1..]), off + |ChunkWire(hex, c)| + |more|);
    }
  }

  lemma ChunksUnfold(hex: Hex, chunks: seq<Chunk>)
    ensures chunks == [] ==> ChunksWire(hex, chunks) == hex(0) + CRLF + CRLF && Unchunked(chunks) == ""
    ensures chunks != [] ==>
              && ChunksWire(hex, chunks) == ChunkWire(hex, chunks[0]) + ChunksWire(hex, chunks[1..])
              && Unchunked(chunks) == chunks[0].data + Unchunked(chunks[1..])
  {
  }

  lemma PrefixedBody(s: string, t: string, next: nat)
    ensures Prefixed(s, Body(t, next)) == Body(s + t, next)
  {
  }

  lemma SliceInside(s: string, a: nat, b: nat)
    requires a <= b <= |s|
    ensures Slice(s, a, b) == s[a..b]
  {
  }

  /** A size line as the reader meets it. */
  lemma SizeIsRead(x: Lexis, hex: Hex, data: string, off: nat, n: nat, ext: string, rest: string)
    requires HexReads(x, hex) && off <= |data| && data[off..] == hex(n) + ext + CRLF + rest
    requires '\r' !in ext && (ext == "" || ext[0] == ';')
    ensures var nl := off + |hex(n)| + |ext|;
            && nl + 2 <= |data| && data[nl + 2..] == rest
            && FindFrom(data, CRLF, off) == Some(nl) && x.int16(SizeText(data, off, nl)) == Some(n)
  {
    hide Find, Before, Slice, HexReads;
    var line := hex(n) + ext;
    HexOf(x, hex, n);
    FindLineEnd(data, off, line, rest);
    SizeLine(data, off, line, rest);
    SliceInside(data, off, off + |line|);
    SizeLineReads(x, hex, n, ext);
  }

  lemma LastChunk(x: Lexis, hex: Hex, data: string, off: nat, rest: string, limit: nat)
    requires HexReads(x, hex) && off <= |data| && data[off..] == hex(0) + CRLF + CRLF + rest && limit > 0
    ensures ChunkedFrom(x, data, off, limit) == Body("", off + |hex(0)| + 4)
  {
    hide Find, Slice, SizeText, Prefixed, HexReads;
    assert data[off..] == hex(0) + "" + CRLF + (CRLF + rest);
    SizeIsRead(x, hex, data, off, 0, "", CRLF + rest);
    var start := off + |hex(0)| + 2;
    assert data[start..] == "" + CRLF + rest;
    FindLineEnd(data, start, "", rest);
  }

  /** What a line break and the text after it look like from the line's start. */
  lemma SizeLine(data: string, off: nat, line: string, rest: string)
    requires off <= |data| && data[off..] == line + CRLF + rest
    ensures off + |line| + 2 <= |data| && data[off..off + |line|] == line && data[off + |line| + 2..] == rest
  {
    assert data[off..][..|line|] == line;
    assert data[off..][|line| + 2..] == rest;
  }

  lemma OneChunk(x: Lexis, hex: Hex, data: string, off: nat, c: Chunk, rest: string, limit: nat)
    requires HexReads(x, hex) && GoodChunk(c) && limit > 0
    requires off <= |data| && data[off..] == ChunkWire(hex, c) + rest
    ensures off + |ChunkWire(hex, c)| <= |data| && data[off + |ChunkWire(hex, c)|..] == rest
    ensures ChunkedFrom(x, data, off, limit) ==
              Prefixed(c.data, ChunkedFrom(x, data, off + |ChunkWire(hex, c)|, limit - 1))
  {
    hide Find, Slice, SizeText, Prefixed, HexReads;
    var after := c.data + CRLF + rest;
    assert data[off..] == hex(|c.data|) + c.ext + CRLF + after;
    SizeIsRead(x, hex, data, off, |c.data|, c.ext, after);
    var start := off + |hex(|c.data|)| + |c.ext| + 2;
    SizeLine(data, start, c.data, rest);
    SliceInside(data, start, start + |c.data|);
  }

  lemma HexOf(x: Lexis, hex: Hex, n: nat)
    requires HexReads(x, hex)
    ensures '\r' !in hex(n) && x.int16(hex(n)) == Some(n) && hex(n) != ""
  {
  }

  lemma BodyComesBack(x: Lexis, hex: Hex, data: string, off: nat, m: Sent, rest: string, isHead: bool,
                          limit: nat)
    requires limit > |data|
    requires HexReads(x, hex) && Good(x, m) && off <= |data| && data[off..] == BodyWire(hex, m.framing) + rest
    requires FlagFits(x, m, isHead) && !Misleads(x, m, isHead)
    ensures BodyAt(x, data, off, ByLowerName(x, m.headers), isHead, limit) ==
              Body(BodyOf(m.framing), off + |BodyWire(hex, m.framing)|)
  {
    hide ChunkedFrom, ChunksWire, Unchunked, ByLowerName, IsChunked, Says, HexReads, GoodHeaders;
    ChunkedIsSaid(x, m.headers);
    LookupIsSaid(x, m.headers, "content-length");
    match m.framing {
      case NoBody =>
      case Length(body) =>
        var v :| Says(x, m.headers, "content-length", v) && x.int10(v) == Some(|body|);
        assert data[off..][..|body|] == body;
      case Chunked(chunks) =>
        ManyBytesPerChunk(hex, chunks);
        ChunksComeBack(x, hex, data, off, chunks, rest, limit);
      case HeadOnly =>
    }
  }

  // --- all messages ------------------------------------------------------------------------------------------------

  lemma HeadLinesAreFilled(x: Lexis, m: Sent)
    requires '\r' !in m.start && GoodHeaders(x, m.headers)
    ensures FilledLines([m.start] + LinesOf(m.headers))
  {
    var lines := [m.start] + LinesOf(m.headers);
    forall i | 1 <= i < |lines| ensures lines[i] != "" && '\r' !in lines[i] {
      assert GoodHeader(x, m.headers[i - 1]);
      assert lines[i] == LineOf(m.headers[i - 1]);
    }
  }

  /** A message on the wire is read in one turn, which ends right behind it. */
  lemma MessageIsRead(x: Lexis, hex: Hex, data: string, off: nat, m: Sent, rest: string, flags: seq<bool>, idx: nat,
                      limit: nat)
    requires HexReads(x, hex) && Good(x, m) && limit > |data|
    requires off <= |data| && data[off..] == HeadWire(m) + BLANK + (BodyWire(hex, m.framing) + rest)
    requires FlagFits(x, m, FlaggedHead(flags, idx)) && !Misleads(x, m, FlaggedHead(flags, idx))
    ensures TurnOfMessage(x, data, off, flags, idx, limit) == Reads(Received(m), off + |Wire(hex, m)|)
  {
    hide Find, SplitLines, JoinLines, HeadersOf, ByLowerName, BodyAt, BodyWire, BodyOf, HexReads, FilledLines,
         Announces, GoodHeaders, FlaggedHead, Slice, FlagFits, Misleads;
    var head, body := HeadWire(m), BodyWire(hex, m.framing);
    HeadIsRead(x, m, data, off, body + rest);
    var end := off + |head|;
    assert data[off..][|head| + 4..] == body + rest && data[end + 4..] == body + rest;
    BodyComesBack(x, hex, data, end + 4, m, rest, FlaggedHead(flags, idx), limit);
  }

  /** A head is found and taken apart. */
  lemma HeadIsRead(x: Lexis, m: Sent, data: string, off: nat, rest: string)
    requires '\r' !in m.start && GoodHeaders(x, m.headers)
    requires off <= |data| && data[off..] == HeadWire(m) + BLANK + rest
    ensures var end := off + |HeadWire(m)|;
            && FindFrom(data, BLANK, off) == Some(end)
            && HeadAt(data, off, end)[0] == m.start && HeadersOf(x, HeadAt(data, off, end)[1..]) == m.headers
  {
    hide Find, SplitLines, JoinLines, HeadersOf, GoodHeaders, FilledLines, Slice;
    var head := HeadWire(m);
    var lines := [m.start] + LinesOf(m.headers);
    HeadLinesAreFilled(x, m);
    HeadsHaveNoBlank(lines);
    FindHeadEnd(data, off, head, rest);
    assert data[off..][..|head|] == head && data[off..off + |head|] == head;
    SliceInside(data, off, off + |head|);
    SplitUndoesJoin(lines);
    assert lines[1..] == LinesOf(m.headers);
    HeadersComeBack(x, m.headers);
  }

  lemma OneMessage(x: Lexis, hex: Hex, data: string, off: nat, m: Sent, rest: string, flags: seq<bool>,
                   idx: nat, turns: nat, limit: nat)
    requires HexReads(x, hex) && Good(x, m) && turns > 0 && limit > |data|
    requires off <= |data| && data[off..] == Wire(hex, m) + rest
    requires FlagFits(x, m, FlaggedHead(flags, idx)) && !Misleads(x, m, FlaggedHead(flags, idx))
    ensures off + |Wire(hex, m)| <= |data| && data[off + |Wire(hex, m)|..] == rest
    ensures ParseFrom(x, data, off, flags, idx, turns, limit) ==
              WithEarlier([Received(m)], ParseFrom(x, data, off + |Wire(hex, m)|, flags, idx + 1, turns - 1, limit))
  {
    hide TurnOfMessage, HeadWire, BodyWire, HexReads, Good, Received, WithEarlier, FlaggedHead, FlagFits, Misleads;
    assert data[off..] == HeadWire(m) + BLANK + (BodyWire(hex, m.framing) + rest);
    assert data[off..][|Wire(hex, m)|..] == rest;
    assert |data[off..]| == |data| - off;
    MessageIsRead(x, hex, data, off, m, rest, flags, idx, limit);
  }

  /** The last message is read even if it misleads the reader: there is nothing left to take for a body. */
  lemma LastIsRead(x: Lexis, data: string, off: nat, m: Sent, flags: seq<bool>, idx: nat, limit: nat)
    requires Good(x, m) && m.framing.HeadOnly? && FlagFits(x, m, FlaggedHead(flags, idx)) && limit > 0
    requires off <= |data| && data[off..] == HeadWire(m) + BLANK
    ensures var t := TurnOfMessage(x, data, off, flags, idx, limit);
            t.Reads? && t.message == Received(m) && t.next >= |data|
  {
    hide Find, HeadAt, HeadWire, HeadersOf, ByLowerName, IsChunked, Says, GoodHeaders, FlaggedHead, SaysChunked,
         ChunkedFrom;
    HeadIsRead(x, m, data, off, "");
    assert |data[off..]| == |data| - off;
    ChunkedIsSaid(x, m.headers);
    LookupIsSaid(x, m.headers, "content-length");
    NoChunksLeft(x, data, limit);
  }

  lemma NoChunksLeft(x: Lexis, data: string, limit: nat)
    requires limit > 0
    ensures ChunkedFrom(x, data, |data|, limit) == Body("", |data|)
  {
  }

  lemma {:induction false} ParsesAll(x: Lexis, hex: Hex, data: string, off: nat, ms: seq<Sent>, flags: seq<bool>,
                                     idx: nat, turns: nat, limit: nat)
    requires HexReads(x, hex) && (forall i :: 0 <= i < |ms| ==> Good(x, ms[i])) && FlagsFit(x, ms, flags, idx)
    requires OnlyLastMisleads(x, ms, flags, idx)
    requires off <= |data| && data[off..] == WireAll(hex, ms) && turns >= |ms| && limit > |data|
    ensures ParseFrom(x, data, off, flags, idx, turns, limit) == Parsed(ReceivedAll(ms))
    decreases |ms|
  {
    hide Wire, Good, HexReads, Received, ParseFrom, FlaggedHead, FlagFits, Misleads;
    assert |data[off..]| == |data| - off;
    if ms == [] {
      NothingLeft(x, data, off, flags, idx, turns, limit);
    } else {
      assert idx + 0 == idx;
      if Misleads(x, ms[0], FlaggedHead(flags, idx)) {
        assert ms == [ms[0]];
        LastIsAll(x, hex, data, off, ms[0], flags, idx, turns, limit);
      } else {
        OneMessage(x, hex, data, off, ms[0], WireAll(hex, ms[1..]), flags, idx, turns, limit);
        FlagsShift(x, ms, flags, idx);
        ParsesAll(x, hex, data, off + |Wire(hex, ms[0])|, ms[1..], flags, idx + 1, turns - 1, limit);
      }
    }
  }

  lemma LastIsAll(x: Lexis, hex: Hex, data: string, off: nat, m: Sent, flags: seq<bool>, idx: nat, turns: nat,
                  limit: nat)
    requires Good(x, m) && FlagFits(x, m, FlaggedHead(flags, idx)) && Misleads(x, m, FlaggedHead(flags, idx))
    requires off <= |data| && data[off..] == WireAll(hex, [m]) && turns > 0 && limit > 0
    ensures ParseFrom(x, data, off, flags, idx, turns, limit) == Parsed(ReceivedAll([m]))
  {
    hide TurnOfMessage, HeadWire, Good, FlaggedHead, FlagFits, Received;
    assert WireAll(hex, [m]) == HeadWire(m) + BLANK by { assert [m][1..] == []; }
    assert |data[off..]| == |data| - off;
    LastIsRead(x, data, off, m, flags, idx, limit);
    var t := TurnOfMessage(x, data, off, flags, idx, limit);
    NothingLeft(x, data, t.next, flags, idx + 1, turns - 1, limit);
    assert [m][1..] == [] && ReceivedAll([m]) == [Received(m)] + ReceivedAll([]);
  }

  lemma NothingLeft(x: Lexis, data: string, off: nat, flags: seq<bool>, idx: nat, turns: nat, limit: nat)
    requires off >= |data|
    ensures ParseFrom(x, data, off, flags, idx, turns, limit) == Parsed([])
  {
  }

  lemma FlagsShift(x: Lexis, ms: seq<Sent>, flags: seq<bool>, idx: nat)
    requires ms != []
    ensures FlagsFit(x, ms, flags, idx) ==> FlagsFit(x, ms[1..], flags, idx + 1)
    ensures OnlyLastMisleads(x, ms, flags, idx) <==>
              OnlyLastMisleads(x, ms[1..], flags, idx + 1) &&
              (|ms| > 1 ==> !Misleads(x, ms[0], FlaggedHead(flags, idx)))
  {
    hide FlagFits, Misleads, FlaggedHead;
    var tail := ms[1..];
    forall i | 0 <= i < |tail|
      ensures Misleads(x, tail[i], FlaggedHead(flags, idx + 1 + i)) ==
              Misleads(x, ms[i + 1], FlaggedHead(flags, idx + (i + 1)))
      ensures FlagFits(x, tail[i], FlaggedHead(flags, idx + 1 + i)) ==
              FlagFits(x, ms[i + 1], FlaggedHead(flags, idx + (i + 1)))
    {
      assert tail[i] == ms[i + 1] && idx + 1 + i == idx + (i + 1);
    }
    assert idx + 0 == idx;
    if OnlyLastMisleads(x, tail, flags, idx + 1) && (|ms| > 1 ==> !Misleads(x, ms[0], FlaggedHead(flags, idx))) {
      forall i | 0 <= i < |ms| - 1 ensures !Misleads(x, ms[i], FlaggedHead(flags, idx + i)) {
        if i > 0 {
          assert !Misleads(x, tail[i - 1], FlaggedHead(flags, idx + 1 + (i - 1)));
        }
      }
    }
  }

  lemma {:induction false} ManyBytesPerChunk(hex: Hex, chunks: seq<Chunk>)
    ensures |ChunksWire(hex, chunks)| > |chunks|
  {
    if chunks != [] {
      ManyBytesPerChunk(hex, chunks[1..]);
    }
  }

  lemma {:induction false} ManyBytesPerMessage(hex: Hex, ms: seq<Sent>)
    ensures |WireAll(hex, ms)| >= |ms|
  {
    if ms != [] {
      ManyBytesPerMessage(hex, ms[1..]);
    }
  }

  /** The stream of any list of well-formed messages parses to their start lines, headers and bodies, within as many
      turns of either loop as the stream has bytes, unless a message before the last misleads the reader. */
  lemma ParsingUndoesSending(x: Lexis, hex: Hex, ms: seq<Sent>, flags: seq<bool>, turns: nat, limit: nat)
    requires HexReads(x, hex) && (forall i :: 0 <= i < |ms| ==> Good(x, ms[i])) && FlagsFit(x, ms, flags, 0)
    requires OnlyLastMisleads(x, ms, flags, 0)
    requires turns >= |WireAll(hex, ms)| && limit > |WireAll(hex, ms)|
    ensures ParseFrom(x, WireAll(hex, ms), 0, flags, 0, turns, limit) == Parsed(ReceivedAll(ms))
  {
    hide Good, HexReads, ParseFrom, WireAll, FlagsFit, OnlyLastMisleads;
    var data := WireAll(hex, ms);
    assert data[0..] == data;
    ManyBytesPerMessage(hex, ms);
    ParsesAll(x, hex, data, 0, ms, flags, 0, turns, limit);
  }

  // --- bodies that are announced and not sent ----------------------------------------------------------------------

  lemma WireStartsWithLine(hex: Hex, m: Sent) returns (rest: string)
    ensures Wire(hex, m) == m.start + CRLF + rest
  {
    var lines, body := LinesOf(m.headers), BodyWire(hex, m.framing);
    if lines == [] {
      assert [m.start] + lines == [m.start];
      rest := CRLF + body;
    } else {
      assert ([m.start] + lines)[1..] == lines;
      rest := JoinLines(lines) + BLANK + body;
    }
  }

  /** Where chunks are announced and another message follows, its first line is taken for the size of a chunk. */
  lemma StartLineIsNoSize(x: Lexis, data: string, off: nat, m: Sent, line: string, rest: string, flags: seq<bool>,
                          idx: nat, limit: nat)
    requires '\r' !in m.start && GoodHeaders(x, m.headers) && SaysChunked(x, m.headers) && limit > 0
    requires off <= |data| && data[off..] == HeadWire(m) + BLANK + (line + CRLF + rest)
    requires '\r' !in line && IsNoSize(x, line)
    ensures TurnOfMessage(x, data, off, flags, idx, limit) == NoNumber
  {
    hide Find, HeadAt, HeadWire, HeadersOf, ByLowerName, IsChunked, GoodHeaders, SaysChunked, Before, Slice;
    HeadIsRead(x, m, data, off, line + CRLF + rest);
    var body := off + |HeadWire(m)| + 4;
    assert data[off..][|HeadWire(m)| + 4..] == line + CRLF + rest && data[body..] == line + CRLF + rest;
    ChunkedIsSaid(x, m.headers);
    FindLineEnd(data, body, line, rest);
    SizeLine(data, body, line, rest);
    SliceInside(data, body, body + |line|);
  }

  /** Where a length is announced and another message follows, some of it is taken for the body. */
  lemma NextIsTakenForBody(x: Lexis, data: string, off: nat, m: Sent, rest: string, flags: seq<bool>, idx: nat,
                           limit: nat)
    requires '\r' !in m.start && GoodHeaders(x, m.headers) && !SaysChunked(x, m.headers)
    requires AnnouncesNumber(x, m) && Misleads(x, m, FlaggedHead(flags, idx))
    requires off <= |data| && data[off..] == HeadWire(m) + BLANK + rest && rest != ""
    ensures var t := TurnOfMessage(x, data, off, flags, idx, limit); t.Reads? && t.message.body != ""
  {
    hide HeadWire, Says, GoodHeaders, TurnOfMessage, SaysChunked;
    var v :| Says(x, m.headers, "content-length", v) && x.int10(v) != Some(0);
    var n := x.int10(v).value;
    AnnouncedLengthDecides(x, m, v, n, data, off, rest, flags, idx, limit);
    var body := off + |HeadWire(m)| + 4;
    assert |data[off..]| == |data| - off;
    assert Slice(data, body, body + n) != "";
  }

  /** Another first message, another outcome. */
  lemma OtherFirst(a: Message, b: Message, r: Outcome, more: seq<Message>)
    ensures a != b ==> WithEarlier([a], r) != Parsed([b] + more)
    ensures r != Parsed(more) ==> WithEarlier([a], r) != Parsed([a] + more)
  {
    if r.Parsed? {
      assert ([a] + r.messages)[0] == a && ([b] + more)[0] == b;
      assert ([a] + r.messages)[1..] == r.messages && ([a] + more)[1..] == more;
    }
  }

  lemma MisledAtOnce(x: Lexis, hex: Hex, data: string, off: nat, ms: seq<Sent>, flags: seq<bool>, idx: nat,
                     turns: nat, limit: nat)
    requires |ms| > 1 && Good(x, ms[0]) && Good(x, ms[1]) && IsNoSize(x, ms[1].start)
    requires FlagFits(x, ms[0], FlaggedHead(flags, idx)) && Misleads(x, ms[0], FlaggedHead(flags, idx))
    requires off <= |data| && data[off..] == WireAll(hex, ms) && turns > 0 && limit > 0
    ensures ParseFrom(x, data, off, flags, idx, turns, limit) != Parsed(ReceivedAll(ms))
    ensures SaysChunked(x, ms[0].headers) ==> ParseFrom(x, data, off, flags, idx, turns, limit) == NotANumber
  {
    hide TurnOfMessage, HeadWire, GoodHeaders, SaysChunked, Says, FlaggedHead, Announces, IsNoSize, WithEarlier, Wire,
         AnnouncesNumber;
    var rest := WireStartsWithLine(hex, ms[1]);
    var after := rest + WireAll(hex, ms[2..]);
    var line := ms[1].start;
    TwoOnTheWire(hex, ms, line, rest);
    assert |data[off..]| == |data| - off;
    if SaysChunked(x, ms[0].headers) {
      StartLineIsNoSize(x, data, off, ms[0], line, after, flags, idx, limit);
    } else {
      NextIsTakenForBody(x, data, off, ms[0], line + CRLF + after, flags, idx, limit);
      var t := TurnOfMessage(x, data, off, flags, idx, limit);
      OtherFirst(t.message, Received(ms[0]), ParseFrom(x, data, t.next, flags, idx + 1, turns - 1, limit),
          ReceivedAll(ms[1..]));
    }
  }

  lemma TwoOnTheWire(hex: Hex, ms: seq<Sent>, line: string, rest: string)
    requires |ms| > 1 && ms[0].framing.HeadOnly? && Wire(hex, ms[1]) == line + CRLF + rest
    ensures WireAll(hex, ms) == HeadWire(ms[0]) + BLANK + (line + CRLF + (rest + WireAll(hex, ms[2..])))
  {
    hide HeadWire, Wire, WireAll;
    WireUnfolds(hex, ms);
    WireUnfolds(hex, ms[1..]);
    assert ms[1..][0] == ms[1] && ms[1..][1..] == ms[2..];
    HeadAlone(hex, ms[0]);
    LineThenMore(line, rest, WireAll(hex, ms[2..]));
  }

  lemma HeadAlone(hex: Hex, m: Sent)
    requires m.framing.HeadOnly?
    ensures Wire(hex, m) == HeadWire(m) + BLANK
  {
    hide HeadWire;
  }

  lemma LineThenMore(line: string, rest: string, more: string)
    ensures line + CRLF + rest + more == line + CRLF + (rest + more)
  {
  }

  lemma {:induction false} MisledSomewhere(x: Lexis, hex: Hex, data: string, off: nat, ms: seq<Sent>, flags: seq<bool>,
                                           idx: nat, turns: nat, limit: nat)
    requires HexReads(x, hex) && (forall i :: 0 <= i < |ms| ==> Good(x, ms[i])) && FlagsFit(x, ms, flags, idx)
    requires !OnlyLastMisleads(x, ms, flags, idx) && forall i :: 0 < i < |ms| ==> IsNoSize(x, ms[i].start)
    requires off <= |data| && data[off..] == WireAll(hex, ms) && turns >= |ms| && limit > |data|
    ensures ParseFrom(x, data, off, flags, idx, turns, limit) != Parsed(ReceivedAll(ms))
    decreases |ms|
  {
    hide Wire, WireAll, Good, HexReads, Received, ParseFrom, FlaggedHead, FlagFits, Misleads, IsNoSize, WithEarlier;
    assert idx + 0 == idx;
    if Misleads(x, ms[0], FlaggedHead(flags, idx)) && |ms| > 1 {
      MisledAtOnce(x, hex, data, off, ms, flags, idx, turns, limit);
    } else {
      FlagsShift(x, ms, flags, idx);
      assert |ms| > 1;
      assert WireAll(hex, ms) == Wire(hex, ms[0]) + WireAll(hex, ms[1..]) by { WireUnfolds(hex, ms); }
      OneMessage(x, hex, data, off, ms[0], WireAll(hex, ms[1..]), flags, idx, turns, limit);
      var next := off + |Wire(hex, ms[0])|;
      MisledSomewhere(x, hex, data, next, ms[1..], flags, idx + 1, turns - 1, limit);
      OtherFirst(Received(ms[0]), Received(ms[0]), ParseFrom(x, data, next, flags, idx + 1, turns - 1, limit),
                 ReceivedAll(ms[1..]));
    }
  }

  lemma WireUnfolds(hex: Hex, ms: seq<Sent>)
    requires ms != []
    ensures WireAll(hex, ms) == Wire(hex, ms[0]) + WireAll(hex, ms[1..])
  {
  }

  /** Where start lines are no chunk sizes, the stream comes back if and only if no message before the last announces a
      body that it does not have: chunks, or a length that the reader does not know to ignore. */
  lemma ParsingUndoesSendingExactly(x: Lexis, hex: Hex, ms: seq<Sent>, flags: seq<bool>, turns: nat, limit: nat)
    requires HexReads(x, hex) && (forall i :: 0 <= i < |ms| ==> Good(x, ms[i])) && FlagsFit(x, ms, flags, 0)
    requires forall i :: 0 < i < |ms| ==> IsNoSize(x, ms[i].start)
    requires turns >= |WireAll(hex, ms)| && limit > |WireAll(hex, ms)|
    ensures ParseFrom(x, WireAll(hex, ms), 0, flags, 0, turns, limit) == Parsed(ReceivedAll(ms)) <==>
            OnlyLastMisleads(x, ms, flags, 0)
  {
    hide Good, HexReads, ParseFrom, WireAll, FlagsFit, OnlyLastMisleads, IsNoSize;
    var data := WireAll(hex, ms);
    assert data[0..] == data;
    if OnlyLastMisleads(x, ms, flags, 0) {
      ParsingUndoesSending(x, hex, ms, flags, turns, limit);
    } else {
      ManyBytesPerMessage(hex, ms);
      MisledSomewhere(x, hex, data, 0, ms, flags, 0, turns, limit);
    }
  }

  /** An answer to a HEAD request that announces chunks, and the answer after it: reading them raises an error. */
  lemma ChunkedAnswerToHead(x: Lexis, turns: nat, limit: nat)
    requires var h := Header("Transfer-Encoding", "chunked");
             GoodHeader(x, h) && x.lower(h.name) == "transfer-encoding" && x.lower(h.value) == h.value
    requires IsNoSize(x, "HTTP/1.1 204 No Content") && turns > 0 && limit > 0
    ensures var head := "HTTP/1.1 200 OK" + CRLF + "Transfer-Encoding: chunked" + BLANK;
            ParseFrom(x, head + ("HTTP/1.1 204 No Content" + CRLF + CRLF), 0, [true], 0, turns, limit) == NotANumber
  {
    hide ParseFrom, GoodHeader, IsNoSize, TurnOfMessage;
    var h := Header("Transfer-Encoding", "chunked");
    var m := Sent("HTTP/1.1 200 OK", [h], HeadOnly);
    var line := "HTTP/1.1 204 No Content";
    var data := "HTTP/1.1 200 OK" + CRLF + "Transfer-Encoding: chunked" + BLANK + (line + CRLF + CRLF);
    ChunkedHeadWire();
    assert SaysChunked(x, [h]) by { SaysItIsChunked(x, h); }
    assert '\r' !in line && '\r' !in m.start by { NoReturnsInLines(); }
    assert data == HeadWire(m) + BLANK + (line + CRLF + CRLF);
    assert data[0..] == data;
    StartLineIsNoSize(x, data, 0, m, line, CRLF, [true], 0, limit);
    FirstTurnFails(x, data, [true], turns, limit);
  }

  lemma FirstTurnFails(x: Lexis, data: string, flags: seq<bool>, turns: nat, limit: nat)
    requires data != "" && turns > 0 && TurnOfMessage(x, data, 0, flags, 0, limit) == NoNumber
    ensures ParseFrom(x, data, 0, flags, 0, turns, limit) == NotANumber
  {
    hide TurnOfMessage;
  }

  lemma NoReturnsInLines()
    ensures '\r' !in "HTTP/1.1 204 No Content" && '\r' !in "HTTP/1.1 200 OK"
  {
  }

  lemma ChunkedHeadWire()
    ensures HeadWire(Sent("HTTP/1.1 200 OK", [Header("Transfer-Encoding", "chunked")], HeadOnly)) ==
              "HTTP/1.1 200 OK" + CRLF + "Transfer-Encoding: chunked"
  {
    hide JoinLines;
    var h := Header("Transfer-Encoding", "chunked");
    HeadWireOfTwo("HTTP/1.1 200 OK", h);
    assert LineOf(h) == "Transfer-Encoding: chunked";
  }

  lemma HeadWireOfTwo(start: string, h: Header)
    ensures HeadWire(Sent(start, [h], HeadOnly)) == start + CRLF + LineOf(h)
  {
    JoinTwo(start, LineOf(h));
    assert [start] + LinesOf([h]) == [start, LineOf(h)];
  }

  lemma SaysItIsChunked(x: Lexis, h: Header)
    requires x.lower(h.name) == "transfer-encoding" && x.lower(h.value) == "chunked"
    ensures SaysChunked(x, [h])
  {
    assert [h][0] == h && Says(x, [h], "transfer-encoding", h.value);
    assert IsAt("chunked", "chunked", 0);
  }

  // --- lengths below zero ------------------------------------------------------------------------------------------

  /** A message that announces a length of `n`, of either sign, sends the reader to the end of its head and `n` on. */
  lemma AnnouncedLengthDecides(x: Lexis, m: Sent, v: string, n: int, data: string, off: nat, rest: string,
                               flags: seq<bool>, idx: nat, limit: nat)
    requires '\r' !in m.start && GoodHeaders(x, m.headers) && !SaysChunked(x, m.headers)
    requires Says(x, m.headers, "content-length", v) && x.int10(v) == Some(n) && !FlaggedHead(flags, idx)
    requires off <= |data| && data[off..] == HeadWire(m) + BLANK + rest
    ensures var body := off + |HeadWire(m)| + 4;
            TurnOfMessage(x, data, off, flags, idx, limit) ==
              Reads(Message(m.start, m.headers, Slice(data, body, body + n)), body + n)
  {
    hide HeadWire, Find, HeadAt, HeadersOf, ByLowerName, IsChunked, GoodHeaders, Says, SaysChunked, Slice;
    HeadIsRead(x, m, data, off, rest);
    ChunkedIsSaid(x, m.headers);
    LookupIsSaid(x, m.headers, "content-length");
  }

  function Copies(m: Message, k: nat): (r: seq<Message>)
    ensures |r| == k && forall i :: 0 <= i < k ==> r[i] == m
  {
    seq(k, _ => m)
  }

  /** A message that takes back exactly its own head is read again at every turn: whatever the number of turns, the
      reader is where it began and has one more copy of the message for each turn. */
  lemma {:induction false} MessageIsReadForEver(x: Lexis, m: Sent, v: string, rest: string, idx: nat, k: nat,
                                                limit: nat)
    requires '\r' !in m.start && GoodHeaders(x, m.headers) && !SaysChunked(x, m.headers)
    requires Says(x, m.headers, "content-length", v) && x.int10(v) == Some(-|HeadWire(m)| - 4)
    ensures ParseFrom(x, HeadWire(m) + BLANK + rest, 0, [], idx, k, limit) ==
              StillRunning(Copies(Message(m.start, m.headers, ""), k), 0)
    decreases k
  {
    hide HeadWire, GoodHeaders, SaysChunked, Says, TurnOfMessage, WithEarlier;
    var data := HeadWire(m) + BLANK + rest;
    var copy := Message(m.start, m.headers, "");
    assert data[0..] == data;
    assert |data| > 0;
    if k == 0 {
      assert Copies(copy, 0) == [];
    } else {
      AnnouncedLengthDecides(x, m, v, -|HeadWire(m)| - 4, data, 0, rest, [], idx, limit);
      MessageIsReadForEver(x, m, v, rest, idx + 1, k - 1, limit);
      assert [copy] + Copies(copy, k - 1) == Copies(copy, k);
      assert WithEarlier([copy], StillRunning(Copies(copy, k - 1), 0)) == StillRunning(Copies(copy, k), 0) by {
        OneMore(copy, k - 1);
      }
    }
  }

  lemma OneMore(m: Message, k: nat)
    ensures WithEarlier([m], StillRunning(Copies(m, k), 0)) == StillRunning(Copies(m, k + 1), 0)
  {
    assert [m] + Copies(m, k) == Copies(m, k + 1);
  }

  /** There is such a message of 26 bytes. */
  lemma TwentySixBytesForEver(x: Lexis, k: nat, limit: nat)
    requires var h := Header("Content-Length", "-26");
             GoodHeader(x, h) && x.lower(h.name) == "content-length" && x.int10(h.value) == Some(-26)
    ensures var data := "x" + CRLF + "Content-Length: -26" + BLANK;
            && |data| == 26
            && ParseFrom(x, data, 0, [], 0, k, limit) ==
                 StillRunning(Copies(Message("x", [Header("Content-Length", "-26")], ""), k), 0)
  {
    hide ParseFrom, GoodHeader, HeadWire;
    var h := Header("Content-Length", "-26");
    var m := Sent("x", [h], NoBody);
    HeadOfTwentySix();
    assert HeadWire(m) + BLANK + "" == HeadWire(m) + BLANK && |HeadWire(m)| == 22;
    assert [h][0] == h;
    assert !SaysChunked(x, [h]) && Says(x, [h], "content-length", "-26");
    MessageIsReadForEver(x, m, "-26", "", 0, k, limit);
  }

  lemma HeadOfTwentySix()
    ensures HeadWire(Sent("x", [Header("Content-Length", "-26")], NoBody)) == "x" + CRLF + "Content-Length: -26"
  {
    hide JoinLines;
    var h := Header("Content-Length", "-26");
    JoinTwo("x", LineOf(h));
    assert ["x"] + LinesOf([h]) == ["x", LineOf(h)];
    assert LineOf(h) == "Content-Length: -26";
  }

  lemma JoinTwo(a: string, b: string)
    ensures JoinLines([a, b]) == a + CRLF + b
  {
    assert [a, b][1..] == [b];
  }

  /** A chunk whose size takes back its own line keeps the inner loop running for ever. */
  lemma {:induction false} ChunkIsReadForEver(x: Lexis, data: string, off: nat, size: string, rest: string, limit: nat)
    requires off <= |data| && data[off..] == size + CRLF + rest && '\r' !in size && ';' !in size && size != ""
    requires x.int16(size) == Some(-|size| - 4)
    ensures ChunkedFrom(x, data, off, limit) == Unfinished
    decreases limit
  {
    hide Find, Before, Slice;
    if limit > 0 {
      FindLineEnd(data, off, size, rest);
      SizeLine(data, off, size, rest);
      assert Slice(data, off, off + |size|) == size by { SliceInside(data, off, off + |size|); }
      NoSuch(size, ';');
      ChunkIsReadForEver(x, data, off, size, rest, limit - 1);
    }
  }

  /** An offset that goes further below zero than the data is long is the beginning: the turn there is the first one. */
  lemma FarBelowIsTheBeginning(x: Lexis, data: string, off: int, flags: seq<bool>, idx: nat, limit: nat)
    requires off <= -|data|
    ensures TurnOfMessage(x, data, off, flags, idx, limit) == TurnOfMessage(x, data, 0, flags, idx, limit)
  {
    hide HeadersOf, ByLowerName, BodyAt, SplitLines;
  }
}
