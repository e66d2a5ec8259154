/**
 Reading the last record's hash off the end of the log file (`_last_hash` in `audit.py`): the file as text, its lines,
 and the tail window that is widened until it holds the whole last record.
 */
module AuditTail {
  import opened Wrappers
  import opened Audit

  /** Python's line breaks and white space. */
  datatype Lexis = Lexis(isBreak: char -> bool, isSpace: char -> bool)

  const TAIL_WINDOW := 65536

  /** The text cut at every line break. */
  function Pieces(x: Lexis, s: string): (r: seq<string>)
    ensures |r| >= 1
  {
    if s == "" then [""]
    else
      var rest := Pieces(x, s[1..]);
      if x.isBreak(s[0]) then [""] + rest else [[s[0]] + rest[0]] + rest[1..]
  }

  predicate IsBlankLine(x: Lexis, line: string) {
    forall k :: 0 <= k < |line| ==> x.isSpace(line[k])
  }

  function Filled(x: Lexis, lines: seq<string>): (r: seq<string>)
    ensures |r| <= |lines|
  {
    if lines == [] then []
    else (if IsBlankLine(x, lines[0]) then [] else [lines[0]]) + Filled(x, lines[1..])
  }

  /** The lines of the text that are not blank. */
  function Lines(x: Lexis, s: string): seq<string> {
    Filled(x, Pieces(x, s))
  }

  /** What the lines say the last hash is. `hashOf` reads a line: none when it is no record or has no hash. */
  function HashAfter(hashOf: string -> Option<string>, lines: seq<string>): string {
    if lines == [] then GENESIS
    else
      var hash := hashOf(lines[|lines| - 1]);
      if hash.Some? && hash.value != "" then hash.value else GENESIS
  }

  // --- a tail of the text -------------------------------------------------------------------------------------------

  lemma {:induction false} FilledConcat(x: Lexis, a: seq<string>, b: seq<string>)
    ensures Filled(x, a + b) == Filled(x, a) + Filled(x, b)
  {
    hide IsBlankLine, Filled;
    if a == [] {
      assert a + b == b && Filled(x, a) == [] by { FilledNothing(x); }
    } else {
      FilledConcat(x, a[1..], b);
      assert (a + b)[0] == a[0] && (a + b)[1..] == a[1..] + b;
      FilledFirst(x, a);
      FilledFirst(x, a + b);
    }
  }

  lemma FilledNothing(x: Lexis)
    ensures Filled(x, []) == []
  {
  }

  lemma FilledFirst(x: Lexis, a: seq<string>)
    requires a != []
    ensures Filled(x, a) == (if IsBlankLine(x, a[0]) then [] else [a[0]]) + Filled(x, a[1..])
  {
    hide IsBlankLine;
  }

  /** The pieces of two texts put together: the last of one runs on into the first of the other. */
  function Joined(p: seq<string>, q: seq<string>): (r: seq<string>)
    requires p != [] && q != []
    ensures r != []
  {
    p[..|p| - 1] + [p[|p| - 1] + q[0]] + q[1..]
  }

  function Pushed(ch: char, p: seq<string>): seq<string>
    requires p != []
  {
    [[ch] + p[0]] + p[1..]
  }

  lemma JoinedUnderHead(p: seq<string>, q: seq<string>)
    requires p != [] && q != []
    ensures Joined([""] + p, q) == [""] + Joined(p, q)
  {
    var h := [""] + p;
    assert h[..|h| - 1] == [""] + p[..|p| - 1];
  }

  lemma JoinedUnderPush(ch: char, p: seq<string>, q: seq<string>)
    requires p != [] && q != []
    ensures Joined(Pushed(ch, p), q) == Pushed(ch, Joined(p, q))
  {
    var h := Pushed(ch, p);
    if |p| == 1 {
      assert [ch] + (p[0] + q[0]) == h[0] + q[0];
    } else {
      assert h[..|h| - 1] == [[ch] + p[0]] + p[1..|p| - 1];
      assert Joined(p, q)[1..] == p[1..|p| - 1] + [p[|p| - 1] + q[0]] + q[1..];
    }
  }

  lemma {:induction false} PiecesConcat(x: Lexis, a: string, b: string)
    ensures Pieces(x, a + b) == Joined(Pieces(x, a), Pieces(x, b))
  {
    hide Joined;
    var q := Pieces(x, b);
    if a == "" {
      assert a + b == b;
      JoinedEmpty(q);
    } else {
      PiecesConcat(x, a[1..], b);
      assert (a + b)[0] == a[0] && (a + b)[1..] == a[1..] + b;
      JoinedUnderHead(Pieces(x, a[1..]), q);
      JoinedUnderPush(a[0], Pieces(x, a[1..]), q);
    }
  }

  lemma JoinedEmpty(q: seq<string>)
    requires q != []
    ensures Joined([""], q) == q
  {
    assert "" + q[0] == q[0];
  }

  /** With more than one line in a tail of the text, the tail ends in the last line of the whole text. */
  lemma TailHasTheLastLine(x: Lexis, a: string, b: string)
    requires |Lines(x, b)| > 1
    ensures Lines(x, a + b) != [] && Lines(x, a + b)[|Lines(x, a + b)| - 1] == Lines(x, b)[|Lines(x, b)| - 1]
  {
    hide Pieces, IsBlankLine;
    var p, q := Pieces(x, a), Pieces(x, b);
    PiecesConcat(x, a, b);
    FilledConcat(x, p[..|p| - 1] + [p[|p| - 1] + q[0]], q[1..]);
    FilledConcat(x, q[..1], q[1..]);
    assert q[..1] + q[1..] == q;
    assert |Filled(x, q[1..])| >= 1;
  }

  /** `_last_hash`: the widened window gives what the whole file gives, however long its last record is. */
  method LastHash(x: Lexis, hashOf: string -> Option<string>, text: string) returns (hash: string)
    ensures hash == HashAfter(hashOf, Lines(x, text))
  {
    hide Lines;
    var window := TAIL_WINDOW;
    var start := if |text| < window then 0 else |text| - window;
    var lines := Lines(x, text[start..]);
    while start != 0 && |lines| <= 1
      invariant 0 <= start <= |text| && window >= TAIL_WINDOW
      invariant start > 0 ==> start == |text| - window
      invariant lines == Lines(x, text[start..])
      decreases start
    {
      window := window * 4;
      start := if |text| < window then 0 else |text| - window;
      lines := Lines(x, text[start..]);
    }
    assert text == text[..start] + text[start..];
    if start != 0 {
      TailHasTheLastLine(x, text[..start], text[start..]);
    }
    if lines == [] {
      return GENESIS;
    }
    var read := hashOf(lines[|lines| - 1]);
    hash := if read.Some? && read.value != "" then read.value else GENESIS;
  }

  // --- the file of a log ---------------------------------------------------------------------------------------------

  /** The file that holds the log: one line a record. */
  function FileOf(encode: Record -> string, log: seq<Record>): string {
    if log == [] then "" else FileOf(encode, log[..|log| - 1]) + encode(log[|log| - 1]) + "\n"
  }

  function Encoded(encode: Record -> string, log: seq<Record>): (r: seq<string>)
    ensures |r| == |log| && forall i :: 0 <= i < |r| ==> r[i] == encode(log[i])
  {
    if log == [] then [] else Encoded(encode, log[..|log| - 1]) + [encode(log[|log| - 1])]
  }

  /** What the JSON text of a record is relied on for: one line, not blank, from which the hash can be read back. */
  ghost predicate Encodes(x: Lexis, encode: Record -> string, hashOf: string -> Option<string>) {
    && x.isBreak('\n')
    && forall r :: IsLine(x, encode(r)) && hashOf(encode(r)) == r.hash
  }

  ghost predicate IsLine(x: Lexis, line: string) {
    (forall k :: 0 <= k < |line| ==> !x.isBreak(line[k])) && !IsBlankLine(x, line)
  }

  lemma {:induction false} OneLine(x: Lexis, line: string)
    requires x.isBreak('\n') && forall k :: 0 <= k < |line| ==> !x.isBreak(line[k])
    ensures Pieces(x, line + "\n") == [line, ""]
  {
    if line == "" {
      assert Pieces(x, "") == [""];
      assert line + "\n" == "\n";
    } else {
      OneLine(x, line[1..]);
      assert (line + "\n")[1..] == line[1..] + "\n";
      assert [line[0]] + line[1..] == line;
    }
  }

  lemma {:induction false} LinesOfFile(x: Lexis, encode: Record -> string, hashOf: string -> Option<string>,
                                       log: seq<Record>)
    requires Encodes(x, encode, hashOf)
    ensures var p := Pieces(x, FileOf(encode, log)); p[|p| - 1] == ""
    ensures Lines(x, FileOf(encode, log)) == Encoded(encode, log)
  {
    hide IsBlankLine, Pieces, Filled, Lines, IsLine;
    if log == [] {
      NothingInTheFile(x);
    } else {
      var n := |log| - 1;
      var before, line := FileOf(encode, log[..n]), encode(log[n]);
      LinesOfFile(x, encode, hashOf, log[..n]);
      assert FileOf(encode, log) == before + (line + "\n");
      OneMoreLine(x, before, line);
    }
  }

  lemma NothingInTheFile(x: Lexis)
    ensures Pieces(x, "") == [""] && Lines(x, "") == []
  {
    assert Filled(x, [""]) == Filled(x, [""][1..]);
  }

  lemma OneMoreLine(x: Lexis, before: string, line: string)
    requires x.isBreak('\n') && IsLine(x, line)
    requires var p := Pieces(x, before); p[|p| - 1] == ""
    ensures var p := Pieces(x, before + (line + "\n")); p[|p| - 1] == ""
    ensures Lines(x, before + (line + "\n")) == Lines(x, before) + [line]
  {
    hide Pieces, IsBlankLine;
    OneLine(x, line);
    PiecesConcat(x, before, line + "\n");
    var p := Pieces(x, before);
    var start := p[..|p| - 1];
    assert p == start + [""] && "" + line == line;
    assert Pieces(x, before + (line + "\n")) == start + [line] + [""];
    FilledConcat(x, start, [""]);
    FilledConcat(x, start + [line], [""]);
    FilledConcat(x, start, [line]);
    FilledOne(x, line);
    FilledOne(x, "");
    assert IsBlankLine(x, "") by { BlankIsBlank(x); }
  }

  lemma FilledOne(x: Lexis, line: string)
    ensures Filled(x, [line]) == if IsBlankLine(x, line) then [] else [line]
  {
    hide IsBlankLine;
    assert [line][1..] == [];
    assert Filled(x, []) == [];
  }

  lemma BlankIsBlank(x: Lexis)
    ensures IsBlankLine(x, "")
  {
  }

  ghost predicate HashesAreNotEmpty(c: Crypto) {
    forall prev, content :: c.digest(prev, content) != ""
  }

  /** The hash read off the file of an intact log is the one its next record must name. */
  lemma FileEndsInHead(x: Lexis, c: Crypto, encode: Record -> string, hashOf: string -> Option<string>,
                       log: seq<Record>)
    requires Encodes(x, encode, hashOf) && Chained(c, log) && HashesAreNotEmpty(c)
    ensures HashAfter(hashOf, Lines(x, FileOf(encode, log))) == Head(log, |log|)
  {
    hide Lines, FileOf, IsLine, Encoded;
    LinesOfFile(x, encode, hashOf, log);
    if log != [] {
      assert Links(c, log, |log| - 1);
    }
  }
}
