/**
 What the headers of a message are when names come more than once: of one name the last value counts, at the place of
 the first; of two spellings of a name the later one decides how the body is read.
 */
module HttpHeaders {
  import opened Wrappers
  import opened HttpFraming

  /** The line is read as this header: name and value around the first colon, or the line as a name without a value. */
  predicate Reads(x: Lexis, line: string, h: Header) {
    exists n :: 0 <= n <= |line| && IsHeaderAt(x, line, n, h)
  }

  predicate IsHeaderAt(x: Lexis, line: string, n: nat, h: Header) {
    && n <= |line| && ':' !in line[..n] && h.name == x.strip(line[..n])
    && if n < |line| then line[n] == ':' && h.value == x.strip(line[n + 1..]) else h.value == x.strip("")
  }

  function HeaderOf(x: Lexis, line: string): Header {
    Header(x.strip(Before(line, ':')), x.strip(After(line, ':')))
  }

  lemma {:induction false} FirstColonIs(line: string, n: nat)
    requires n <= |line| && ':' !in line[..n] && (n < |line| ==> line[n] == ':')
    ensures |Before(line, ':')| == n
  {
    if n > 0 {
      assert line[..n][0] == line[0] && line[1..][..n - 1] == line[..n][1..];
      FirstColonIs(line[1..], n - 1);
    }
  }

  lemma LineReads(x: Lexis, line: string, h: Header)
    ensures Reads(x, line, h) <==> h == HeaderOf(x, line)
  {
    var k := |Before(line, ':')|;
    assert line[..k] == Before(line, ':');
    assert IsHeaderAt(x, line, k, HeaderOf(x, line));
    if n :| 0 <= n <= |line| && IsHeaderAt(x, line, n, h) {
      FirstColonIs(line, n);
    }
  }

  ghost predicate DistinctNames(hs: seq<Header>) {
    forall i, j :: 0 <= i < j < |hs| ==> hs[i].name != hs[j].name
  }

  predicate HasName(hs: seq<Header>, name: string) {
    exists h :: h in hs && h.name == name
  }

  /** Setting a header: the names stay where they are, a new one comes last. */
  lemma {:induction false} PutNames(hs: seq<Header>, h: Header)
    ensures var r := Put(hs, h);
            && |r| == |hs| + (if HasName(hs, h.name) then 0 else 1) && HasName(r, h.name)
            && (forall i :: 0 <= i < |hs| ==> r[i].name == hs[i].name)
            && (!HasName(hs, h.name) ==> r[|hs|] == h)
  {
    if hs != [] && hs[0].name != h.name {
      PutNames(hs[1..], h);
      HasNameFirst(hs, h.name);
      HasNameFirst(Put(hs, h), h.name);
      assert Put(hs, h)[1..] == Put(hs[1..], h);
    } else if hs != [] {
      HasNameFirst(hs, h.name);
      HasNameFirst(Put(hs, h), h.name);
    } else {
      HasNameFirst([h], h.name);
    }
  }

  lemma HasNameFirst(hs: seq<Header>, name: string)
    requires hs != []
    ensures HasName(hs, name) <==> hs[0].name == name || HasName(hs[1..], name)
  {
    assert forall h :: h in hs <==> h == hs[0] || h in hs[1..];
  }

  lemma PutStaysDistinct(hs: seq<Header>, h: Header)
    requires DistinctNames(hs)
    ensures DistinctNames(Put(hs, h))
  {
    hide Put;
    PutNames(hs, h);
    var r := Put(hs, h);
    assert !HasName(hs, h.name) ==> forall i :: 0 <= i < |hs| ==> hs[i] in hs && hs[i].name != h.name;
  }

  /** The header is there, and of the others those of other names. */
  lemma {:induction false} PutSets(hs: seq<Header>, h: Header)
    requires DistinctNames(hs)
    ensures forall g :: g in Put(hs, h) <==> g == h || (g in hs && g.name != h.name)
  {
    if hs != [] {
      var rest := hs[1..];
      assert forall g :: g in hs <==> g == hs[0] || g in rest;
      if hs[0].name != h.name {
        PutSets(rest, h);
        assert Put(hs, h) == [hs[0]] + Put(rest, h);
      } else {
        assert Put(hs, h) == [h] + rest;
        assert forall g :: g in rest ==> g.name != h.name;
      }
    }
  }

  /** No line from `k` on has the name. */
  ghost predicate NotFrom(x: Lexis, lines: seq<string>, k: nat, name: string) {
    forall j :: k <= j < |lines| ==> HeaderOf(x, lines[j]).name != name
  }

  /** The header is what the last line with its name says. */
  ghost predicate IsLast(x: Lexis, lines: seq<string>, h: Header) {
    exists k :: 0 <= k < |lines| && HeaderOf(x, lines[k]) == h && NotFrom(x, lines, k + 1, h.name)
  }

  lemma LastOfMore(x: Lexis, lines: seq<string>, line: string, h: Header)
    ensures IsLast(x, lines + [line], h) <==>
              h == HeaderOf(x, line) || (IsLast(x, lines, h) && h.name != HeaderOf(x, line).name)
  {
    hide HeaderOf;
    var more := lines + [line];
    assert forall j :: 0 <= j < |lines| ==> more[j] == lines[j];
    assert more[|lines|] == line;
    if IsLast(x, lines, h) && h.name != HeaderOf(x, line).name {
      var k :| 0 <= k < |lines| && HeaderOf(x, lines[k]) == h && NotFrom(x, lines, k + 1, h.name);
      assert HeaderOf(x, more[k]) == h && NotFrom(x, more, k + 1, h.name);
    }
    if h == HeaderOf(x, line) {
      assert HeaderOf(x, more[|lines|]) == h && NotFrom(x, more, |lines| + 1, h.name);
    }
    if IsLast(x, more, h) {
      var k :| 0 <= k < |more| && HeaderOf(x, more[k]) == h && NotFrom(x, more, k + 1, h.name);
      assert k < |lines| ==> HeaderOf(x, lines[k]) == h && NotFrom(x, lines, k + 1, h.name);
    }
  }

  lemma NoneIsLast(x: Lexis)
    ensures forall h :: !IsLast(x, [], h)
  {
  }

  /** The headers of any lines: each name once, with the value of its last line. */
  lemma {:induction false} LastValueCounts(x: Lexis, lines: seq<string>)
    ensures DistinctNames(HeadersOf(x, lines))
    ensures forall h :: h in HeadersOf(x, lines) <==> IsLast(x, lines, h)
  {
    hide IsLast, HeaderOf, Put;
    if lines == [] {
      NoneIsLast(x);
    } else {
      var last, earlier := lines[|lines| - 1], lines[..|lines| - 1];
      LastValueCounts(x, earlier);
      assert HeadersOf(x, lines) == Put(HeadersOf(x, earlier), HeaderOf(x, last)) by { OneMoreLine(x, lines); }
      PutSets(HeadersOf(x, earlier), HeaderOf(x, last));
      PutStaysDistinct(HeadersOf(x, earlier), HeaderOf(x, last));
      assert lines == earlier + [last];
      forall h ensures h in HeadersOf(x, lines) <==> IsLast(x, lines, h) {
        LastOfMore(x, earlier, last, h);
      }
    }
  }

  lemma OneMoreLine(x: Lexis, lines: seq<string>)
    requires lines != []
    ensures HeadersOf(x, lines) == Put(HeadersOf(x, lines[..|lines| - 1]), HeaderOf(x, lines[|lines| - 1]))
  {
  }

  /** More lines leave the names where they are: a name has the place of its first line. */
  lemma {:induction false} FirstPlaceStays(x: Lexis, lines: seq<string>, more: seq<string>)
    ensures var a, b := HeadersOf(x, lines), HeadersOf(x, lines + more);
            |a| <= |b| && forall i :: 0 <= i < |a| ==> b[i].name == a[i].name
    decreases |more|
  {
    hide Put, HeadersOf, HeaderOf;
    if more == [] {
      assert lines + more == lines;
    } else {
      var all, rest := lines + more, more[..|more| - 1];
      FirstPlaceStays(x, lines, rest);
      assert all[..|all| - 1] == lines + rest;
      OneMoreLine(x, all);
      PutNames(HeadersOf(x, lines + rest), HeaderOf(x, all[|all| - 1]));
    }
  }

  /** The value that decides for a lower-case name: that of the last header so spelled in any way. */
  lemma {:induction false} LastSpellingCounts(x: Lexis, hs: seq<Header>, name: string)
    ensures name in ByLowerName(x, hs) <==> exists i :: 0 <= i < |hs| && x.lower(hs[i].name) == name
    ensures forall i :: 0 <= i < |hs| && x.lower(hs[i].name) == name &&
                        (forall j :: i < j < |hs| ==> x.lower(hs[j].name) != name) ==>
                        name in ByLowerName(x, hs) && ByLowerName(x, hs)[name] == hs[i].value
  {
    if hs != [] {
      var earlier := hs[..|hs| - 1];
      LastSpellingCounts(x, earlier, name);
      assert forall i :: 0 <= i < |earlier| ==> earlier[i] == hs[i];
    }
  }
}
