/**
 What the scan for mysql-client commands finds, said of the text: positions outside quotes and comments, where a
 statement starts, and the three kinds of command. Under either reading the scan gives the first one, and nothing only
 if there is none.
 */
module MysqlFinds {
  import opened Wrappers
  import opened MysqlScan

  // --- quoted strings ----------------------------------------------------------------------------------------------

  /** How many backslashes come right before position `j`, after the quote at the start. */
  function Slashes(t: string, j: nat): nat
    requires j <= |t|
  {
    if j > 1 && t[j - 1] == '\\' then 1 + Slashes(t, j - 1) else 0
  }

  /** The quote at the start is closed at `j`: by the same quote, after an even number of backslashes if those
      escape. */
  predicate ClosesAt(escapes: bool, t: string, j: nat) {
    1 <= j < |t| && t[j] == t[0] && (escapes ==> Slashes(t, j) % 2 == 0)
  }

  /** The quoted string at the start has length `n`: up to where it is first closed, or all there is. */
  ghost predicate IsQuoted(escapes: bool, t: string, n: nat) {
    && 1 <= n <= |t| && (forall j :: 1 <= j < n - 1 ==> !ClosesAt(escapes, t, j))
    && (ClosesAt(escapes, t, n - 1) || (n == |t| && forall j :: 1 <= j < |t| ==> !ClosesAt(escapes, t, j)))
  }

  predicate StartsQuoted(t: string) {
    t != "" && (t[0] == '\'' || t[0] == '"' || t[0] == '`')
  }

  // --- comments ----------------------------------------------------------------------------------------------------

  /** Hints and version comments are none to the client. */
  predicate StartsBlock(t: string) {
    "/*" <= t && !("/*!" <= t) && !("/*+" <= t)
  }

  predicate StartsLine(x: Lexis, t: string) {
    "#" <= t || ("--" <= t && (|t| == 2 || x.isSpace(t[2])))
  }

  predicate EndsBlockAt(t: string, j: int) {
    2 <= j && j + 2 <= |t| && t[j] == '*' && t[j + 1] == '/'
  }

  /** The comment at the start has length `n`. */
  ghost predicate IsComment(x: Lexis, t: string, n: nat) {
    if StartsBlock(t) then
      && n <= |t| && (forall j :: 2 <= j < n - 2 ==> !EndsBlockAt(t, j))
      && ((n >= 4 && EndsBlockAt(t, n - 2)) || (n == |t| && forall j :: !EndsBlockAt(t, j)))
    else
      && StartsLine(x, t) && n <= |t| && (forall j :: 0 <= j < n ==> t[j] != '\n')
      && (n == |t| || t[n] == '\n')
  }

  // --- positions ---------------------------------------------------------------------------------------------------

  /** What starts the text ends after `n` characters: a quoted string, a comment, or one character. */
  ghost predicate IsPiece(x: Lexis, escapes: bool, t: string, n: nat) {
    if StartsBlock(t) || StartsLine(x, t) then IsComment(x, t, n)
    else if StartsQuoted(t) then IsQuoted(escapes, t, n)
    else t != "" && n == 1
  }

  /** The position is outside quotes and comments: whole pieces lie before it. */
  ghost predicate IsOutside(x: Lexis, escapes: bool, s: string, i: nat)
    requires i <= |s|
  {
    i == 0 || exists j: nat :: j < i && IsOutside(x, escapes, s, j) && IsPiece(x, escapes, s[j..], i - j)
  }

  /** A statement starts there: before it, back to a semicolon or the beginning, are only spaces and comments. */
  ghost predicate StartsStatement(x: Lexis, escapes: bool, s: string, i: nat)
    requires i <= |s|
  {
    i == 0 || exists j: nat ::
      && j < i && IsOutside(x, escapes, s, j) && IsPiece(x, escapes, s[j..], i - j)
      && (s[j] == ';' ||
          (StartsStatement(x, escapes, s, j) &&
           (StartsBlock(s[j..]) || StartsLine(x, s[j..]) || x.isSpace(s[j]))))
  }

  // --- commands ----------------------------------------------------------------------------------------------------

  /** The word `w` comes after `k` blanks, and no more; it is the whole word, and a long command. */
  predicate IsLongAt(x: Lexis, t: string, w: string, k: nat) {
    && k + |w| <= |t| && t[k..k + |w|] == w && x.isLongCommand(w)
    && (forall i :: 0 <= i < k ==> t[i] == ' ' || t[i] == '\t' || t[i] == '\r')
    && (k == |t| || !(t[k] == ' ' || t[k] == '\t' || t[k] == '\r'))
    && (forall i :: 0 <= i < |w| ==> x.isWord(w[i])) && (k + |w| == |t| || !x.isWord(t[k + |w|]))
  }

  ghost predicate IsLong(x: Lexis, t: string, w: string) {
    exists k: nat :: IsLongAt(x, t, w, k)
  }

  /** The command `w` starts the text: a long one where a statement starts, else a comment with a backslash in it, or a
      backslash that does not make the literal `\N`. */
  ghost predicate IsCommandHere(x: Lexis, t: string, statement: bool, w: string)
    requires t != ""
  {
    if statement && exists v :: IsLong(x, t, v) then IsLong(x, t, w)
    else if StartsBlock(t) || StartsLine(x, t) then
      exists n: nat :: n <= |t| && IsComment(x, t, n) && '\\' in t[..n] && w == t[..n]
    else t[0] == '\\' && !("\\N" <= t) && w == t[..if |t| > 1 then 2 else 1]
  }

  ghost predicate IsCommand(x: Lexis, escapes: bool, s: string, i: nat, w: string)
    requires i < |s|
  {
    IsCommandHere(x, s[i..], StartsStatement(x, escapes, s, i), w)
  }

  /** The first command outside quotes and comments, under one reading of backslashes in strings. */
  ghost predicate IsFirst(x: Lexis, escapes: bool, s: string, w: string) {
    exists i: nat ::
      && i < |s| && IsOutside(x, escapes, s, i) && IsCommand(x, escapes, s, i, w)
      && forall j: nat, v :: j < i && IsOutside(x, escapes, s, j) ==> !IsCommand(x, escapes, s, j, v)
  }

  ghost predicate HasCommand(x: Lexis, escapes: bool, s: string) {
    exists i: nat, w :: i < |s| && IsOutside(x, escapes, s, i) && IsCommand(x, escapes, s, i, w)
  }

  // --- what the functions of the scan compute ----------------------------------------------------------------------

  predicate Occurs(s: string, p: string, j: int) {
    0 <= j && j + |p| <= |s| && s[j..j + |p|] == p
  }

  lemma {:induction false} FindFromIsFirst(s: string, p: string, i: nat)
    ensures var r := FindFrom(s, p, i);
            && (r.Some? ==> i <= r.value && Occurs(s, p, r.value))
            && forall j :: i <= j && (r.None? || j < r.value) ==> !Occurs(s, p, j)
    decreases |s| - i
  {
    if i + |p| <= |s| && s[i..i + |p|] != p {
      FindFromIsFirst(s, p, i + 1);
    }
  }

  lemma BlockLength(x: Lexis, t: string)
    requires StartsBlock(t)
    ensures CommentLength(x, t).Some? && forall n :: IsComment(x, t, n) <==> n == CommentLength(x, t).value
  {
    hide FindFrom;
    BlockOpens(t);
    FindFromIsFirst(t, "*/", 2);
    assert forall j :: 0 <= j && j + 2 <= |t| ==> t[j..j + 2] == [t[j], t[j + 1]];
    assert forall j :: EndsBlockAt(t, j) <==> 2 <= j && Occurs(t, "*/", j);
  }

  lemma BlockOpens(t: string)
    ensures StartsBlock(t) <==> OpensBlockComment(t)
  {
    if |t| >= 2 {
      assert "/*" <= t <==> t[0] == '/' && t[1] == '*' by { assert t[..2] == [t[0], t[1]]; }
    }
    if |t| >= 3 {
      assert t[..3] == [t[0], t[1], t[2]];
      assert "/*!" <= t <==> t[0] == '/' && t[1] == '*' && t[2] == '!';
      assert "/*+" <= t <==> t[0] == '/' && t[1] == '*' && t[2] == '+';
    }
  }

  lemma LineOpens(x: Lexis, t: string)
    ensures StartsLine(x, t) <==> OpensLineComment(x, t)
  {
    if t != "" {
      assert "#" <= t <==> t[0] == '#' by { assert t[..1] == [t[0]]; }
    }
    if |t| >= 2 {
      assert "--" <= t <==> t[0] == '-' && t[1] == '-' by { assert t[..2] == [t[0], t[1]]; }
    }
  }

  lemma LineLength(x: Lexis, t: string)
    requires !StartsBlock(t) && StartsLine(x, t)
    ensures CommentLength(x, t).Some? && forall n :: IsComment(x, t, n) <==> n == CommentLength(x, t).value
  {
    hide FindFrom;
    BlockOpens(t);
    LineOpens(x, t);
    FindFromIsFirst(t, "\n", 1);
    assert t[0] != '\n' by { assert OpensLineComment(x, t); }
    assert forall j :: 0 <= j < |t| ==> t[j..j + 1] == [t[j]];
    assert forall j :: 0 <= j < |t| ==> (Occurs(t, "\n", j) <==> t[j] == '\n');
  }

  lemma CommentIs(x: Lexis, t: string)
    requires t != ""
    ensures CommentLength(x, t).Some? <==> StartsBlock(t) || StartsLine(x, t)
    ensures CommentLength(x, t).Some? ==> forall n :: IsComment(x, t, n) <==> n == CommentLength(x, t).value
  {
    if StartsBlock(t) {
      BlockLength(x, t);
    } else if StartsLine(x, t) {
      LineLength(x, t);
    } else {
      BlockOpens(t);
      LineOpens(x, t);
    }
  }

  lemma {:induction false} WordRunIs(x: Lexis, t: string)
    ensures var w := WordRun(x, t);
            w <= t && (forall i :: 0 <= i < |w| ==> x.isWord(w[i])) && (|w| == |t| || !x.isWord(t[|w|]))
  {
    if t != "" && x.isWord(t[0]) {
      WordRunIs(x, t[1..]);
    }
  }

  /** Two words at one place that both end there are one. */
  lemma SameWord(x: Lexis, t: string, a: string, b: string)
    requires a <= t && (forall i :: 0 <= i < |a| ==> x.isWord(a[i])) && (|a| == |t| || !x.isWord(t[|a|]))
    requires b <= t && (forall i :: 0 <= i < |b| ==> x.isWord(b[i])) && (|b| == |t| || !x.isWord(t[|b|]))
    ensures a == b
  {
    assert forall i :: 0 <= i < |a| ==> a[i] == t[i] && x.isWord(t[i]);
    assert forall i :: 0 <= i < |b| ==> b[i] == t[i] && x.isWord(t[i]);
    assert |a| == |b|;
  }

  lemma {:induction false} LongCommandIs(x: Lexis, t: string)
    ensures forall w :: IsLong(x, t, w) <==> LongCommand(x, t) == Some(w)
    decreases |t|
  {
    hide IsLong, WordRun;
    if t != "" && IsBlank(t[0]) {
      LongCommandIs(x, t[1..]);
      forall w ensures IsLong(x, t, w) <==> IsLong(x, t[1..], w) {
        LongBehindBlank(x, t, w);
      }
    } else {
      forall w ensures IsLong(x, t, w) <==> x.isLongCommand(WordRun(x, t)) && w == WordRun(x, t) {
        LongAtOnce(x, t, w);
      }
    }
  }

  lemma LongBehindBlank(x: Lexis, t: string, w: string)
    requires t != "" && IsBlank(t[0])
    ensures IsLong(x, t, w) <==> IsLong(x, t[1..], w)
  {
    if IsLong(x, t, w) {
      var k: nat :| IsLongAt(x, t, w, k);
      assert k > 0;
      assert IsLongAt(x, t[1..], w, k - 1) by { assert t[1..][k - 1..k - 1 + |w|] == t[k..k + |w|]; }
    }
    if IsLong(x, t[1..], w) {
      var k: nat :| IsLongAt(x, t[1..], w, k);
      assert IsLongAt(x, t, w, k + 1) by { assert t[1..][k..k + |w|] == t[k + 1..k + 1 + |w|]; }
    }
  }

  lemma LongAtOnce(x: Lexis, t: string, w: string)
    requires t == "" || !IsBlank(t[0])
    ensures IsLong(x, t, w) <==> x.isLongCommand(WordRun(x, t)) && w == WordRun(x, t)
  {
    hide WordRun;
    var v := WordRun(x, t);
    WordRunIs(x, t);
    if IsLong(x, t, w) {
      var k: nat :| IsLongAt(x, t, w, k);
      assert k == 0;
      assert t[..|w|] == w;
      SameWord(x, t, v, w);
    }
    if x.isLongCommand(v) && w == v {
      assert IsLongAt(x, t, w, 0);
    }
  }

  // --- the scan goes from piece to piece ---------------------------------------------------------------------------

  ghost predicate IsSane(x: Lexis) {
    !x.isSpace('\'') && !x.isSpace('"') && !x.isSpace('`')
  }

  lemma SlashesStop(t: string, j: nat)
    requires j <= |t| && (j <= 1 || t[j - 1] != '\\')
    ensures Slashes(t, j) == 0
  {
  }

  lemma SlashesAfterTwo(t: string, i: nat)
    requires 1 <= i && i + 2 <= |t| && t[i] == '\\' && Slashes(t, i) % 2 == 0
    ensures Slashes(t, i + 1) % 2 == 1 && Slashes(t, i + 2) % 2 == 0
  {
    assert Slashes(t, i + 1) == 1 + Slashes(t, i);
    if t[i + 1] == '\\' {
      assert Slashes(t, i + 2) == 1 + Slashes(t, i + 1);
    }
  }

  lemma ScanInQuote(x: Lexis, escapes: bool, s: string, q: char, idle: bool)
    requires s != "" && q != '\\'
    ensures Scan(x, escapes, s, Some(q), idle) ==
              if s[0] == q then Scan(x, escapes, Drop(s, 1), None, idle)
              else Scan(x, escapes, Drop(s, if s[0] == '\\' && escapes then 2 else 1), Some(q), idle)
  {
  }

  /** From a character of the string that nothing escapes, the scan comes out right behind the string. */
  lemma {:induction false} QuoteSkips(x: Lexis, escapes: bool, t: string, i: nat, n: nat, idle: bool)
    requires StartsQuoted(t) && IsQuoted(escapes, t, n) && i >= 1
    requires escapes && i <= |t| ==> Slashes(t, i) % 2 == 0
    requires forall j :: 1 <= j < i ==> !ClosesAt(escapes, t, j)
    ensures Scan(x, escapes, Drop(t, i), Some(t[0]), idle) == Scan(x, escapes, t[n..], None, idle)
    decreases |t| + 2 - i
  {
    hide Scan;
    if i >= |t| {
      assert n == |t| && t[n..] == "" && Drop(t, i) == "";
      NothingToScan(x, escapes, "", Some(t[0]), idle);
      NothingToScan(x, escapes, "", None, idle);
    } else {
      var c := t[i];
      ScanInQuote(x, escapes, t[i..], t[0], idle);
      assert Drop(t[i..], 1) == Drop(t, i + 1);
      if c == t[0] {
        assert ClosesAt(escapes, t, i);
        assert n == i + 1;
      } else if c == '\\' && escapes {
        assert Drop(t[i..], 2) == Drop(t, i + 2);
        if i + 2 <= |t| {
          SlashesAfterTwo(t, i);
        }
        QuoteSkips(x, escapes, t, i + 2, n, idle);
      } else {
        if escapes {
          SlashesStop(t, i + 1);
        }
        QuoteSkips(x, escapes, t, i + 1, n, idle);
      }
    }
  }

  /** Whether a statement starts after the first piece of the text. */
  predicate StatementAfter(x: Lexis, t: string, statement: bool)
    requires t != ""
  {
    t[0] == ';' || (statement && (StartsBlock(t) || StartsLine(x, t) || x.isSpace(t[0])))
  }

  /** Where no command starts, the scan goes on behind the piece. */
  lemma PieceIsPassed(x: Lexis, escapes: bool, t: string, n: nat, statement: bool)
    requires IsSane(x) && t != "" && n <= |t| && IsPiece(x, escapes, t, n)
    requires forall w :: !IsCommandHere(x, t, statement, w)
    ensures Scan(x, escapes, t, None, statement) == Scan(x, escapes, t[n..], None, StatementAfter(x, t, statement))
  {
    hide LongCommand, CommentLength, IsLong, IsComment, IsQuoted;
    LongCommandIs(x, t);
    CommentIs(x, t);
    if statement && LongCommand(x, t).Some? {
      assert IsCommandHere(x, t, statement, LongCommand(x, t).value);
    }
    if StartsBlock(t) || StartsLine(x, t) {
      assert n == CommentLength(x, t).value;
      assert !IsCommandHere(x, t, statement, t[..n]);
      NoCommentAtSemicolon(x, t);
    } else {
      BackslashIsCommand(x, t, statement);
      if StartsQuoted(t) {
        assert Drop(t, 1) == t[1..];
        QuoteSkips(x, escapes, t, 1, n, StatementAfter(x, t, statement));
      }
    }
  }

  lemma NoCommentAtSemicolon(x: Lexis, t: string)
    requires StartsBlock(t) || StartsLine(x, t)
    ensures t[0] != ';'
  {
  }

  lemma StartsNull(t: string)
    requires t != ""
    ensures "\\N" <= t <==> t[0] == '\\' && |t| > 1 && t[1] == 'N'
  {
    if |t| > 1 {
      assert t[..2] == [t[0], t[1]];
    }
  }

  lemma BackslashIsCommand(x: Lexis, t: string, statement: bool)
    requires t != "" && !StartsBlock(t) && !StartsLine(x, t) && forall w :: !IsCommandHere(x, t, statement, w)
    ensures !(t[0] == '\\' && !(|t| > 1 && t[1] == 'N'))
  {
    hide IsLong;
    StartsNull(t);
    if statement && exists v :: IsLong(x, t, v) {
      var v :| IsLong(x, t, v);
      assert IsCommandHere(x, t, statement, v);
    } else {
      assert !IsCommandHere(x, t, statement, t[..if |t| > 1 then 2 else 1]);
    }
  }

  /** Where a command starts, the scan gives it. */
  lemma CommandIsGiven(x: Lexis, escapes: bool, t: string, statement: bool, w: string)
    requires t != "" && IsCommandHere(x, t, statement, w)
    ensures Scan(x, escapes, t, None, statement) == Some(w)
  {
    hide LongCommand, CommentLength, IsLong, IsComment, StartsBlock, StartsLine;
    LongCommandIs(x, t);
    CommentIs(x, t);
    if statement && LongCommand(x, t).Some? {
      assert IsLong(x, t, LongCommand(x, t).value);
    } else {
      assert !(statement && exists v :: IsLong(x, t, v));
      if StartsBlock(t) || StartsLine(x, t) {
        var n: nat :| n <= |t| && IsComment(x, t, n) && '\\' in t[..n] && w == t[..n];
        assert n == CommentLength(x, t).value;
      } else {
        StartsNull(t);
        assert t[..|t|] == t;
        assert Next(x, escapes, t, None, statement) == Found(w);
      }
    }
  }

  // --- positions in order ------------------------------------------------------------------------------------------

  function QuotedFrom(escapes: bool, t: string, i: nat): nat
    decreases |t| - i
  {
    if i >= |t| then |t| else if ClosesAt(escapes, t, i) then i + 1 else QuotedFrom(escapes, t, i + 1)
  }

  lemma {:induction false} QuotedFromIs(escapes: bool, t: string, i: nat)
    requires t != "" && i >= 1 && forall j :: 1 <= j < i ==> !ClosesAt(escapes, t, j)
    ensures IsQuoted(escapes, t, QuotedFrom(escapes, t, i))
    decreases |t| - i
  {
    hide ClosesAt;
    if i < |t| && !ClosesAt(escapes, t, i) {
      QuotedFromIs(escapes, t, i + 1);
    }
  }

  /** Every text starts with exactly one piece. */
  lemma PieceExists(x: Lexis, escapes: bool, t: string) returns (n: nat)
    requires t != ""
    ensures 1 <= n <= |t| && forall m :: IsPiece(x, escapes, t, m) <==> m == n
  {
    hide CommentLength, ClosesAt, IsComment;
    CommentIs(x, t);
    if StartsBlock(t) || StartsLine(x, t) {
      n := CommentLength(x, t).value;
    } else if StartsQuoted(t) {
      QuotedFromIs(escapes, t, 1);
      n := QuotedFrom(escapes, t, 1);
      forall m | IsQuoted(escapes, t, m) ensures m == n {
        OneQuoted(escapes, t, m, n);
      }
    } else {
      n := 1;
    }
  }

  lemma OneQuoted(escapes: bool, t: string, m: nat, n: nat)
    requires IsQuoted(escapes, t, m) && IsQuoted(escapes, t, n)
    ensures m == n
  {
    hide ClosesAt;
    assert ClosesAt(escapes, t, m - 1) ==> m - 1 >= 1 by { ClosingIsBehind(escapes, t, m - 1); }
    assert ClosesAt(escapes, t, n - 1) ==> n - 1 >= 1 by { ClosingIsBehind(escapes, t, n - 1); }
  }

  lemma ClosingIsBehind(escapes: bool, t: string, j: nat)
    ensures ClosesAt(escapes, t, j) ==> 1 <= j < |t|
  {
  }

  /** No piece reaches over a position outside. */
  lemma {:induction false} PiecesEndBefore(x: Lexis, escapes: bool, s: string, i: nat, j: nat, n: nat)
    requires j < i <= |s| && IsOutside(x, escapes, s, i) && IsOutside(x, escapes, s, j)
    requires IsPiece(x, escapes, s[j..], n)
    ensures j + n <= i
    decreases i
  {
    hide IsPiece;
    var p: nat :| p < i && IsOutside(x, escapes, s, p) && IsPiece(x, escapes, s[p..], i - p);
    if j < p {
      PiecesEndBefore(x, escapes, s, p, j, n);
    } else if j == p {
      var m := PieceExists(x, escapes, s[j..]);
    } else {
      PiecesEndBefore(x, escapes, s, j, p, i - p);
    }
  }

  lemma OnlyPieceBefore(x: Lexis, escapes: bool, s: string, j: nat, m: nat, p: nat, n: nat)
    requires m > 0 && n > 0 && j + m == p + n <= |s|
    requires IsOutside(x, escapes, s, j) && IsPiece(x, escapes, s[j..], m)
    requires IsOutside(x, escapes, s, p) && IsPiece(x, escapes, s[p..], n)
    ensures p == j
  {
    hide IsPiece, IsOutside;
    if p < j {
      PiecesEndBefore(x, escapes, s, j, p, n);
    } else if j < p {
      PiecesEndBefore(x, escapes, s, p, j, m);
    }
  }

  /** A statement starts at `i` because of the piece of length `n` that ends there. */
  ghost predicate StartsBecause(x: Lexis, escapes: bool, s: string, i: nat, n: nat)
    requires 0 < n <= i <= |s|
  {
    && IsOutside(x, escapes, s, i - n) && IsPiece(x, escapes, s[i - n..], n)
    && StatementAfter(x, s[i - n..], StartsStatement(x, escapes, s, i - n))
  }

  lemma StatementUnfolds(x: Lexis, escapes: bool, s: string, i: nat)
    requires 0 < i <= |s|
    ensures StartsStatement(x, escapes, s, i) <==> exists n: nat :: 0 < n <= i && StartsBecause(x, escapes, s, i, n)
  {
    hide IsPiece, IsOutside, StartsBlock, StartsLine;
    if StartsStatement(x, escapes, s, i) {
      var j: nat :| && j < i && IsOutside(x, escapes, s, j) && IsPiece(x, escapes, s[j..], i - j)
                    && (s[j] == ';' ||
                        (StartsStatement(x, escapes, s, j) &&
                         (StartsBlock(s[j..]) || StartsLine(x, s[j..]) || x.isSpace(s[j]))));
      var n := i - j;
      assert i - n == j;
      assert StartsBecause(x, escapes, s, i, n);
    }
    if n: nat :| 0 < n <= i && StartsBecause(x, escapes, s, i, n) {
      var j := i - n;
      assert i - j == n;
      assert IsOutside(x, escapes, s, j) && IsPiece(x, escapes, s[j..], i - j);
    }
  }

  lemma OutsideBehind(x: Lexis, escapes: bool, s: string, j: nat, n: nat)
    requires n >= 1 && j + n <= |s| && IsOutside(x, escapes, s, j) && IsPiece(x, escapes, s[j..], n)
    ensures IsOutside(x, escapes, s, j + n)
  {
    hide IsPiece;
    assert j + n - j == n;
  }

  /** Behind a piece a statement starts exactly if the piece is a semicolon, or it started there and the piece counts
      for nothing. */
  lemma StatementBehind(x: Lexis, escapes: bool, s: string, j: nat, n: nat)
    requires n >= 1 && j + n <= |s| && IsOutside(x, escapes, s, j) && IsPiece(x, escapes, s[j..], n)
    ensures StartsStatement(x, escapes, s, j + n) <==>
              StatementAfter(x, s[j..], StartsStatement(x, escapes, s, j))
  {
    hide IsPiece, IsOutside, StartsStatement, StatementAfter;
    var i := j + n;
    assert i - n == j;
    StatementUnfolds(x, escapes, s, i);
    if m: nat :| 0 < m <= i && StartsBecause(x, escapes, s, i, m) {
      OnlyPieceBefore(x, escapes, s, i - m, m, j, n);
    }
    assert StartsBecause(x, escapes, s, i, n) <==> StatementAfter(x, s[j..], StartsStatement(x, escapes, s, j));
  }

  // --- the first command -------------------------------------------------------------------------------------------

  ghost predicate NothingBefore(x: Lexis, escapes: bool, s: string, i: nat)
    requires i <= |s|
  {
    forall j: nat, w :: j < i && IsOutside(x, escapes, s, j) ==> !IsCommand(x, escapes, s, j, w)
  }

  /** From a position before which there is no command, the scan finds the first one or there is none. */
  lemma {:induction false} SearchFrom(x: Lexis, escapes: bool, s: string, i: nat)
    requires IsSane(x) && i <= |s| && IsOutside(x, escapes, s, i) && NothingBefore(x, escapes, s, i)
    ensures var r := Scan(x, escapes, s[i..], None, StartsStatement(x, escapes, s, i));
            if r.Some? then IsFirst(x, escapes, s, r.value) else !HasCommand(x, escapes, s)
    decreases |s| - i
  {
    hide Scan, IsOutside, StartsStatement, IsCommandHere, IsPiece;
    var statement := StartsStatement(x, escapes, s, i);
    if i == |s| {
      assert s[i..] == "";
      NothingToScan(x, escapes, "", None, statement);
    } else {
      var t := s[i..];
      if w :| IsCommandHere(x, t, statement, w) {
        CommandIsGiven(x, escapes, t, statement, w);
        assert IsCommand(x, escapes, s, i, w);
      } else {
        var n := PieceExists(x, escapes, t);
        PieceIsPassed(x, escapes, t, n, statement);
        OutsideBehind(x, escapes, s, i, n);
        StatementBehind(x, escapes, s, i, n);
        assert t[n..] == s[i + n..];
        assert NothingBefore(x, escapes, s, i + n) by { NothingInPiece(x, escapes, s, i, n); }
        SearchFrom(x, escapes, s, i + n);
      }
    }
  }

  lemma NothingInPiece(x: Lexis, escapes: bool, s: string, i: nat, n: nat)
    requires i + n <= |s| && n >= 1 && IsOutside(x, escapes, s, i) && IsPiece(x, escapes, s[i..], n)
    requires NothingBefore(x, escapes, s, i) && forall w :: !IsCommand(x, escapes, s, i, w)
    ensures NothingBefore(x, escapes, s, i + n)
  {
    hide IsCommand, IsPiece, IsOutside;
    forall j: nat, w | j < i + n && IsOutside(x, escapes, s, j) ensures !IsCommand(x, escapes, s, j, w) {
      if i < j {
        PiecesEndBefore(x, escapes, s, j, i, n);
      }
    }
  }

  lemma OneCommand(x: Lexis, t: string, statement: bool, v: string, w: string)
    requires t != "" && IsCommandHere(x, t, statement, v) && IsCommandHere(x, t, statement, w)
    ensures v == w
  {
    CommandIsGiven(x, true, t, statement, v);
    CommandIsGiven(x, true, t, statement, w);
  }

  /** Under one reading: the scan gives the first command, and nothing exactly when there is none. */
  lemma ScanFindsTheFirst(x: Lexis, escapes: bool, s: string)
    requires IsSane(x)
    ensures forall w :: Scan(x, escapes, s, None, true) == Some(w) <==> IsFirst(x, escapes, s, w)
    ensures Scan(x, escapes, s, None, true).None? <==> !HasCommand(x, escapes, s)
  {
    hide Scan, IsCommandHere;
    assert IsOutside(x, escapes, s, 0) && StartsStatement(x, escapes, s, 0) && s[0..] == s;
    hide IsOutside, StartsStatement;
    SearchFrom(x, escapes, s, 0);
    forall v, w | IsFirst(x, escapes, s, v) && IsFirst(x, escapes, s, w) ensures v == w {
      var i: nat :| i < |s| && IsOutside(x, escapes, s, i) && IsCommand(x, escapes, s, i, v)
                    && forall j: nat, u :: j < i && IsOutside(x, escapes, s, j) ==> !IsCommand(x, escapes, s, j, u);
      var k: nat :| k < |s| && IsOutside(x, escapes, s, k) && IsCommand(x, escapes, s, k, w)
                    && forall j: nat, u :: j < k && IsOutside(x, escapes, s, j) ==> !IsCommand(x, escapes, s, j, u);
      assert i == k;
      OneCommand(x, s[i..], StartsStatement(x, escapes, s, i), v, w);
    }
    forall w | IsFirst(x, escapes, s, w) ensures HasCommand(x, escapes, s) {
    }
  }

  /** The answer is the first command under the reading with escapes, or if there is none, under the one without; there
      is no answer exactly when neither has any. */
  lemma CommandsAreFound(x: Lexis, s: string)
    requires IsSane(x)
    ensures forall w :: Command(x, s) == Some(w) <==>
              IsFirst(x, true, s, w) || (!HasCommand(x, true, s) && IsFirst(x, false, s, w))
    ensures Command(x, s).Some? <==> HasCommand(x, true, s) || HasCommand(x, false, s)
  {
    hide Scan, IsFirst, HasCommand;
    ScanFindsTheFirst(x, true, s);
    ScanFindsTheFirst(x, false, s);
  }

  /** The shell command is found, and the NULL literal is none. */
  lemma ShellAndNull(x: Lexis)
    requires IsSane(x) && !x.isLongCommand("") && !x.isWord('\\') && !x.isLongCommand("N") && x.isWord('N')
    requires !x.isSpace('\\')
    ensures Command(x, "\\!") == Some("\\!") && Command(x, "\\N").None?
  {
    assert WordRun(x, "\\!") == "" && WordRun(x, "\\N") == "";
    assert LongCommand(x, "\\!").None? && LongCommand(x, "\\N").None?;
    assert "\\!"[..2] == "\\!";
    assert Drop("\\N", 1) == "N" && Drop("N", 1) == "";
  }
}
