/**
 The scan for mysql-client commands in SQL text and the printer of string literals (`services/sql.py`): a literal the
 printer wrote never changes what the scan sees around it.
 */
module MysqlScan {
  import opened Wrappers

  /** Character classes and the names of the long commands (`system`, `tee`, ...) in any case. */
  datatype Lexis = Lexis(isSpace: char -> bool, isWord: char -> bool, isLongCommand: string -> bool)

  /** How many characters come before the first `p` at or after position `i`. */
  function FindFrom(s: string, p: string, i: nat): (r: Option<nat>)
    ensures r.Some? ==> i <= r.value && r.value + |p| <= |s| && s[r.value..r.value + |p|] == p
    decreases |s| - i
  {
    if i + |p| > |s| then None else if s[i..i + |p|] == p then Some(i) else FindFrom(s, p, i + 1)
  }

  function WordRun(x: Lexis, s: string): string {
    if s == "" || !x.isWord(s[0]) then "" else [s[0]] + WordRun(x, s[1..])
  }

  predicate IsBlank(ch: char) {
    ch == ' ' || ch == '\t' || ch == '\r'
  }

  /** The long command at the start of the text, after blanks. */
  function LongCommand(x: Lexis, s: string): Option<string> {
    if s != "" && IsBlank(s[0]) then LongCommand(x, s[1..])
    else
      var w := WordRun(x, s);
      if x.isLongCommand(w) then Some(w) else None
  }

  predicate OpensBlockComment(s: string) {
    |s| >= 2 && s[0] == '/' && s[1] == '*' && !(|s| > 2 && (s[2] == '!' || s[2] == '+'))
  }

  predicate OpensLineComment(x: Lexis, s: string) {
    (s != "" && s[0] == '#') || (|s| >= 2 && s[0] == '-' && s[1] == '-' && (|s| == 2 || x.isSpace(s[2])))
  }

  /** `_mysql_comment_end`, as a length: of the comment the text starts with, if it does. */
  function CommentLength(x: Lexis, s: string): (r: Option<nat>)
    requires s != ""
    ensures r.Some? ==> 0 < r.value <= |s|
  {
    if OpensBlockComment(s) then
      var j := FindFrom(s, "*/", 2);
      Some(if j.None? then |s| else j.value + 2)
    else if OpensLineComment(x, s) then
      var j := FindFrom(s, "\n", 1);
      Some(if j.None? then |s| else j.value)
    else None
  }

  predicate IsQuote(ch: char) {
    ch == '\'' || ch == '"' || ch == '`'
  }

  function Drop(s: string, n: nat): (r: string)
    ensures |r| == if n <= |s| then |s| - n else 0
  {
    if n <= |s| then s[n..] else ""
  }

  /** One turn of the loop: a command found, a comment of some length, or characters passed over. */
  datatype Move = Found(text: string) | Comment(length: nat) | Past(length: nat, quote: Option<char>, idle: bool)

  /** The next turn, inside the quote or outside; `idle` before a statement has begun. */
  function Next(x: Lexis, escapes: bool, s: string, quote: Option<char>, idle: bool): (m: Move)
    requires s != ""
    ensures m.Comment? ==> 0 < m.length <= |s|
    ensures m.Past? ==> 0 < m.length
  {
    if quote.Some? then Past(if s[0] == '\\' && escapes then 2 else 1, if s[0] == quote.value then None
        else quote, idle)
    else if idle && LongCommand(x, s).Some? then Found(LongCommand(x, s).value)
    else
      var comment := CommentLength(x, s);
      if comment.Some? then Comment(comment.value)
      else if s[0] == '\\' && !(|s| > 1 && s[1] == 'N') then Found(if |s| > 1 then s[..2] else s)
      else Past(1, if IsQuote(s[0]) then Some(s[0]) else None, s[0] == ';' || (idle && x.isSpace(s[0])))
  }

  /** Scanning the rest of the text. A backslash inside a comment counts as a command too. */
  function Scan(x: Lexis, escapes: bool, s: string, quote: Option<char>, idle: bool): Option<string>
    decreases |s|
  {
    if s == "" then None
    else
      match Next(x, escapes, s, quote, idle)
      case Found(text) => Some(text)
      case Comment(n) => if '\\' in s[..n] then Some(s[..n]) else Scan(x, escapes, s[n..], None, idle)
      case Past(n, q, i) => Scan(x, escapes, Drop(s, n), q, i)
  }

  /** Both readings of a backslash, one after the other. */
  function Command(x: Lexis, sql: string): Option<string> {
    var r := Scan(x, true, sql, None, true);
    if r.Some? then r else Scan(x, false, sql, None, true)
  }

  /** `mysql_client_command` */
  method MysqlClientCommand(x: Lexis, sql: string) returns (r: Option<string>)
    ensures r == Command(x, sql)
  {
    r := ScanOnce(x, sql, true);
    if r.None? {
      r := ScanOnce(x, sql, false);
    }
  }

  method ScanOnce(x: Lexis, sql: string, escapes: bool) returns (r: Option<string>)
    ensures r == Scan(x, escapes, sql, None, true)
  {
    hide LongCommand, CommentLength, Scan;
    var i, quote: Option<char>, idle := 0, None, true;
    assert sql[0..] == sql;
    while i < |sql|
      invariant Scan(x, escapes, sql, None, true) == Scan(x, escapes, Drop(sql, i), quote, idle)
      decreases |sql| - i
    {
      var c, rest := sql[i], sql[i..];
      ScanAt(x, escapes, sql, i, quote, idle);
      if quote.Some? {
        i := i + if c == '\\' && escapes then 2 else 1;
        quote := if Some(c) == quote then None else quote;
        continue;
      }
      if idle {
        var m := LongCommand(x, rest);
        if m.Some? {
          return m;
        }
      }
      var comment := CommentLength(x, rest);
      if comment.Some? {
        if '\\' in rest[..comment.value] {
          return Some(rest[..comment.value]);
        }
        i := i + comment.value;
        continue;
      }
      if c == '\\' && !(i + 1 < |sql| && sql[i + 1] == 'N') {
        return Some(if i + 1 < |sql| then rest[..2] else rest);
      }
      quote := if IsQuote(c) then Some(c) else None;
      idle := c == ';' || (idle && x.isSpace(c));
      i := i + 1;
    }
    NothingToScan(x, escapes, Drop(sql, i), quote, idle);
    r := None;
  }

  lemma NothingToScan(x: Lexis, escapes: bool, s: string, quote: Option<char>, idle: bool)
    requires s == ""
    ensures Scan(x, escapes, s, quote, idle).None?
  {
  }

  /** The turn at a position. */
  lemma ScanAt(x: Lexis, escapes: bool, sql: string, i: nat, quote: Option<char>, idle: bool)
    requires i < |sql|
    ensures var s := sql[i..]; var m := Next(x, escapes, s, quote, idle);
            Scan(x, escapes, Drop(sql, i), quote, idle) ==
            if m.Found? then Some(m.text)
            else if m.Comment? then
              if '\\' in s[..m.length] then Some(s[..m.length])
                  else Scan(x, escapes, Drop(sql, i + m.length), None, idle)
            else Scan(x, escapes, Drop(sql, i + m.length), m.quote, m.idle)
    ensures sql[i..][0] == sql[i] && (i + 1 < |sql| ==> sql[i..][1] == sql[i + 1])
  {
    hide Next;
    var s, m := sql[i..], Next(x, escapes, sql[i..], quote, idle);
    if m.Comment? {
      assert s[m.length..] == Drop(sql, i + m.length);
    } else if m.Past? {
      assert Drop(s, m.length) == Drop(sql, i + m.length);
    }
  }

  // --- literals ------------------------------------------------------------------------------------------------------

  /** `s.replace(ch, with)` for one character. */
  function Replaced(s: string, ch: char, with: string): string {
    if s == "" then "" else (if s[0] == ch then with else [s[0]]) + Replaced(s[1..], ch, with)
  }

  /** `lit` */
  function Lit(s: string, backslash: bool): string {
    var t := if backslash then Replaced(s, '\\', "\\\\") else s;
    "'" + Replaced(t, '\'', "''") + "'"
  }

  /** The text of a literal between its quotes, character by character. */
  function Inner(s: string): string {
    if s == "" then ""
    else (if s[0] == '\\' then "\\\\" else if s[0] == '\'' then "''" else [s[0]]) + Inner(s[1..])
  }

  lemma {:induction false} ReplacedConcat(a: string, b: string, ch: char, with: string)
    ensures Replaced(a + b, ch, with) == Replaced(a, ch, with) + Replaced(b, ch, with)
  {
    hide Replaced;
    assert Replaced("", ch, with) == "" by { ReplacedNothing(ch, with); }
    if a == "" {
      assert a + b == b;
    } else {
      ReplacedConcat(a[1..], b, ch, with);
      ReplacedFirst(a, ch, with);
      ReplacedFirst(a + b, ch, with);
      assert (a + b)[1..] == a[1..] + b;
    }
  }

  lemma ReplacedNothing(ch: char, with: string)
    ensures Replaced("", ch, with) == ""
  {
  }

  lemma ReplacedFirst(s: string, ch: char, with: string)
    requires s != ""
    ensures Replaced(s, ch, with) == (if s[0] == ch then with else [s[0]]) + Replaced(s[1..], ch, with)
  {
  }

  lemma {:induction false} LitIsInner(s: string)
    ensures Lit(s, true) == "'" + Inner(s) + "'"
  {
    InnerIsReplaced(s);
  }

  lemma {:induction false} InnerIsReplaced(s: string)
    ensures Replaced(Replaced(s, '\\', "\\\\"), '\'', "''") == Inner(s)
  {
    if s != "" {
      InnerIsReplaced(s[1..]);
      var first := if s[0] == '\\' then "\\\\" else [s[0]];
      ReplacedConcat(first, Replaced(s[1..], '\\', "\\\\"), '\'', "''");
      if s[0] == '\\' {
        TwoBackslashes();
      } else {
        assert [s[0]][1..] == "";
        assert Replaced([s[0]], '\'', "''") == (if s[0] == '\'' then "''" else [s[0]]) + Replaced("", '\'', "''");
      }
    }
  }

  lemma TwoBackslashes()
    ensures Replaced("\\\\", '\'', "''") == "\\\\"
  {
    assert "\\\\"[1..] == "\\";
    assert "\\"[1..] == "";
    assert Replaced("\\", '\'', "''") == "\\" + Replaced("", '\'', "''");
  }

  /** Under either reading, the scan enters the literal and leaves it exactly at its end. */
  lemma {:induction false} InsideLiteral(x: Lexis, escapes: bool, s: string, b: string)
    ensures Scan(x, escapes, Inner(s) + "'" + b, Some('\''), false) == Scan(x, escapes, b, None, false)
    decreases |s|
  {
    hide Scan;
    if s == "" {
      assert Inner(s) + "'" + b == ['\''] + b;
      CharInQuotes(x, escapes, '\'', b, '\'');
    } else {
      var rest := Inner(s[1..]) + "'" + b;
      InsideLiteral(x, escapes, s[1..], b);
      if s[0] == '\\' {
        assert Inner(s) + "'" + b == ['\\'] + (['\\'] + rest);
        TwoInQuotes(x, escapes, rest);
      } else if s[0] == '\'' {
        assert Inner(s) + "'" + b == ['\''] + (['\''] + rest);
        CharInQuotes(x, escapes, '\'', ['\''] + rest, '\'');
        QuoteAgain(x, escapes, rest);
      } else {
        assert Inner(s) + "'" + b == [s[0]] + rest;
        CharInQuotes(x, escapes, s[0], rest, '\'');
      }
    }
  }

  lemma CharInQuotes(x: Lexis, escapes: bool, ch: char, rest: string, quote: char)
    requires ch != '\\' || !escapes
    ensures Scan(x, escapes, [ch] + rest, Some(quote), false) ==
        Scan(x, escapes, rest, if ch == quote then None else Some(quote), false)
  {
    assert Drop([ch] + rest, 1) == rest;
  }

  lemma TwoInQuotes(x: Lexis, escapes: bool, rest: string)
    ensures Scan(x, escapes, ['\\'] + (['\\'] + rest), Some('\''), false) == Scan(x, escapes, rest, Some('\''), false)
  {
    if escapes {
      assert Drop(['\\'] + (['\\'] + rest), 2) == rest;
    } else {
      CharInQuotes(x, escapes, '\\', ['\\'] + rest, '\'');
      CharInQuotes(x, escapes, '\\', rest, '\'');
    }
  }

  lemma QuoteAgain(x: Lexis, escapes: bool, rest: string)
    ensures Scan(x, escapes, ['\''] + rest, None, false) == Scan(x, escapes, rest, Some('\''), false)
  {
    hide LongCommand;
    var t := ['\''] + rest;
    assert t[0] == '\'' && Drop(t, 1) == rest;
    assert Next(x, escapes, t, None, false) == Past(1, Some('\''), false);
  }

  // --- the text before a literal -----------------------------------------------------------------------------------

  /** How the scan of the text before a quote character ends. */
  datatype Ending = Stopped(found: string) | Outside(idle: bool) | Within

  /** The scan of `a` when a single quote follows it: where it stops, or how it reaches the quote. */
  function EndOf(x: Lexis, escapes: bool, a: string, quote: Option<char>, idle: bool): Ending
    decreases |a|
  {
    if a == "" then if quote.None? then Outside(idle) else Within
    else
      match Next(x, escapes, a + "'", quote, idle)
      case Found(text) => Stopped(text)
      case Comment(n) =>
        if n > |a| then Within else if '\\' in a[..n] then Stopped(a[..n]) else EndOf(x, escapes, a[n..], None, idle)
      case Past(n, q, i) => if n > |a| then Within else EndOf(x, escapes, a[n..], q, i)
  }

  lemma {:induction false} WordRunStops(x: Lexis, a: string, b: string)
    requires !x.isWord('\'')
    ensures WordRun(x, a + "'" + b) == WordRun(x, a + "'")
  {
    if a == "" {
      assert a + "'" + b == "'" + b;
    } else {
      WordRunStops(x, a[1..], b);
      assert (a + "'" + b)[1..] == a[1..] + "'" + b && (a + "'")[1..] == a[1..] + "'";
    }
  }

  /** A long command does not reach over a quote. */
  lemma {:induction false} LongCommandStops(x: Lexis, a: string, b: string)
    requires !x.isWord('\'')
    ensures LongCommand(x, a + "'" + b) == LongCommand(x, a + "'")
  {
    hide WordRun;
    WordRunStops(x, a, b);
    if a != "" && IsBlank(a[0]) {
      LongCommandStops(x, a[1..], b);
      assert (a + "'" + b)[1..] == a[1..] + "'" + b && (a + "'")[1..] == a[1..] + "'";
    }
  }

  lemma {:induction false} FoundBefore(a: string, b: string, p: string, i: nat)
    requires FindFrom(a, p, i).Some?
    ensures FindFrom(a + b, p, i) == FindFrom(a, p, i)
    decreases |a| - i
  {
    assert (a + b)[i..i + |p|] == a[i..i + |p|];
    if a[i..i + |p|] != p {
      FoundBefore(a, b, p, i + 1);
    }
  }

  lemma CommentOverPrefix(x: Lexis, a: string, b: string)
    requires a != "" && !x.isSpace('\'')
    ensures var u, t := a + "'", a + "'" + b;
            && (CommentLength(x, u).Some? <==> CommentLength(x, t).Some?)
            && (CommentLength(x, u).Some? && CommentLength(x, u).value <= |a| ==>
                CommentLength(x, t) == CommentLength(x, u))
  {
    hide FindFrom;
    var u, t := a + "'", a + "'" + b;
    assert t == u + b;
    assert u[0] == a[0] && t[0] == a[0] && t[1] == u[1] && (|a| > 1 ==> t[2] == u[2]);
    assert OpensBlockComment(u) <==> OpensBlockComment(t) by { assert |a| == 1 ==> t[1] == '\''; }
    assert OpensLineComment(x, u) <==> OpensLineComment(x, t) by {
      assert |a| == 1 ==> t[1] == '\'';
      assert |a| == 2 ==> t[2] == '\'';
    }
    if FindFrom(u, "*/", 2).Some? {
      FoundBefore(u, b, "*/", 2);
    }
    if FindFrom(u, "\n", 1).Some? {
      FoundBefore(u, b, "\n", 1);
    }
  }

  /** What follows the quote does not change the turns before it. */
  lemma NextOverPrefix(x: Lexis, escapes: bool, a: string, quote: Option<char>, idle: bool, b: string)
    requires a != "" && !x.isWord('\'') && !x.isSpace('\'')
    ensures var m := Next(x, escapes, a + "'", quote, idle);
            (m.Comment? ==> m.length <= |a|) ==> Next(x, escapes, a + "'" + b, quote, idle) == m
  {
    hide LongCommand, CommentLength;
    var u, t := a + "'", a + "'" + b;
    LongCommandStops(x, a, b);
    CommentOverPrefix(x, a, b);
    assert u[0] == t[0] && u[1] == t[1] && u[..2] == t[..2];
  }

  /** The scan of a text that goes on with a quote: it stops in `a`, or goes on from the quote, or is inside
      something. */
  lemma {:induction false} ScanOverPrefix(x: Lexis, escapes: bool, a: string, quote: Option<char>, idle: bool,
                                          b: string)
    requires !x.isWord('\'') && !x.isSpace('\'')
    ensures match EndOf(x, escapes, a, quote, idle) {
              case Stopped(found) => Scan(x, escapes, a + "'" + b, quote, idle) == Some(found)
              case Outside(still) => Scan(x, escapes, a + "'" + b, quote, idle) ==
                  Scan(x, escapes, "'" + b, None, still)
              case Within => true
            }
    decreases |a|
  {
    hide Next;
    var t := a + "'" + b;
    if a == "" {
      assert t == "'" + b;
    } else {
      NextOverPrefix(x, escapes, a, quote, idle, b);
      var m := Next(x, escapes, a + "'", quote, idle);
      if !m.Found? && m.length <= |a| {
        var n := m.length;
        assert t[n..] == a[n..] + "'" + b && Drop(t, n) == t[n..] && t[..n] == a[..n];
        ScanOverPrefix(x, escapes, a[n..], if m.Comment? then None else m.quote, if m.Comment? then idle
            else m.idle, b);
      }
    }
  }

  // --- the main result ---------------------------------------------------------------------------------------------

  /** One reading: after the text before it the literal is as good as gone. */
  lemma ScanOverLiteral(x: Lexis, escapes: bool, a: string, s: string, b: string)
    requires !x.isWord('\'') && !x.isSpace('\'') && !x.isLongCommand("") && !EndOf(x, escapes, a, None, true).Within?
    ensures Scan(x, escapes, a + Lit(s, true) + b, None, true) ==
            match EndOf(x, escapes, a, None, true) {
              case Stopped(found) => Some(found)
              case _ => Scan(x, escapes, b, None, false)
            }
  {
    hide Scan, EndOf, LongCommand, CommentLength, Lit, Inner;
    LitIsInner(s);
    var rest := Inner(s) + "'" + b;
    assert a + Lit(s, true) + b == a + "'" + rest;
    ScanOverPrefix(x, escapes, a, None, true, rest);
    var end := EndOf(x, escapes, a, None, true);
    if end.Outside? {
      OpenQuote(x, escapes, rest, end.idle);
      InsideLiteral(x, escapes, s, b);
    }
  }

  lemma OpenQuote(x: Lexis, escapes: bool, rest: string, idle: bool)
    requires !x.isWord('\'') && !x.isSpace('\'') && (idle ==> !x.isLongCommand(""))
    ensures Scan(x, escapes, "'" + rest, None, idle) == Scan(x, escapes, rest, Some('\''), false)
  {
    var t := "'" + rest;
    assert t[0] == '\'' && Drop(t, 1) == rest;
    assert WordRun(x, t) == "";
    assert Next(x, escapes, t, None, idle) == Past(1, Some('\''), false);
  }

  /**
   Whatever string a literal holds, the scan sees the same: any two strings in the same place give the same answer,
   provided the text before the literal ends outside quotes and comments under both readings, or already has a command.
   */
  lemma LiteralsAreInvisible(x: Lexis, a: string, s: string, t: string, b: string)
    requires !x.isWord('\'') && !x.isSpace('\'') && !x.isLongCommand("")
    requires !EndOf(x, true, a, None, true).Within? && !EndOf(x, false, a, None, true).Within?
    ensures Command(x, a + Lit(s, true) + b) == Command(x, a + Lit(t, true) + b)
    ensures Command(x, a + Lit(s, true) + b).None? <==>
            forall escapes :: EndOf(x, escapes, a, None, true).Outside? && Scan(x, escapes, b, None, false).None?
  {
    hide Scan, EndOf, Lit;
    ScanOverLiteral(x, true, a, s, b);
    ScanOverLiteral(x, false, a, s, b);
    ScanOverLiteral(x, true, a, t, b);
    ScanOverLiteral(x, false, a, t, b);
  }

  /** The proviso is needed: a literal put inside double quotes can end them and start a command. */
  lemma LiteralsInsideQuotesShow(x: Lexis)
    requires !x.isWord('"') && !x.isSpace('"') && !x.isWord('\'') && !x.isLongCommand("")
    requires x.isLongCommand("tee") && x.isWord('t') && x.isWord('e')
    ensures Command(x, "\"" + Lit("", true)).None?
    ensures Command(x, "\"" + Lit("\";tee", true)) == Some("tee")
  {
    hide LongCommand, Scan, Inner;
    LitIsInner("");
    assert Inner("") == "" by { PlainInner(); }
    assert Lit("", true) == "''";
    EmptyLiteralInQuotes(x, true);
    EmptyLiteralInQuotes(x, false);
    TeeInQuotes(x);
  }

  lemma TeeInQuotes(x: Lexis)
    requires !x.isWord('"') && !x.isSpace('"') && !x.isWord('\'') && !x.isLongCommand("")
    requires x.isLongCommand("tee") && x.isWord('t') && x.isWord('e')
    ensures Scan(x, true, "\"" + Lit("\";tee", true), None, true) == Some("tee")
  {
    hide LongCommand, Scan, Inner, Lit;
    LitOfTee();
    OpenDouble(x, true, Lit("\";tee", true));
    CharInQuotes(x, true, '\'', ['"'] + ";tee'", '"');
    CharInQuotes(x, true, '"', ";tee'", '"');
    SemicolonThenTee(x);
  }

  lemma LitOfTee()
    ensures Lit("\";tee", true) == ['\''] + (['"'] + ";tee'")
  {
    hide Inner;
    LitIsInner("\";tee");
    assert Inner("\";tee") == "\";tee" by { PlainInner(); }
  }

  lemma NotACommand(x: Lexis, s: string)
    requires s != "" && !x.isWord(s[0]) && !IsBlank(s[0]) && !x.isLongCommand("")
    ensures LongCommand(x, s).None?
  {
  }

  lemma EmptyLiteralInQuotes(x: Lexis, escapes: bool)
    requires !x.isWord('"') && !x.isSpace('"') && !x.isLongCommand("")
    ensures Scan(x, escapes, "\"" + "''", None, true).None?
  {
    hide LongCommand, Scan;
    OpenDouble(x, escapes, "''");
    assert "''" == ['\''] + (['\''] + "");
    CharInQuotes(x, escapes, '\'', ['\''] + "", '"');
    CharInQuotes(x, escapes, '\'', "", '"');
    NothingToScan(x, escapes, "", Some('"'), false);
  }

  lemma OpenDouble(x: Lexis, escapes: bool, rest: string)
    requires !x.isWord('"') && !x.isSpace('"') && !x.isLongCommand("")
    ensures Scan(x, escapes, "\"" + rest, None, true) == Scan(x, escapes, rest, Some('"'), false)
  {
    hide LongCommand;
    var t := "\"" + rest;
    NotACommand(x, t);
    assert t[0] == '"' && Drop(t, 1) == rest;
    assert Next(x, escapes, t, None, true) == Past(1, Some('"'), false);
  }

  lemma PlainInner()
    ensures Inner("") == "" && Inner("\";tee") == "\";tee"
  {
    var s := "\";tee";
    assert s[1..] == ";tee" && s[1..][1..] == "tee" && "tee"[1..] == "ee" && "ee"[1..] == "e" && "e"[1..] == "";
    assert Inner("e") == "e" + Inner("");
    assert Inner("ee") == "e" + Inner("e");
    assert Inner("tee") == "t" + Inner("ee");
    assert Inner(";tee") == ";" + Inner("tee");
  }

  lemma SemicolonThenTee(x: Lexis)
    requires !x.isWord('\'') && x.isLongCommand("tee") && x.isWord('t') && x.isWord('e')
    ensures Scan(x, true, ";tee'", None, false) == Some("tee")
  {
    var s, t := ";tee'", "tee'";
    assert Drop(s, 1) == t && s[0] == ';';
    assert Next(x, true, s, None, false) == Past(1, None, true);
    assert t[1..] == "ee'" && "ee'"[1..] == "e'" && "e'"[1..] == "'";
    assert WordRun(x, "'") == "";
    assert WordRun(x, "e'") == "e" + WordRun(x, "'");
    assert WordRun(x, "ee'") == "e" + WordRun(x, "e'");
    assert WordRun(x, t) == "t" + WordRun(x, "ee'");
    assert WordRun(x, t) == "tee";
    assert LongCommand(x, t) == Some("tee");
    assert Next(x, true, t, None, true) == Found("tee");
  }
}
