/**
 What selector texts say: terms written one after the other, each behind its sign, are read as exactly those terms. So
 what a selector denotes is said of its text.
 */
module SelectorTexts {
  import opened Wrappers
  import opened Selector

  /** A comma joins, `&` cuts, `!` and `&!` take away. */
  datatype Sign = Comma | Amp | Bang | AmpBang

  /** A term as it is written; a comma may come before any sign. */
  datatype Written = Written(comma: bool, sign: Sign, text: string)

  function SignText(sign: Sign): string {
    match sign
    case Comma => ","
    case Amp => "&"
    case Bang => "!"
    case AmpBang => "&!"
  }

  function WrittenText(w: Written): string {
    (if w.comma && w.sign != Comma then "," else "") + SignText(w.sign) + w.text
  }

  /** An atom with white space around it, perhaps: not blank, and free of signs. */
  predicate IsAtomText(x: Lexis, text: string) {
    x.strip(text) != "" && IsSignFree(text)
  }

  predicate IsSignFree(text: string) {
    text != "" && forall i :: 0 <= i < |text| ==> text[i] != ',' && text[i] != '&' && text[i] != '!'
  }

  ghost predicate WellWritten(x: Lexis, ws: seq<Written>) {
    forall i :: 0 <= i < |ws| ==> IsAtomText(x, ws[i].text)
  }

  function Signed(ws: seq<Written>): string {
    if ws == [] then "" else WrittenText(ws[0]) + Signed(ws[1..])
  }

  /** A first term that joins may do without its comma. */
  function Bare(ws: seq<Written>): string {
    if ws != [] && ws[0].sign == Comma then ws[0].text + Signed(ws[1..]) else Signed(ws)
  }

  function OpOf(sign: Sign): Op {
    match sign
    case Comma => Plain
    case Amp => And
    case _ => Not
  }

  function Read(x: Lexis, ws: seq<Written>): (r: seq<Term>)
    ensures |r| == |ws| && forall i :: 0 <= i < |r| ==> r[i] == Term(OpOf(ws[i].sign), x.strip(ws[i].text))
  {
    seq(|ws|, i requires 0 <= i < |ws| => Term(OpOf(ws[i].sign), x.strip(ws[i].text)))
  }

  function Untrimmed(ws: seq<Written>): (r: seq<Term>)
    ensures |r| == |ws| && forall i :: 0 <= i < |r| ==> r[i] == Term(OpOf(ws[i].sign), ws[i].text)
  {
    seq(|ws|, i requires 0 <= i < |ws| => Term(OpOf(ws[i].sign), ws[i].text))
  }

  // --- the texts are read ------------------------------------------------------------------------------------------

  /** Nothing is left, or a sign comes next. */
  predicate AtSign(rest: string) {
    rest == "" || IsOperator(rest[0])
  }

  /** The run of a text ends where the next sign begins. */
  lemma {:induction false} RunOfText(text: string, rest: string)
    requires (forall i :: 0 <= i < |text| ==> !IsOperator(text[i])) && AtSign(rest)
    ensures Run(text + rest) == text
  {
    if text == "" {
      assert text + rest == rest;
    } else {
      assert (text + rest)[1..] == text[1..] + rest;
      RunOfText(text[1..], rest);
    }
  }

  lemma SignedStarts(ws: seq<Written>)
    ensures AtSign(Signed(ws))
  {
    if ws != [] {
      assert WrittenText(ws[0]) != "" && IsOperator(WrittenText(ws[0])[0]);
    }
  }

  /** How the operator at the start of a text is read. */
  lemma OpOfSign(sign: Sign, text: string, rest: string)
    requires IsSignFree(text) && AtSign(rest)
    ensures var s := SignText(sign) + (text + rest);
            s != "" && IsOperator(s[0]) && OpAt(s) == (OpOf(sign), |SignText(sign)|)
  {
    hide Run;
    var t := text + rest;
    var s := SignText(sign) + t;
    RunOfText(text, rest);
    assert t[0] == text[0] && t != "";
    if sign == AmpBang {
      assert s[..2] == "&!" && s[2..] == t;
    } else {
      assert s[1] == t[0] && |s| > 1;
      assert s[..2][1] == t[0] && "&!"[1] == '!';
    }
  }

  /** One sign and its text. */
  lemma ScanOne(sign: Sign, text: string, rest: string, first: bool)
    requires IsSignFree(text) && AtSign(rest)
    ensures Scan(SignText(sign) + (text + rest), first) == [Term(OpOf(sign), text)] + Scan(rest, false)
  {
    hide Scan, OpAt, SignText, Run;
    var n, t := |SignText(sign)|, text + rest;
    var s := SignText(sign) + t;
    OpOfSign(sign, text, rest);
    RunOfText(text, rest);
    assert s[n..] == t;
    assert t[|text|..] == rest;
    assert s[n + |text|..] == t[|text|..];
    ScanAtSign(s, OpOf(sign), n, text, first);
  }

  lemma ScanAtSign(s: string, op: Op, n: nat, text: string, first: bool)
    requires s != "" && IsOperator(s[0]) && OpAt(s) == (op, n) && Run(s[n..]) == text && text != ""
    ensures n + |text| <= |s| && Scan(s, first) == [Term(op, text)] + Scan(s[n + |text|..], false)
  {
    hide OpAt, Run;
  }

  /** A comma with no atom behind it is passed over. */
  lemma ScanComma(s: string, first: bool)
    requires s != "" && IsOperator(s[0])
    ensures Scan("," + s, first) == Scan(s, false)
  {
    var t := "," + s;
    assert t[0] == ',' && t[1..] == s;
    assert t[..2][0] == ',' && "&!"[0] == '&';
    assert Run(s) == "";
  }

  lemma ScanWritten(w: Written, rest: string, first: bool)
    requires IsSignFree(w.text) && AtSign(rest)
    ensures Scan(WrittenText(w) + rest, first) == [Term(OpOf(w.sign), w.text)] + Scan(rest, false)
  {
    hide Scan, OpAt, SignText;
    var s := SignText(w.sign) + (w.text + rest);
    OpOfSign(w.sign, w.text, rest);
    if w.comma && w.sign != Comma {
      assert WrittenText(w) + rest == "," + s;
      ScanComma(s, first);
      ScanOne(w.sign, w.text, rest, false);
    } else {
      assert WrittenText(w) + rest == s;
      ScanOne(w.sign, w.text, rest, first);
    }
  }

  lemma {:induction false} ScanSigned(x: Lexis, ws: seq<Written>, first: bool)
    requires WellWritten(x, ws)
    ensures Scan(Signed(ws), first) == Untrimmed(ws)
    decreases |ws|
  {
    hide Scan, WrittenText, IsSignFree, AtSign;
    if ws == [] {
      ScanNothing(first);
    } else {
      assert IsAtomText(x, ws[0].text);
      SignedStarts(ws[1..]);
      ScanWritten(ws[0], Signed(ws[1..]), first);
      ScanSigned(x, ws[1..], false);
      assert Untrimmed(ws) == [Term(OpOf(ws[0].sign), ws[0].text)] + Untrimmed(ws[1..]);
    }
  }

  lemma ScanNothing(first: bool)
    ensures Scan("", first) == []
  {
  }

  /** A text at the very start needs no comma. */
  lemma ScanFirst(text: string, rest: string)
    requires IsSignFree(text) && AtSign(rest)
    ensures Scan(text + rest, true) == [Term(Plain, text)] + Scan(rest, false)
  {
    var s := text + rest;
    RunOfText(text, rest);
    assert s[0] == text[0] && s[|text|..] == rest;
  }

  lemma ScanBare(x: Lexis, ws: seq<Written>)
    requires WellWritten(x, ws)
    ensures Scan(Bare(ws), true) == Untrimmed(ws)
  {
    hide Scan, Signed, IsSignFree, AtSign;
    if ws != [] && ws[0].sign == Comma {
      assert IsAtomText(x, ws[0].text);
      SignedStarts(ws[1..]);
      ScanFirst(ws[0].text, Signed(ws[1..]));
      ScanSigned(x, ws[1..], false);
      assert Untrimmed(ws) == [Term(Plain, ws[0].text)] + Untrimmed(ws[1..]);
    } else {
      ScanSigned(x, ws, true);
    }
  }

  lemma {:induction false} TrimmedAll(x: Lexis, ws: seq<Written>)
    requires WellWritten(x, ws)
    ensures Trimmed(x, Untrimmed(ws)) == Read(x, ws)
    decreases |ws|
  {
    hide IsSignFree;
    if ws != [] {
      assert IsAtomText(x, ws[0].text);
      TrimmedAll(x, ws[1..]);
      assert Untrimmed(ws)[1..] == Untrimmed(ws[1..]);
      assert Read(x, ws) == [Read(x, ws)[0]] + Read(x, ws[1..]);
    }
  }

  /** A text is read as exactly the terms it was written from, each with what its sign says. */
  lemma TermsAreAsWritten(x: Lexis, ws: seq<Written>)
    requires WellWritten(x, ws)
    ensures Terms(x, Bare(ws)) == Read(x, ws) && Terms(x, Signed(ws)) == Read(x, ws)
  {
    hide Scan, Trimmed;
    ScanBare(x, ws);
    ScanSigned(x, ws, true);
    TrimmedAll(x, ws);
  }

  // --- what a text denotes -----------------------------------------------------------------------------------------

  /** The host is in some term that joins (or there is none), in all that cut, and in none that takes away. */
  ghost predicate Selected(x: Lexis, value: string -> set<Name>, ws: seq<Written>, h: Name) {
    && ((exists i :: 0 <= i < |ws| && ws[i].sign == Comma) ==>
          exists i :: 0 <= i < |ws| && ws[i].sign == Comma && h in value(x.strip(ws[i].text)))
    && (forall i :: 0 <= i < |ws| && ws[i].sign == Amp ==> h in value(x.strip(ws[i].text)))
    && (forall i :: 0 <= i < |ws| && (ws[i].sign == Bang || ws[i].sign == AmpBang) ==> h !in value(x.strip(ws[i].text)))
  }

  ghost predicate ValuesOf(x: Lexis, f: Fleet, value: string -> set<Name>, ws: seq<Written>, seen: set<Name>)
    requires Opened(f, seen)
  {
    forall i :: 0 <= i < |ws| ==> Atom(x, f, x.strip(ws[i].text), seen) == Ok(value(x.strip(ws[i].text)))
  }

  /** A text whose atoms evaluate selects exactly the hosts in the union of what joins, cut by what cuts, without what
      takes away. */
  lemma TextsDenote(x: Lexis, f: Fleet, value: string -> set<Name>, ws: seq<Written>, seen: set<Name>)
    requires Opened(f, seen) && WellWritten(x, ws) && ws != [] && ValuesOf(x, f, value, ws, seen)
    ensures Resolve(x, f, Bare(ws), seen).Ok?
    ensures forall h :: h in Resolve(x, f, Bare(ws), seen).value <==> h in f.hosts && Selected(x, value, ws, h)
  {
    hide Terms, Resolve, Atom;
    var terms := Read(x, ws);
    TermsAreAsWritten(x, ws);
    assert Values(x, f, value, terms, seen);
    ResolveDenotes(x, f, Bare(ws), seen);
    assert Resolve(x, f, Bare(ws), seen) == Ok(Denoted(f, value, terms));
    forall h ensures Chosen(value, terms, h) <==> Selected(x, value, ws, h) {
      SignsAreOps(x, value, ws, h);
    }
  }

  lemma SignsAreOps(x: Lexis, value: string -> set<Name>, ws: seq<Written>, h: Name)
    ensures Chosen(value, Read(x, ws), h) <==> Selected(x, value, ws, h)
  {
    var terms := Read(x, ws);
    assert HasPlain(terms) <==> exists i :: 0 <= i < |ws| && ws[i].sign == Comma by {
      assert forall i :: 0 <= i < |ws| ==> (terms[i].op == Plain <==> ws[i].sign == Comma);
    }
  }

  // --- computed groups ---------------------------------------------------------------------------------------------

  /** The texts of a computed group's clauses. */
  function Texts(clauses: seq<seq<Written>>): (r: seq<string>)
    ensures |r| == |clauses| && forall i :: 0 <= i < |r| ==> r[i] == Bare(clauses[i])
  {
    seq(|clauses|, i requires 0 <= i < |clauses| => Bare(clauses[i]))
  }

  function All(clauses: seq<seq<Written>>): seq<Written> {
    if clauses == [] then [] else clauses[0] + All(clauses[1..])
  }

  ghost predicate Clauses(x: Lexis, clauses: seq<seq<Written>>) {
    forall i :: 0 <= i < |clauses| ==> WellWritten(x, clauses[i]) && clauses[i] != [] && !clauses[i][0].comma
  }

  /** A list of selectors is read as all their terms, one list after the other. */
  lemma JoinedTerms(x: Lexis, clauses: seq<seq<Written>>)
    requires Clauses(x, clauses) && clauses != []
    ensures Terms(x, Join(Texts(clauses))) == Read(x, All(clauses))
  {
    hide Terms;
    var ws := JoinIsWritten(x, clauses);
    TermsAreAsWritten(x, ws);
  }

  lemma {:induction false} JoinIsWritten(x: Lexis, clauses: seq<seq<Written>>) returns (ws: seq<Written>)
    requires Clauses(x, clauses) && clauses != []
    ensures WellWritten(x, ws) && Join(Texts(clauses)) == Bare(ws) && Read(x, ws) == Read(x, All(clauses))
    ensures ws != [] && ws[0] == clauses[0][0]
    decreases |clauses|
  {
    hide WellWritten, Bare, Signed, Read;
    var c := clauses[0];
    if |clauses| == 1 {
      ws := c;
      assert All(clauses) == c by { assert All(clauses[1..]) == []; }
    } else {
      var more := JoinIsWritten(x, clauses[1..]);
      var next := [more[0].(comma := true)] + more[1..];
      ws := c + next;
      CommaedFirst(x, more);
      BareConcat(c, next);
      WellConcat(x, c, next);
      ReadConcat(x, c, next);
      ReadConcat(x, c, All(clauses[1..]));
      assert Texts(clauses)[1..] == Texts(clauses[1..]);
    }
  }

  lemma WellConcat(x: Lexis, a: seq<Written>, b: seq<Written>)
    requires WellWritten(x, a) && WellWritten(x, b)
    ensures WellWritten(x, a + b)
  {
    hide IsAtomText;
  }

  lemma CommaedFirst(x: Lexis, ws: seq<Written>)
    requires WellWritten(x, ws) && ws != [] && !ws[0].comma
    ensures var next := [ws[0].(comma := true)] + ws[1..];
            WellWritten(x, next) && Signed(next) == "," + Bare(ws) && Read(x, next) == Read(x, ws)
  {
    hide IsAtomText, SignText;
    var first := ws[0].(comma := true);
    var next := [first] + ws[1..];
    assert next[1..] == ws[1..];
    assert forall i :: 1 <= i < |ws| ==> next[i] == ws[i];
    CommaedText(ws[0], Signed(ws[1..]));
  }

  lemma CommaedText(w: Written, rest: string)
    requires !w.comma
    ensures WrittenText(w.(comma := true)) + rest ==
              "," + (if w.sign == Comma then w.text + rest else WrittenText(w) + rest)
  {
    var t := SignText(w.sign);
    if w.sign != Comma {
      assert "," + t + w.text + rest == "," + (t + w.text + rest);
    }
  }

  lemma {:induction false} SignedConcat(a: seq<Written>, b: seq<Written>)
    ensures Signed(a + b) == Signed(a) + Signed(b)
    decreases |a|
  {
    hide WrittenText;
    if a == [] {
      assert a + b == b;
    } else {
      SignedConcat(a[1..], b);
      assert (a + b)[1..] == a[1..] + b;
    }
  }

  lemma BareConcat(a: seq<Written>, b: seq<Written>)
    requires a != []
    ensures Bare(a + b) == Bare(a) + Signed(b)
  {
    hide Signed;
    SignedConcat(a[1..], b);
    SignedConcat(a, b);
    assert (a + b)[1..] == a[1..] + b && (a + b)[0] == a[0];
  }

  lemma ReadConcat(x: Lexis, a: seq<Written>, b: seq<Written>)
    ensures Read(x, a + b) == Read(x, a) + Read(x, b)
  {
  }

  // --- atoms -------------------------------------------------------------------------------------------------------

  /** `all` and `*` are every host. */
  lemma EveryHost(x: Lexis, f: Fleet, seen: set<Name>)
    requires Opened(f, seen)
    ensures Atom(x, f, "all", seen) == Ok(f.hosts.Keys) && Atom(x, f, "*", seen) == Ok(f.hosts.Keys)
  {
  }

  lemma {:induction false} IndexOfFirst(k: string, ch: char, v: string)
    requires ch !in k
    ensures IndexOf(k + [ch] + v, ch) == |k|
  {
    if k != "" {
      assert (k + [ch] + v)[1..] == k[1..] + [ch] + v;
      IndexOfFirst(k[1..], ch, v);
    }
  }

  /** `KEY=VALUE` is the hosts whose label matches; a host without the label counts as having the NUL character. */
  lemma HostsByLabel(x: Lexis, f: Fleet, k: string, v: string, seen: set<Name>)
    requires Opened(f, seen) && '=' !in k && (k == "" || k[0] != '@')
    ensures Atom(x, f, k + "=" + v, seen).Ok?
    ensures forall n :: n in Atom(x, f, k + "=" + v, seen).value <==>
              n in f.hosts && x.glob(if k in f.hosts[n].labels then f.hosts[n].labels[k] else "\0", v)
  {
    var a := k + "=" + v;
    IndexOfFirst(k, '=', v);
    assert a == k + ['='] + v && a[|k|] == '=';
    assert '=' in a && a != "all" && a != "*";
    assert a[..|k|] == k && a[|k| + 1..] == v;
    assert a[0] == if k == "" then '=' else k[0];
  }

  /** `@GROUP` is its members. */
  lemma HostsByGroup(x: Lexis, f: Fleet, g: Name, seen: set<Name>)
    requires Opened(f, seen)
    ensures Atom(x, f, "@" + g, seen) == Members(x, f, g, seen)
  {
    var a := "@" + g;
    assert a[0] == '@' && a[1..] == g && "all"[0] == 'a' && "*"[0] == '*';
  }

  /** A pattern is the hosts whose names match, any other text the host of that name or an error. */
  lemma HostsByName(x: Lexis, f: Fleet, a: string, seen: set<Name>)
    requires Opened(f, seen) && a != "all" && a != "*" && '=' !in a && (a == "" || a[0] != '@')
    ensures if '*' in a || '?' in a || '[' in a
            then Atom(x, f, a, seen).Ok? && forall n :: n in Atom(x, f, a, seen).value <==> n in f.hosts && x.glob(n, a)
            else Atom(x, f, a, seen) == if a in f.hosts then Ok({a}) else Err(UnknownHost(a))
  {
  }

  /** An assigned group is the hosts that name it, unless there are none and it is not a computed one. */
  lemma AssignedMembers(x: Lexis, f: Fleet, g: Name)
    requires !(g in f.groups && f.groups[g] != [])
    ensures Members(x, f, g, {}).Err? <==> g !in f.groups && forall n :: n in f.hosts ==> g !in f.hosts[n].groups
    ensures Members(x, f, g, {}).Ok? ==>
              forall n :: n in Members(x, f, g, {}).value <==> n in f.hosts && g in f.hosts[n].groups
  {
    if n :| n in f.hosts && g in f.hosts[n].groups {
      assert n in Tagged(f, g);
    }
  }
}
