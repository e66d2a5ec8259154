/**
 The selector language of the fleet inventory (`fleet/inventory.py`): terms, atoms, computed groups that are selectors
 themselves, and what a selector denotes.
 */
module Selector {
  import opened Wrappers

  type Name = string

  datatype Host = Host(groups: seq<Name>, labels: map<string, string>)

  /** Computed groups map a name to a list of selector texts. */
  datatype Fleet = Fleet(hosts: map<Name, Host>, groups: map<Name, seq<string>>)

  /** White space trimming and shell-style matching (text, pattern). */
  datatype Lexis = Lexis(strip: string -> string, glob: (string, string) -> bool)

  datatype Error = Cycle(group: Name) | UnknownGroup(group: Name) | UnknownHost(host: Name) | EmptyTarget

  // --- terms -------------------------------------------------------------------------------------------------------

  /** A leading or comma term joins the union; `!` and `&!` both exclude. */
  datatype Op = Plain | And | Not

  datatype Term = Term(op: Op, atom: string)

  predicate IsOperator(ch: char) {
    ch == ',' || ch == '&' || ch == '!'
  }

  /** The text up to the next operator. */
  function Run(s: string): (r: string)
    ensures r <= s && (forall i :: 0 <= i < |r| ==> !IsOperator(r[i])) && (|r| < |s| ==> IsOperator(s[|r|]))
  {
    if s == "" || IsOperator(s[0]) then "" else [s[0]] + Run(s[1..])
  }

  /** The operator a term starts with, and its length. `&!` counts when an atom can follow it. */
  function OpAt(s: string): (r: (Op, nat))
    requires s != "" && IsOperator(s[0])
    ensures 1 <= r.1 <= |s|
  {
    if |s| > 1 && s[..2] == "&!" && Run(s[2..]) != "" then (Not, 2)
    else (match s[0] case '&' => And case '!' => Not case _ => Plain, 1)
  }

  /** All matches of the term pattern in the rest of the text; `first` at its very start. */
  function Scan(s: string, first: bool): seq<Term>
    decreases |s|
  {
    if s == "" then []
    else if IsOperator(s[0]) then
      var (op, n) := OpAt(s);
      var atom := Run(s[n..]);
      if atom == "" then Scan(s[1..], false) else [Term(op, atom)] + Scan(s[n + |atom|..], false)
    else if first then
      var atom := Run(s);
      [Term(Plain, atom)] + Scan(s[|atom|..], false)
    else Scan(s[1..], false)
  }

  function Trimmed(x: Lexis, terms: seq<Term>): seq<Term> {
    if terms == [] then []
    else
      var atom := x.strip(terms[0].atom);
      (if atom == "" then [] else [Term(terms[0].op, atom)]) + Trimmed(x, terms[1..])
  }

  function Terms(x: Lexis, expr: string): seq<Term> {
    Trimmed(x, Scan(expr, true))
  }

  function Join(texts: seq<string>): string {
    if texts == [] then "" else if |texts| == 1 then texts[0] else texts[0] + "," + Join(texts[1..])
  }

  // --- evaluation ----------------------------------------------------------------------------------------------------

  function Tagged(f: Fleet, g: Name): set<Name> {
    set n | n in f.hosts && g in f.hosts[n].groups
  }

  predicate IsComputed(f: Fleet, g: Name) {
    g in f.groups && f.groups[g] != []
  }

  ghost predicate Opened(f: Fleet, seen: set<Name>) {
    seen <= f.groups.Keys
  }

  /** `members` */
  function Members(x: Lexis, f: Fleet, g: Name, seen: set<Name>): (r: Result<set<Name>, Error>)
    requires Opened(f, seen)
    ensures r.Ok? ==> r.value <= f.hosts.Keys
    decreases |f.groups.Keys - seen|, 0, 0
  {
    if g in seen then Err(Cycle(g))
    else if IsComputed(f, g) then
      FewerLeft(f, seen, g);
      var r := Resolve(x, f, Join(f.groups[g]), seen + {g});
      if r.Err? then r else Ok(Tagged(f, g) + r.value)
    else if Tagged(f, g) == {} && g !in f.groups then Err(UnknownGroup(g))
    else Ok(Tagged(f, g))
  }

  lemma FewerLeft(f: Fleet, seen: set<Name>, g: Name)
    requires g in f.groups && g !in seen
    ensures |f.groups.Keys - (seen + {g})| < |f.groups.Keys - seen|
  {
    var a, b := f.groups.Keys - (seen + {g}), f.groups.Keys - seen;
    assert b == a + {g};
  }

  function IndexOf(s: string, ch: char): (r: nat)
    ensures r <= |s| && (r < |s| ==> s[r] == ch) && (r == |s| <==> ch !in s)
  {
    if s == "" || s[0] == ch then 0 else 1 + IndexOf(s[1..], ch)
  }

  /** The value of a label; a host without it has the NUL character. */
  function LabelOf(h: Host, k: string): string {
    if k in h.labels then h.labels[k] else "\0"
  }

  /** `_atom` */
  function Atom(x: Lexis, f: Fleet, a: string, seen: set<Name>): (r: Result<set<Name>, Error>)
    requires Opened(f, seen)
    ensures r.Ok? ==> r.value <= f.hosts.Keys
    decreases |f.groups.Keys - seen|, 1, 0
  {
    if a == "all" || a == "*" then Ok(f.hosts.Keys)
    else if a != "" && a[0] == '@' then Members(x, f, a[1..], seen)
    else if '=' in a then
      var k := IndexOf(a, '=');
      Ok(set n | n in f.hosts && x.glob(LabelOf(f.hosts[n], a[..k]), a[k + 1..]))
    else if '*' in a || '?' in a || '[' in a then Ok(set n | n in f.hosts && x.glob(n, a))
    else if a in f.hosts then Ok({a})
    else Err(UnknownHost(a))
  }

  /** The union of the plain terms, evaluated in order. */
  function Union(x: Lexis, f: Fleet, terms: seq<Term>, seen: set<Name>): (r: Result<set<Name>, Error>)
    requires Opened(f, seen)
    ensures r.Ok? ==> r.value <= f.hosts.Keys
    decreases |f.groups.Keys - seen|, 2, |terms|
  {
    if terms == [] then Ok({})
    else
      var before, last := Union(x, f, terms[..|terms| - 1], seen), terms[|terms| - 1];
      if before.Err? || last.op != Plain then before
      else
        var a := Atom(x, f, last.atom, seen);
        if a.Err? then a else Ok(before.value + a.value)
  }

  /** Intersections and exclusions, in order, from what was chosen. */
  function Refine(x: Lexis, f: Fleet, chosen: set<Name>, terms: seq<Term>, seen: set<Name>): (r: Result<set<Name>,
                  Error>)
    requires Opened(f, seen) && chosen <= f.hosts.Keys
    ensures r.Ok? ==> r.value <= f.hosts.Keys
    decreases |f.groups.Keys - seen|, 2, |terms|
  {
    if terms == [] then Ok(chosen)
    else
      var before, last := Refine(x, f, chosen, terms[..|terms| - 1], seen), terms[|terms| - 1];
      if before.Err? || last.op == Plain then before
      else
        var a := Atom(x, f, last.atom, seen);
        if a.Err? then a
        else Ok(if last.op == And then before.value * a.value else before.value - a.value)
  }

  predicate HasPlain(terms: seq<Term>) {
    exists i :: 0 <= i < |terms| && terms[i].op == Plain
  }

  /** `_resolve` */
  function Resolve(x: Lexis, f: Fleet, expr: string, seen: set<Name>): (r: Result<set<Name>, Error>)
    requires Opened(f, seen)
    ensures r.Ok? ==> r.value <= f.hosts.Keys
    decreases |f.groups.Keys - seen|, 3, 0
  {
    var terms := Terms(x, expr);
    if terms == [] then Err(EmptyTarget)
    else
      var chosen := if HasPlain(terms) then Union(x, f, terms, seen) else Ok(f.hosts.Keys);
      if chosen.Err? then chosen else Refine(x, f, chosen.value, terms, seen)
  }

  // --- what a list of terms denotes --------------------------------------------------------------------------------

  /** The host is in the union of the plain terms (or there is none), in every `&` and in no `!`. */
  ghost predicate Chosen(value: string -> set<Name>, terms: seq<Term>, h: Name) {
    && (HasPlain(terms) ==> exists i :: 0 <= i < |terms| && terms[i].op == Plain && h in value(terms[i].atom))
    && (forall i :: 0 <= i < |terms| && terms[i].op == And ==> h in value(terms[i].atom))
    && (forall i :: 0 <= i < |terms| && terms[i].op == Not ==> h !in value(terms[i].atom))
  }

  ghost function Denoted(f: Fleet, value: string -> set<Name>, terms: seq<Term>): set<Name> {
    set h | h in f.hosts && Chosen(value, terms, h)
  }

  ghost predicate AllOk(x: Lexis, f: Fleet, terms: seq<Term>, seen: set<Name>)
    requires Opened(f, seen)
  {
    forall i :: 0 <= i < |terms| ==> Atom(x, f, terms[i].atom, seen).Ok?
  }

  /** `value` gives what the atoms of the terms evaluate to. */
  ghost predicate Values(x: Lexis, f: Fleet, value: string -> set<Name>, terms: seq<Term>, seen: set<Name>)
    requires Opened(f, seen)
  {
    forall i :: 0 <= i < |terms| ==> Atom(x, f, terms[i].atom, seen) == Ok(value(terms[i].atom))
  }

  lemma {:induction false} UnionDenotes(x: Lexis, f: Fleet, terms: seq<Term>, seen: set<Name>,
                                        value: string -> set<Name>)
    requires Opened(f, seen) && Values(x, f, value, terms, seen)
    ensures var r := Union(x, f, terms, seen);
            r.Ok? && forall h :: h in r.value <==>
                exists i :: 0 <= i < |terms| && terms[i].op == Plain && h in value(terms[i].atom)
    decreases |terms|
  {
    hide Atom;
    if terms != [] {
      var n := |terms| - 1;
      UnionDenotes(x, f, terms[..n], seen, value);
      assert Atom(x, f, terms[n].atom, seen) == Ok(value(terms[n].atom));
      forall h ensures h in Union(x, f, terms, seen).value <==>
          exists i :: 0 <= i < |terms| && terms[i].op == Plain && h in value(terms[i].atom) {
        if exists i :: 0 <= i < n && terms[..n][i].op == Plain && h in value(terms[..n][i].atom) {
          var i :| 0 <= i < n && terms[..n][i].op == Plain && h in value(terms[..n][i].atom);
          assert terms[i] == terms[..n][i];
        }
      }
    }
  }

  lemma {:induction false} RefineDenotes(x: Lexis, f: Fleet, chosen: set<Name>, terms: seq<Term>, seen: set<Name>,
                                         value: string -> set<Name>)
    requires Opened(f, seen) && chosen <= f.hosts.Keys && Values(x, f, value, terms, seen)
    ensures var r := Refine(x, f, chosen, terms, seen);
            r.Ok? && forall h :: h in r.value <==>
              && h in chosen
              && (forall i :: 0 <= i < |terms| && terms[i].op == And ==> h in value(terms[i].atom))
              && (forall i :: 0 <= i < |terms| && terms[i].op == Not ==> h !in value(terms[i].atom))
    decreases |terms|
  {
    hide Atom;
    if terms != [] {
      var n := |terms| - 1;
      RefineDenotes(x, f, chosen, terms[..n], seen, value);
      assert Atom(x, f, terms[n].atom, seen) == Ok(value(terms[n].atom));
      assert forall i :: 0 <= i < n ==> terms[..n][i] == terms[i];
    }
  }

  lemma {:induction false} FailingAtom(x: Lexis, f: Fleet, chosen: set<Name>, terms: seq<Term>, seen: set<Name>, i: nat)
    requires Opened(f, seen) && chosen <= f.hosts.Keys && i < |terms| && Atom(x, f, terms[i].atom, seen).Err?
    ensures terms[i].op == Plain ==> Union(x, f, terms, seen).Err?
    ensures terms[i].op != Plain ==> Refine(x, f, chosen, terms, seen).Err?
    decreases |terms|
  {
    hide Atom;
    if i < |terms| - 1 {
      FailingAtom(x, f, chosen, terms[..|terms| - 1], seen, i);
    }
  }

  /**
   What a selector means, whatever the order of its terms: it evaluates exactly when it has a term and all its atoms
   evaluate, and then to the union of the plain terms (or all hosts) cut down by every `&` and every `!`.
   */
  lemma ResolveDenotes(x: Lexis, f: Fleet, expr: string, seen: set<Name>)
    requires Opened(f, seen)
    ensures Resolve(x, f, expr, seen).Ok? <==> Terms(x, expr) != [] && AllOk(x, f, Terms(x, expr), seen)
    ensures forall value :: Terms(x, expr) != [] && Values(x, f, value, Terms(x, expr), seen) ==>
              Resolve(x, f, expr, seen) == Ok(Denoted(f, value, Terms(x, expr)))
  {
    hide Atom, Union, Refine, Terms;
    var terms := Terms(x, expr);
    if !AllOk(x, f, terms, seen) {
      var i :| 0 <= i < |terms| && Atom(x, f, terms[i].atom, seen).Err?;
      if terms[i].op == Plain {
        FailingAtom(x, f, {}, terms, seen, i);
      } else if HasPlain(terms) {
        if Union(x, f, terms, seen).Ok? {
          FailingAtom(x, f, Union(x, f, terms, seen).value, terms, seen, i);
        }
      } else {
        FailingAtom(x, f, f.hosts.Keys, terms, seen, i);
      }
    } else if terms != [] {
      var own := a requires true => var r := Atom(x, f, a, seen); if r.Ok? then r.value else {};
      assert Values(x, f, own, terms, seen);
      DenotesWith(x, f, expr, seen, own);
    }
    forall value | terms != [] && Values(x, f, value, terms, seen)
      ensures Resolve(x, f, expr, seen) == Ok(Denoted(f, value, terms))
    {
      DenotesWith(x, f, expr, seen, value);
    }
  }

  lemma DenotesWith(x: Lexis, f: Fleet, expr: string, seen: set<Name>, value: string -> set<Name>)
    requires Opened(f, seen) && Terms(x, expr) != [] && Values(x, f, value, Terms(x, expr), seen)
    ensures Resolve(x, f, expr, seen) == Ok(Denoted(f, value, Terms(x, expr)))
  {
    hide Atom, Union, Refine, Terms, Values;
    var terms := Terms(x, expr);
    if HasPlain(terms) {
      UnionDenotes(x, f, terms, seen, value);
      RefineDenotes(x, f, Union(x, f, terms, seen).value, terms, seen, value);
    } else {
      RefineDenotes(x, f, f.hosts.Keys, terms, seen, value);
    }
    var r := Resolve(x, f, expr, seen);
    assert r.Ok?;
    assert forall h :: h in r.value <==> h in Denoted(f, value, terms);
    assert r.value == Denoted(f, value, terms);
  }
}
