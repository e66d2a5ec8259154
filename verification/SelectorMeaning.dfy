/**
 Computed groups that use each other: what they denote, when evaluation fails, and that the order of terms is no part
 of the meaning.
 */
module SelectorMeaning {
  import opened Wrappers
  import opened Selector

  // --- the order of terms -------------------------------------------------------------------------------------------

  ghost predicate SameTerms(a: seq<Term>, b: seq<Term>) {
    forall t :: t in a <==> t in b
  }

  /** Selectors with the same terms, in any order and however often, evaluate alike. */
  lemma OrderDoesNotMatter(x: Lexis, f: Fleet, e1: string, e2: string, seen: set<Name>)
    requires Opened(f, seen) && SameTerms(Terms(x, e1), Terms(x, e2))
    ensures Resolve(x, f, e1, seen).Ok? <==> Resolve(x, f, e2, seen).Ok?
    ensures Resolve(x, f, e1, seen).Ok? ==> Resolve(x, f, e1, seen) == Resolve(x, f, e2, seen)
  {
    hide Resolve, Atom, Terms;
    var a, b := Terms(x, e1), Terms(x, e2);
    ResolveDenotes(x, f, e1, seen);
    ResolveDenotes(x, f, e2, seen);
    assert a == [] <==> b == [] by {
      if a != [] { assert a[0] in b; }
      if b != [] { assert b[0] in a; }
    }
    assert AllOk(x, f, a, seen) <==> AllOk(x, f, b, seen) by {
      SameOk(x, f, a, b, seen);
      SameOk(x, f, b, a, seen);
    }
    if a != [] && AllOk(x, f, a, seen) {
      var value := ValueOf(x, f, seen);
      assert Values(x, f, value, a, seen) && Values(x, f, value, b, seen);
      SameDenoted(f, value, a, b);
    }
  }

  lemma SameOk(x: Lexis, f: Fleet, a: seq<Term>, b: seq<Term>, seen: set<Name>)
    requires Opened(f, seen) && SameTerms(a, b)
    ensures AllOk(x, f, a, seen) ==> AllOk(x, f, b, seen)
  {
    hide Atom;
    forall i | 0 <= i < |b| && AllOk(x, f, a, seen) ensures Atom(x, f, b[i].atom, seen).Ok? {
      assert b[i] in a;
      var j :| 0 <= j < |a| && a[j] == b[i];
      assert Atom(x, f, a[j].atom, seen).Ok?;
    }
  }

  /** What atoms evaluate to. */
  ghost function ValueOf(x: Lexis, f: Fleet, seen: set<Name>): string -> set<Name>
    requires Opened(f, seen)
  {
    a => var r := Atom(x, f, a, seen); if r.Ok? then r.value else {}
  }

  lemma SameDenoted(f: Fleet, value: string -> set<Name>, a: seq<Term>, b: seq<Term>)
    requires SameTerms(a, b)
    ensures Denoted(f, value, a) == Denoted(f, value, b)
  {
    forall h ensures Chosen(value, a, h) <==> Chosen(value, b, h) {
      ChosenByTerms(value, a, h);
      ChosenByTerms(value, b, h);
    }
  }

  /** The same by membership instead of position. */
  lemma ChosenByTerms(value: string -> set<Name>, terms: seq<Term>, h: Name)
    ensures Chosen(value, terms, h) <==>
            && ((exists t :: t in terms && t.op == Plain) ==>
                exists t :: t in terms && t.op == Plain && h in value(t.atom))
            && (forall t :: t in terms && t.op == And ==> h in value(t.atom))
            && (forall t :: t in terms && t.op == Not ==> h !in value(t.atom))
  {
  }

  // --- groups seen on the way --------------------------------------------------------------------------------------

  /** The groups being evaluated only ever block: without them, the same value. */
  lemma {:induction false} SeenOnlyBlocks(x: Lexis, f: Fleet, g: Name, s: set<Name>, t: set<Name>)
    requires Opened(f, s) && t <= s && Members(x, f, g, s).Ok?
    ensures Opened(f, t) && Members(x, f, g, t) == Members(x, f, g, s)
    decreases |f.groups.Keys - s|, 0
  {
    hide Terms, Resolve, Atom;
    if IsComputed(f, g) {
      FewerLeft(f, s, g);
      SeenOnlyBlocksResolve(x, f, Join(f.groups[g]), s + {g}, t + {g});
    }
  }

  lemma {:induction false} SeenOnlyBlocksAtom(x: Lexis, f: Fleet, a: string, s: set<Name>, t: set<Name>)
    requires Opened(f, s) && t <= s && Atom(x, f, a, s).Ok?
    ensures Opened(f, t) && Atom(x, f, a, t) == Atom(x, f, a, s)
    decreases |f.groups.Keys - s|, 1
  {
    hide Members;
    if a != "*" && a != "all" && a != "" && a[0] == '@' {
      SeenOnlyBlocks(x, f, a[1..], s, t);
    }
  }

  lemma {:induction false} SeenOnlyBlocksResolve(x: Lexis, f: Fleet, expr: string, s: set<Name>, t: set<Name>)
    requires Opened(f, s) && t <= s && Resolve(x, f, expr, s).Ok?
    ensures Opened(f, t) && Resolve(x, f, expr, t) == Resolve(x, f, expr, s)
    decreases |f.groups.Keys - s|, 2
  {
    hide Terms, Resolve, Atom;
    ResolveDenotes(x, f, expr, s);
    ResolveDenotes(x, f, expr, t);
    var terms := Terms(x, expr);
    var value := ValueOf(x, f, s);
    forall i | 0 <= i < |terms| ensures Atom(x, f, terms[i].atom, t) == Ok(value(terms[i].atom)) &&
        Atom(x, f, terms[i].atom, s) == Ok(value(terms[i].atom)) {
      SeenOnlyBlocksAtom(x, f, terms[i].atom, s, t);
    }
    assert Values(x, f, value, terms, s) && Values(x, f, value, terms, t);
  }

  /** A computed group that evaluates denotes its own hosts and what its selector denotes, groups in it included. */
  lemma ComputedGroupsAreSelectors(x: Lexis, f: Fleet, g: Name)
    requires IsComputed(f, g) && Opened(f, {}) && Members(x, f, g, {}).Ok?
    ensures Members(x, f, g, {}).value == Tagged(f, g) + Denoted(f, ValueOf(x, f, {}), Terms(x, Join(f.groups[g])))
  {
    hide Terms, Resolve, Atom;
    var expr := Join(f.groups[g]);
    var terms := Terms(x, expr);
    FewerLeft(f, {}, g);
    assert {} + {g} == {g};
    ResolveDenotes(x, f, expr, {g});
    var value := ValueOf(x, f, {});
    forall i | 0 <= i < |terms| ensures Atom(x, f, terms[i].atom, {g}) == Ok(value(terms[i].atom)) {
      assert AllOk(x, f, terms, {g});
      SeenOnlyBlocksAtom(x, f, terms[i].atom, {g}, {});
    }
    assert Values(x, f, value, terms, {g});
  }

  // --- cycles ------------------------------------------------------------------------------------------------------

  predicate NamesGroup(a: string, g: Name) {
    a != "" && a[0] == '@' && a[1..] == g
  }

  ghost predicate Uses(terms: seq<Term>, g: Name) {
    exists i :: 0 <= i < |terms| && NamesGroup(terms[i].atom, g)
  }

  /** The selector of `g` names the group `h`. */
  ghost predicate IsEdge(x: Lexis, f: Fleet, g: Name, h: Name) {
    IsComputed(f, g) && Uses(Terms(x, Join(f.groups[g])), h)
  }

  ghost predicate IsWalk(x: Lexis, f: Fleet, p: seq<Name>) {
    forall i :: 0 <= i < |p| - 1 ==> IsEdge(x, f, p[i], p[i + 1])
  }

  /** The last group of the walk is one of `seen` or of the groups before it. */
  ghost predicate ComesBack(p: seq<Name>, seen: set<Name>) {
    p != [] && (p[|p| - 1] in seen || exists i :: 0 <= i < |p| - 1 && p[i] == p[|p| - 1])
  }

  predicate GroupExists(f: Fleet, g: Name) {
    g in f.groups || Tagged(f, g) != {}
  }

  /** The atom names nothing that does not exist. */
  predicate Known(f: Fleet, a: string) {
    if a != "" && a[0] == '@' then GroupExists(f, a[1..])
    else a == "all" || '=' in a || '*' in a || '?' in a || '[' in a || a in f.hosts
  }

  ghost predicate AllKnown(f: Fleet, terms: seq<Term>) {
    terms != [] && forall i :: 0 <= i < |terms| ==> Known(f, terms[i].atom)
  }

  /** Every computed group's selector has a term, and names only hosts and groups that exist. */
  ghost predicate WellNamed(x: Lexis, f: Fleet) {
    forall g :: IsComputed(f, g) ==> AllKnown(f, Terms(x, Join(f.groups[g])))
  }

  /** A group that evaluates is on no walk that comes back. */
  lemma {:induction false} EvaluatedGroupsDoNotComeBack(x: Lexis, f: Fleet, p: seq<Name>, seen: set<Name>)
    requires p != [] && IsWalk(x, f, p) && Opened(f, seen) && Members(x, f, p[0], seen).Ok?
    ensures !ComesBack(p, seen)
    decreases |p|
  {
    hide Terms, Atom, Resolve;
    if |p| > 1 {
      var g, h, rest := p[0], p[1], p[1..];
      assert IsEdge(x, f, g, h);
      FewerLeft(f, seen, g);
      var terms := Terms(x, Join(f.groups[g]));
      ResolveDenotes(x, f, Join(f.groups[g]), seen + {g});
      var i :| 0 <= i < |terms| && NamesGroup(terms[i].atom, h);
      assert Atom(x, f, terms[i].atom, seen + {g}).Ok?;
      GroupAtom(x, f, terms[i].atom, h, seen + {g});
      forall k | 0 <= k < |rest| - 1 ensures IsEdge(x, f, rest[k], rest[k + 1]) {
        assert IsEdge(x, f, p[k + 1], p[k + 2]);
      }
      EvaluatedGroupsDoNotComeBack(x, f, rest, seen + {g});
      assert rest[|rest| - 1] == p[|p| - 1];
      forall k | 0 <= k < |p| - 1 ensures p[k] != p[|p| - 1] {
        if k > 0 {
          assert rest[k - 1] == p[k];
        }
      }
    }
  }

  lemma GroupAtom(x: Lexis, f: Fleet, a: string, g: Name, seen: set<Name>)
    requires Opened(f, seen) && NamesGroup(a, g)
    ensures Atom(x, f, a, seen) == Members(x, f, g, seen)
  {
    hide Members;
  }

  /** When all names exist, a group fails to evaluate only because a walk from it comes back. */
  lemma {:induction false} FailingGroupsComeBack(x: Lexis, f: Fleet, g: Name, seen: set<Name>) returns (p: seq<Name>)
    requires WellNamed(x, f) && GroupExists(f, g) && Opened(f, seen) && Members(x, f, g, seen).Err?
    ensures Members(x, f, g, seen).error.Cycle?
    ensures p != [] && p[0] == g && IsWalk(x, f, p) && ComesBack(p, seen)
    decreases |f.groups.Keys - seen|, 0
  {
    hide Terms, Atom, Resolve;
    if g in seen {
      p := [g];
    } else {
      FewerLeft(f, seen, g);
      var terms := Terms(x, Join(f.groups[g]));
      var i, h := FailingSelectorsComeBack(x, f, Join(f.groups[g]), seen + {g});
      var rest := FailingGroupsComeBack(x, f, h, seen + {g});
      assert IsEdge(x, f, g, h);
      p := [g] + rest;
      forall k | 0 <= k < |p| - 1 ensures IsEdge(x, f, p[k], p[k + 1]) {
        if k > 0 {
          assert IsEdge(x, f, rest[k - 1], rest[k]);
        }
      }
      var last := p[|p| - 1];
      assert last == rest[|rest| - 1];
      if last == g {
        assert p[0] == last;
      } else if last !in seen {
        var k :| 0 <= k < |rest| - 1 && rest[k] == last;
        assert p[k + 1] == last;
      }
    }
  }

  /** When all names exist, a selector fails only because of a group in it, with that group's error. */
  lemma FailingSelectorsComeBack(x: Lexis, f: Fleet, expr: string, seen: set<Name>) returns (i: nat, h: Name)
    requires AllKnown(f, Terms(x, expr)) && Opened(f, seen) && Resolve(x, f, expr, seen).Err?
    ensures i < |Terms(x, expr)| && NamesGroup(Terms(x, expr)[i].atom, h) && GroupExists(f, h)
    ensures Members(x, f, h, seen) == Resolve(x, f, expr, seen)
  {
    hide Terms, Atom, Members;
    var terms := Terms(x, expr);
    if HasPlain(terms) && Union(x, f, terms, seen).Err? {
      i := UnionError(x, f, terms, seen);
    } else {
      i := RefineError(x, f, if HasPlain(terms) then Union(x, f, terms, seen).value else f.hosts.Keys, terms, seen);
    }
    var a := terms[i].atom;
    KnownAtomFails(x, f, a, seen);
    h := a[1..];
    GroupAtom(x, f, a, h, seen);
  }

  lemma KnownAtomFails(x: Lexis, f: Fleet, a: string, seen: set<Name>)
    requires Opened(f, seen) && Known(f, a) && Atom(x, f, a, seen).Err?
    ensures a != "" && a[0] == '@' && GroupExists(f, a[1..])
  {
    hide Members;
  }

  lemma {:induction false} UnionError(x: Lexis, f: Fleet, terms: seq<Term>, seen: set<Name>) returns (i: nat)
    requires Opened(f, seen) && Union(x, f, terms, seen).Err?
    ensures i < |terms| && Atom(x, f, terms[i].atom, seen) == Union(x, f, terms, seen)
    decreases |terms|
  {
    hide Atom;
    var n := |terms| - 1;
    if Union(x, f, terms[..n], seen).Err? {
      i := UnionError(x, f, terms[..n], seen);
    } else {
      i := n;
    }
  }

  lemma {:induction false} RefineError(x: Lexis, f: Fleet, chosen: set<Name>, terms: seq<Term>, seen: set<Name>)
      returns (i: nat)
    requires Opened(f, seen) && chosen <= f.hosts.Keys && Refine(x, f, chosen, terms, seen).Err?
    ensures i < |terms| && Atom(x, f, terms[i].atom, seen) == Refine(x, f, chosen, terms, seen)
    decreases |terms|
  {
    hide Atom;
    var n := |terms| - 1;
    if Refine(x, f, chosen, terms[..n], seen).Err? {
      i := RefineError(x, f, chosen, terms[..n], seen);
    } else {
      i := n;
    }
  }

  ghost predicate CycleFrom(x: Lexis, f: Fleet, terms: seq<Term>, p: seq<Name>) {
    p != [] && Uses(terms, p[0]) && IsWalk(x, f, p) && ComesBack(p, {})
  }

  /** With all names known, a selector fails exactly when a cycle of groups can be reached from it, and says so. */
  lemma CyclesAreReportedExactly(x: Lexis, f: Fleet, expr: string)
    requires WellNamed(x, f) && AllKnown(f, Terms(x, expr))
    ensures Opened(f, {}) && (Resolve(x, f, expr, {}).Err? <==> exists p :: CycleFrom(x, f, Terms(x, expr), p))
    ensures Resolve(x, f, expr, {}).Err? ==> Resolve(x, f, expr, {}).error.Cycle?
  {
    hide Terms, Atom, Members, Resolve;
    var terms := Terms(x, expr);
    if Resolve(x, f, expr, {}).Err? {
      var i, h := FailingSelectorsComeBack(x, f, expr, {});
      var p := FailingGroupsComeBack(x, f, h, {});
      assert CycleFrom(x, f, terms, p);
    } else {
      ResolveDenotes(x, f, expr, {});
      forall p | CycleFrom(x, f, terms, p) ensures false {
        var i :| 0 <= i < |terms| && NamesGroup(terms[i].atom, p[0]);
        assert Atom(x, f, terms[i].atom, {}).Ok?;
        GroupAtom(x, f, terms[i].atom, p[0], {});
        EvaluatedGroupsDoNotComeBack(x, f, p, {});
      }
    }
  }
}
