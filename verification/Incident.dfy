/**
 Causal incident analysis (`insights/incident.py`): who failed when, what depends on what, and which failures are roots.
 Times are real numbers.
 */
module Incident {
  type Name = string

  datatype Severity = Critical | Warning | Info

  datatype Signal = Signal(t: real, container: Name, severity: Severity, detail: string)

  /** Who depends on whom. */
  type Edges = map<Name, set<Name>>

  function Targets(e: Edges, a: Name): set<Name> {
    if a in e then e[a] else {}
  }

  // --- the closure -------------------------------------------------------------------------------------------------

  ghost predicate IsPath(e: Edges, p: seq<Name>) {
    forall i :: 0 <= i < |p| - 1 ==> p[i + 1] in Targets(e, p[i])
  }

  /** There is a path of one or more edges. */
  ghost predicate Reaches(e: Edges, a: Name, b: Name) {
    exists p :: |p| >= 2 && p[0] == a && p[|p| - 1] == b && IsPath(e, p)
  }

  lemma ReachesEdge(e: Edges, a: Name, b: Name)
    requires b in Targets(e, a)
    ensures Reaches(e, a, b)
  {
    var p := [a, b];
    assert IsPath(e, p);
  }

  lemma ReachesOn(e: Edges, a: Name, b: Name, c: Name)
    requires Reaches(e, a, b) && c in Targets(e, b)
    ensures Reaches(e, a, c)
  {
    var p :| |p| >= 2 && p[0] == a && p[|p| - 1] == b && IsPath(e, p);
    var q := p + [c];
    forall i | 0 <= i < |q| - 1 ensures q[i + 1] in Targets(e, q[i]) {
      if i < |p| - 1 {
        assert p[i + 1] in Targets(e, p[i]);
      }
    }
    assert IsPath(e, q);
  }

  lemma ReachesThrough(e: Edges, a: Name, b: Name, c: Name)
    requires Reaches(e, a, b) && Reaches(e, b, c)
    ensures Reaches(e, a, c)
  {
    var p :| |p| >= 2 && p[0] == a && p[|p| - 1] == b && IsPath(e, p);
    var q :| |q| >= 2 && q[0] == b && q[|q| - 1] == c && IsPath(e, q);
    var r := p + q[1..];
    forall i | 0 <= i < |r| - 1 ensures r[i + 1] in Targets(e, r[i]) {
      if i < |p| - 1 {
        assert p[i + 1] in Targets(e, p[i]);
      } else {
        assert q[i - |p| + 2] in Targets(e, q[i - |p| + 1]);
        assert r[i] == q[i - |p| + 1] && r[i + 1] == q[i - |p| + 2];
      }
    }
    assert IsPath(e, r);
  }

  /** A set that has the targets of `a` and of its own members has everything reachable from `a`. */
  lemma ClosedHoldsReachable(e: Edges, a: Name, s: set<Name>, b: Name)
    requires Targets(e, a) <= s && (forall x :: x in s ==> Targets(e, x) <= s) && Reaches(e, a, b)
    ensures b in s
  {
    var p :| |p| >= 2 && p[0] == a && p[|p| - 1] == b && IsPath(e, p);
    for i := 1 to |p| - 1
      invariant p[i] in s
    {
      assert p[i + 1] in Targets(e, p[i]);
    }
  }

  ghost function AllTargets(e: Edges): set<Name> {
    set a, b | a in e && b in e[a] :: b
  }

  /** `_closure` */
  method Closure(start: Name, e: Edges) returns (seen: set<Name>)
    ensures forall b :: b in seen <==> Reaches(e, start, b)
  {
    hide Reaches, AllTargets;
    seen := {};
    var stack := [start];
    while stack != []
      invariant seen <= AllTargets(e)
      invariant forall b :: b in seen ==> Reaches(e, start, b)
      invariant forall x :: x in stack ==> x == start || x in seen
      invariant forall x :: (x == start || x in seen) && x !in stack ==> Targets(e, x) <= seen
      decreases AllTargets(e) - seen, |stack|
    {
      var x := stack[|stack| - 1];
      stack := stack[..|stack| - 1];
      ghost var before, had := seen, stack;
      var left := Targets(e, x);
      TargetsInside(e, x);
      while left != {}
        invariant left <= Targets(e, x)
        invariant before <= seen <= AllTargets(e)
        invariant forall b :: b in seen ==> Reaches(e, start, b)
        invariant forall b :: b in Targets(e, x) && b !in left ==> b in seen
        invariant forall y :: y in stack <==> y in had || y in seen - before
        invariant seen == before ==> stack == had
        decreases left
      {
        var next :| next in left;
        left := left - {next};
        if next !in seen {
          if x == start {
            ReachesEdge(e, start, next);
          } else {
            ReachesOn(e, start, x, next);
          }
          seen := seen + {next};
          stack := stack + [next];
        }
      }
    }
    forall b | Reaches(e, start, b) ensures b in seen {
      ClosedHoldsReachable(e, start, seen, b);
    }
  }

  lemma TargetsInside(e: Edges, x: Name)
    ensures Targets(e, x) <= AllTargets(e)
  {
  }

  // --- turning edges round -----------------------------------------------------------------------------------------

  ghost predicate IsReverse(e: Edges, r: Edges) {
    forall a, b :: b in Targets(e, a) <==> a in Targets(r, b)
  }

  /** The edges out of all but `left` are turned round. */
  ghost predicate ReversedBut(e: Edges, r: Edges, left: set<Name>) {
    forall a, b :: a in Targets(r, b) <==> a !in left && b in Targets(e, a)
  }

  /** Of the edges out of `a`, those to all but `bs` are added to `before`. */
  ghost predicate AddedBut(before: Edges, r: Edges, a: Name, all: set<Name>, bs: set<Name>) {
    forall x, b :: x in Targets(r, b) <==> x in Targets(before, b) || (x == a && b in all && b !in bs)
  }

  lemma OneMoreEdge(before: Edges, r: Edges, a: Name, all: set<Name>, bs: set<Name>, b: Name)
    requires AddedBut(before, r, a, all, bs) && b in bs && bs <= all
    ensures AddedBut(before, r[b := Targets(r, b) + {a}], a, all, bs - {b})
  {
    var now := r[b := Targets(r, b) + {a}];
    forall x, c ensures x in Targets(now, c) <==> x in Targets(before, c) || (x == a && c in all && c !in bs - {b}) {
      assert x in Targets(r, c) <==> x in Targets(before, c) || (x == a && c in all && c !in bs);
    }
  }

  lemma OneMoreSource(e: Edges, before: Edges, r: Edges, left: set<Name>, a: Name)
    requires ReversedBut(e, before, left) && a in left && a in e && AddedBut(before, r, a, e[a], {})
    ensures ReversedBut(e, r, left - {a})
  {
    forall x, b ensures x in Targets(r, b) <==> x !in left - {a} && b in Targets(e, x) {
      assert x in Targets(r, b) <==> x in Targets(before, b) || (x == a && b in e[a]);
      assert x in Targets(before, b) <==> x !in left && b in Targets(e, x);
    }
  }

  lemma NothingReversed(e: Edges, r: Edges)
    ensures ReversedBut(e, map[], e.Keys) && (ReversedBut(e, r, {}) ==> IsReverse(e, r))
    ensures forall a, all :: AddedBut(r, r, a, all, all)
  {
  }

  /** `rdeps` */
  method Reverse(e: Edges) returns (r: Edges)
    ensures IsReverse(e, r)
  {
    hide IsReverse, ReversedBut, AddedBut;
    r := map[];
    var left := e.Keys;
    NothingReversed(e, r);
    while left != {}
      invariant left <= e.Keys && ReversedBut(e, r, left)
      decreases left
    {
      var a :| a in left;
      var bs := e[a];
      ghost var before := r;
      NothingReversed(e, r);
      while bs != {}
        invariant bs <= e[a] && AddedBut(before, r, a, e[a], bs)
        decreases bs
      {
        var b :| b in bs;
        OneMoreEdge(before, r, a, e[a], bs, b);
        r := r[b := Targets(r, b) + {a}];
        bs := bs - {b};
      }
      OneMoreSource(e, before, r, left, a);
      left := left - {a};
    }
    NothingReversed(e, r);
  }

  lemma ReversedReach(e: Edges, r: Edges, a: Name, b: Name)
    requires IsReverse(e, r)
    ensures Reaches(e, a, b) <==> Reaches(r, b, a)
  {
    assert IsReverse(r, e);
    if Reaches(e, a, b) {
      ReversedOneWay(e, r, a, b);
    }
    if Reaches(r, b, a) {
      ReversedOneWay(r, e, b, a);
    }
  }

  lemma ReversedOneWay(e: Edges, r: Edges, a: Name, b: Name)
    requires IsReverse(e, r) && Reaches(e, a, b)
    ensures Reaches(r, b, a)
  {
    var p :| |p| >= 2 && p[0] == a && p[|p| - 1] == b && IsPath(e, p);
    var q := seq(|p|, i requires 0 <= i < |p| => p[|p| - 1 - i]);
    forall i | 0 <= i < |q| - 1 ensures q[i + 1] in Targets(r, q[i]) {
      var k := |p| - 2 - i;
      assert p[k + 1] in Targets(e, p[k]);
    }
    assert IsPath(r, q) && q[0] == b && q[|q| - 1] == a;
  }

  // --- who failed when -----------------------------------------------------------------------------------------------

  ghost predicate InTimeOrder(sigs: seq<Signal>) {
    forall i, j :: 0 <= i < j < |sigs| ==> sigs[i].t <= sigs[j].t
  }

  function Inserted(sigs: seq<Signal>, s: Signal): seq<Signal> {
    if sigs == [] || sigs[|sigs| - 1].t <= s.t then sigs + [s] else Inserted(sigs[..|sigs| - 1], s) + [sigs[|sigs| - 1]]
  }

  /** `sorted(signals, key=lambda s: s.t)`: signals of one time stay in their order. */
  function ByTime(signals: seq<Signal>): seq<Signal> {
    if signals == [] then [] else Inserted(ByTime(signals[..|signals| - 1]), signals[|signals| - 1])
  }

  lemma {:induction false} InsertedHolds(sigs: seq<Signal>, s: Signal)
    ensures forall x :: x in Inserted(sigs, s) <==> x in sigs || x == s
    decreases |sigs|
  {
    if sigs != [] && sigs[|sigs| - 1].t > s.t {
      var n := |sigs| - 1;
      InsertedHolds(sigs[..n], s);
      assert sigs == sigs[..n] + [sigs[n]];
    }
  }

  lemma OneLater(sigs: seq<Signal>, last: Signal)
    requires InTimeOrder(sigs) && forall x :: x in sigs ==> x.t <= last.t
    ensures InTimeOrder(sigs + [last])
  {
    assert forall i :: 0 <= i < |sigs| ==> sigs[i] in sigs;
  }

  lemma LastIsLatest(sigs: seq<Signal>)
    requires InTimeOrder(sigs) && sigs != []
    ensures InTimeOrder(sigs[..|sigs| - 1]) && forall x :: x in sigs ==> x.t <= sigs[|sigs| - 1].t
  {
    forall x | x in sigs ensures x.t <= sigs[|sigs| - 1].t {
      var k :| 0 <= k < |sigs| && sigs[k] == x;
    }
  }

  lemma {:induction false} InsertedInOrder(sigs: seq<Signal>, s: Signal)
    requires InTimeOrder(sigs)
    ensures InTimeOrder(Inserted(sigs, s))
    decreases |sigs|
  {
    hide InTimeOrder;
    if sigs == [] {
      assert InTimeOrder([] + [s]) by { assert InTimeOrder([]); OneLater([], s); }
    } else {
      var n := |sigs| - 1;
      LastIsLatest(sigs);
      if sigs[n].t <= s.t {
        OneLater(sigs, s);
      } else {
        InsertedInOrder(sigs[..n], s);
        InsertedHolds(sigs[..n], s);
        OneLater(Inserted(sigs[..n], s), sigs[n]);
      }
    }
  }

  lemma {:induction false} ByTimeInOrder(signals: seq<Signal>)
    ensures InTimeOrder(ByTime(signals)) && forall x :: x in ByTime(signals) <==> x in signals
    decreases |signals|
  {
    hide Inserted;
    if signals != [] {
      var n := |signals| - 1;
      ByTimeInOrder(signals[..n]);
      InsertedInOrder(ByTime(signals[..n]), signals[n]);
      InsertedHolds(ByTime(signals[..n]), signals[n]);
      assert signals == signals[..n] + [signals[n]];
    }
  }

  /** `first` maps exactly the containers with a critical signal, to the time of their first one. */
  ghost predicate IsFirstBad(signals: seq<Signal>, first: map<Name, real>) {
    && (forall c :: c in first ==> exists s ::
        s in signals && s.severity == Critical && s.container == c && s.t == first[c])
    && (forall s :: s in signals && s.severity == Critical ==> s.container in first && first[s.container] <= s.t)
  }

  /** Each once, in the order of failure; who failed at one moment may come in any order. */
  ghost predicate ByFailure(first: map<Name, real>, names: seq<Name>) {
    && (forall c :: c in names ==> c in first)
    && (forall i, j :: 0 <= i < j < |names| ==> names[i] != names[j])
    && forall i, j :: 0 <= i < j < |names| && names[i] in first && names[j] in first ==>
        first[names[i]] <= first[names[j]]
  }

  /** All failed containers. */
  ghost predicate InFailureOrder(first: map<Name, real>, failing: seq<Name>) {
    ByFailure(first, failing) && forall c :: c in first ==> c in failing
  }

  /** After the signals `before`, of which `last` is no later than any to come. */
  ghost predicate FirstSoFar(before: seq<Signal>, first: map<Name, real>, failing: seq<Name>, last: real) {
    IsFirstBad(before, first) && InFailureOrder(first, failing) && forall c :: c in first ==> first[c] <= last
  }

  method FirstBad(signals: seq<Signal>) returns (first: map<Name, real>, failing: seq<Name>)
    ensures IsFirstBad(signals, first) && InFailureOrder(first, failing)
  {
    hide IsFirstBad, InFailureOrder, FirstSoFar, ByTime;
    var sigs := ByTime(signals);
    ByTimeInOrder(signals);
    first, failing := map[], [];
    ghost var last := if sigs == [] then 0.0 else sigs[0].t;
    NoSignalYet(last);
    for i := 0 to |sigs|
      invariant FirstSoFar(sigs[..i], first, failing, last)
      invariant i < |sigs| ==> last <= sigs[i].t
    {
      var s := sigs[i];
      OneMoreSignal(sigs[..i], s, first, failing, last);
      assert sigs[..i + 1] == sigs[..i] + [s];
      if s.severity == Critical && s.container !in first {
        first := first[s.container := s.t];
        failing := failing + [s.container];
      }
      last := s.t;
    }
    assert sigs[..|sigs|] == sigs;
    FirstOfAll(sigs, first, failing, last);
    SameSignals(signals, sigs, first);
  }

  lemma NoSignalYet(last: real)
    ensures FirstSoFar([], map[], [], last)
  {
  }

  lemma FirstOfAll(sigs: seq<Signal>, first: map<Name, real>, failing: seq<Name>, last: real)
    requires FirstSoFar(sigs, first, failing, last)
    ensures IsFirstBad(sigs, first) && InFailureOrder(first, failing)
  {
  }

  lemma OneMoreSignal(before: seq<Signal>, s: Signal, first: map<Name, real>, failing: seq<Name>, last: real)
    requires FirstSoFar(before, first, failing, last) && last <= s.t
    ensures if s.severity == Critical && s.container !in first
            then FirstSoFar(before + [s], first[s.container := s.t], failing + [s.container], s.t)
            else FirstSoFar(before + [s], first, failing, s.t)
  {
    hide InFailureOrder, IsFirstBad;
    OneMoreFirst(before, s, first, last);
    if s.severity == Critical && s.container !in first {
      OneMoreFailing(first, failing, s.container, s.t);
    }
  }

  lemma OneMoreFirst(before: seq<Signal>, s: Signal, first: map<Name, real>, last: real)
    requires IsFirstBad(before, first) && last <= s.t && forall c :: c in first ==> first[c] <= last
    ensures var now := if s.severity == Critical && s.container !in first then first[s.container := s.t] else first;
            IsFirstBad(before + [s], now)
  {
    var all := before + [s];
    var now := if s.severity == Critical && s.container !in first then first[s.container := s.t] else first;
    forall c | c in now ensures exists x :: x in all && x.severity == Critical && x.container == c && x.t == now[c] {
      if c in first {
        var x :| x in before && x.severity == Critical && x.container == c && x.t == first[c];
        assert x in all;
      } else {
        assert s in all;
      }
    }
    forall x | x in all && x.severity == Critical ensures x.container in now && now[x.container] <= x.t {
      assert x in before || x == s;
    }
  }

  lemma OneMoreFailing(first: map<Name, real>, failing: seq<Name>, c: Name, t: real)
    requires InFailureOrder(first, failing) && c !in first && forall d :: d in first ==> first[d] <= t
    ensures InFailureOrder(first[c := t], failing + [c])
  {
    assert forall i :: 0 <= i < |failing| ==> failing[i] in failing;
  }

  lemma SameSignals(a: seq<Signal>, b: seq<Signal>, first: map<Name, real>)
    requires IsFirstBad(b, first) && forall x :: x in b <==> x in a
    ensures IsFirstBad(a, first)
  {
  }

  // --- roots -------------------------------------------------------------------------------------------------------

  /** Nothing it depends on failed earlier. */
  ghost predicate IsRoot(e: Edges, first: map<Name, real>, c: Name) {
    c in first && forall d :: Reaches(e, c, d) && d in first ==> first[d] >= first[c]
  }

  /** What the analysis reports: failures, roots, and the blast radius of the first root, each in the order of failure;
      the chain is the first root and its blast radius. */
  datatype Report = Report(failing: seq<Name>, roots: seq<Name>, blast: seq<Name>, chain: seq<Name>)

  ghost predicate IsReport(signals: seq<Signal>, e: Edges, r: Report, first: map<Name, real>) {
    && IsFirstBad(signals, first) && InFailureOrder(first, r.failing)
    && (if e == map[] then r.roots == r.failing[..if r.failing == [] then 0 else 1]
        else
          && (forall c :: c in r.roots <==> IsRoot(e, first, c))
          && (forall i, j :: 0 <= i < j < |r.roots| ==>
              r.roots[i] in first && r.roots[j] in first && first[r.roots[i]] <= first[r.roots[j]])
          && (r.roots != [] ==> r.failing != [] && r.roots[0] == r.failing[0]))
    && (forall c :: c in r.blast <==>
          && r.roots != [] && c in first && r.roots[0] in first && first[c] >= first[r.roots[0]]
          && (if e == map[] then c != r.roots[0] else Reaches(e, c, r.roots[0])))
    && ByFailure(first, r.blast)
    && r.chain == (if r.roots == [] then [] else [r.roots[0]] + r.blast)
  }

  /** The roots among the first `i` failures, in their order. */
  ghost predicate AreRoots(e: Edges, first: map<Name, real>, failing: seq<Name>, i: nat, roots: seq<Name>)
    requires i <= |failing|
  {
    && (forall c :: c in roots <==> c in failing[..i] && IsRoot(e, first, c))
    && (forall k :: 0 <= k < |roots| ==> roots[k] in first)
    && (forall k, j :: 0 <= k < j < |roots| ==> first[roots[k]] <= first[roots[j]])
    && (if i == 0 then roots == [] else roots != [] && roots[0] == failing[0])
  }

  method Roots(e: Edges, first: map<Name, real>, failing: seq<Name>) returns (roots: seq<Name>)
    requires InFailureOrder(first, failing)
    ensures AreRoots(e, first, failing, |failing|, roots)
  {
    hide Reaches, IsRoot, AreRoots, InFailureOrder;
    roots := [];
    assert AreRoots(e, first, failing, 0, roots) by { NoRootsYet(e, first, failing); }
    for i := 0 to |failing|
      invariant AreRoots(e, first, failing, i, roots)
    {
      var c := failing[i];
      FailingAreFirst(first, failing);
      var upstream := Closure(c, e);
      var late := forall d :: d in upstream ==> d in first ==> first[d] >= first[c];
      RootByClosure(e, first, c, upstream);
      NextRoot(e, first, failing, i, roots);
      if late {
        roots := roots + [c];
      }
    }
  }

  lemma NoRootsYet(e: Edges, first: map<Name, real>, failing: seq<Name>)
    ensures AreRoots(e, first, failing, 0, [])
  {
  }

  lemma NextRoot(e: Edges, first: map<Name, real>, failing: seq<Name>, i: nat, roots: seq<Name>)
    requires InFailureOrder(first, failing) && i < |failing| && AreRoots(e, first, failing, i, roots)
    ensures AreRoots(e, first, failing, i + 1, if IsRoot(e, first, failing[i]) then roots + [failing[i]] else roots)
  {
    hide IsRoot;
    var c := failing[i];
    assert failing[..i + 1] == failing[..i] + [c];
    if i == 0 {
      FirstIsRoot(e, first, failing);
    }
    forall k | 0 <= k < |roots| ensures first[roots[k]] <= first[c] {
      assert roots[k] in roots && roots[k] in failing[..i];
      var j :| 0 <= j < i && failing[..i][j] == roots[k];
      assert failing[j] == roots[k] && failing[j] in failing && c in failing;
    }
  }

  lemma RootByClosure(e: Edges, first: map<Name, real>, c: Name, upstream: set<Name>)
    requires c in first && forall b :: b in upstream <==> Reaches(e, c, b)
    ensures (forall d :: d in upstream ==> d in first ==> first[d] >= first[c]) <==> IsRoot(e, first, c)
  {
    hide Reaches;
  }

  lemma FirstIsRoot(e: Edges, first: map<Name, real>, failing: seq<Name>)
    requires InFailureOrder(first, failing) && failing != []
    ensures IsRoot(e, first, failing[0])
  {
    hide Reaches;
    forall d | d in first ensures first[d] >= first[failing[0]] {
      var j :| 0 <= j < |failing| && failing[j] == d;
      assert failing[0] in failing;
    }
  }

  lemma EarliestExists(first: map<Name, real>, names: set<Name>)
    requires names != {} && names <= first.Keys
    ensures exists c :: c in names && forall d :: d in names ==> first[c] <= first[d]
  {
    var c :| c in names;
    if names != {c} {
      var rest := names - {c};
      EarliestExists(first, rest);
      var m :| m in rest && forall d :: d in rest ==> first[m] <= first[d];
      var least := if first[c] <= first[m] then c else m;
      assert forall d :: d in names ==> d == c || d in rest;
      assert least in names && forall d :: d in names ==> first[least] <= first[d];
    }
  }

  /** `sorted(names, key=lambda c: first_bad[c])` */
  method SortedByFailure(first: map<Name, real>, names: set<Name>) returns (r: seq<Name>)
    requires names <= first.Keys
    ensures ByFailure(first, r) && forall c :: c in r <==> c in names
  {
    hide ByFailure;
    var left := names;
    r := [];
    NoneByFailure(first);
    while left != {}
      invariant left <= names && ByFailure(first, r)
      invariant forall c :: c in r <==> c in names && c !in left
      invariant forall c, d :: c in r && d in left ==> first[c] <= first[d]
      decreases left
    {
      EarliestExists(first, left);
      var c :| c in left && forall d :: d in left ==> first[c] <= first[d];
      OneMoreByFailure(first, r, c);
      r := r + [c];
      left := left - {c};
    }
  }

  lemma NoneByFailure(first: map<Name, real>)
    ensures ByFailure(first, [])
  {
  }

  lemma OneMoreByFailure(first: map<Name, real>, names: seq<Name>, c: Name)
    requires ByFailure(first, names) && c in first && c !in names && forall d :: d in names && d in first ==>
        first[d] <= first[c]
    ensures ByFailure(first, names + [c])
  {
    assert forall i :: 0 <= i < |names| ==> names[i] in names;
  }

  /** `analyze`, with the times of the first failures that it ranks by. */
  method Analyze(signals: seq<Signal>, e: Edges) returns (r: Report, first: map<Name, real>)
    ensures IsReport(signals, e, r, first)
  {
    hide Reaches, IsRoot, IsFirstBad, InFailureOrder, IsReverse, ByFailure;
    var bad, failing := FirstBad(signals);
    first := bad;
    var roots := Roots(e, bad, failing);
    FailingAreFirst(bad, failing);
    RootsHaveFailed(e, bad);
    assert failing[..|failing|] == failing;
    if e == map[] && roots != [] {
      roots := roots[..1];
    }
    if roots == [] {
      assert failing == [];
      NoneByFailure(bad);
      return Report(failing, [], [], []), bad;
    }
    var root := roots[0];
    assert root == failing[0] && root in failing;
    var downstream: set<Name>;
    if e != map[] {
      var back := Reverse(e);
      downstream := Closure(root, back);
      forall c ensures c in downstream <==> Reaches(e, c, root) {
        ReversedReach(e, back, c, root);
      }
    } else {
      downstream := bad.Keys - {root};
    }
    var blast := SortedByFailure(bad, set c | c in downstream && c in bad && bad[c] >= bad[root]);
    r := Report(failing, roots, blast, [root] + blast);
  }

  lemma RootsHaveFailed(e: Edges, first: map<Name, real>)
    ensures forall c :: IsRoot(e, first, c) ==> c in first
  {
    hide Reaches;
  }

  lemma FailingAreFirst(first: map<Name, real>, failing: seq<Name>)
    requires InFailureOrder(first, failing)
    ensures forall c :: c in failing <==> c in first
  {
  }

  // --- what the report is worth ------------------------------------------------------------------------------------

  ghost function EarlierThan(first: map<Name, real>, t: real): set<Name> {
    set c | c in first && first[c] < t
  }

  /** Every failure is a root, or depends on a root that failed before it, through cycles too. */
  lemma {:induction false} EveryFailureHasARoot(e: Edges, first: map<Name, real>, c: Name) returns (root: Name)
    requires c in first
    ensures IsRoot(e, first, root) && (root == c || (Reaches(e, c, root) && first[root] < first[c]))
    decreases EarlierThan(first, first[c])
  {
    hide Reaches;
    if IsRoot(e, first, c) {
      root := c;
    } else {
      var d :| Reaches(e, c, d) && d in first && first[d] < first[c];
      assert d in EarlierThan(first, first[c]) && d !in EarlierThan(first, first[d]);
      root := EveryFailureHasARoot(e, first, d);
      if root != d {
        ReachesThrough(e, c, d, root);
      }
    }
  }

  /** There is a root exactly when something failed. */
  lemma RootsAreThereForFailures(signals: seq<Signal>, e: Edges, r: Report, first: map<Name, real>)
    requires IsReport(signals, e, r, first)
    ensures r.roots != [] <==> exists s :: s in signals && s.severity == Critical
  {
    hide Reaches;
    if s :| s in signals && s.severity == Critical {
      assert s.container in r.failing;
      if e != map[] {
        FirstIsRoot(e, first, r.failing);
        assert r.failing[0] in r.roots;
      }
    }
    if r.roots != [] {
      assert r.roots[0] in first by {
        if e == map[] {
          assert r.roots[0] in r.failing;
        } else {
          assert r.roots[0] in r.roots;
          assert IsRoot(e, first, r.roots[0]);
        }
      }
      var s :| s in signals && s.severity == Critical && s.container == r.roots[0] && s.t == first[r.roots[0]];
    }
  }

  /** Whatever the dependencies, the root cause named is the container that failed first. */
  lemma RootCauseIsTheFirstFailure(signals: seq<Signal>, e: Edges, r: Report, first: map<Name, real>)
    requires IsReport(signals, e, r, first) && r.roots != []
    ensures r.failing != [] && r.roots[0] == r.failing[0]
    ensures forall c :: c in first ==> r.roots[0] in first && first[r.roots[0]] <= first[c]
  {
    hide Reaches;
    assert r.failing != [] by {
      if e != map[] {
        assert r.roots[0] in r.roots;
        assert IsRoot(e, first, r.roots[0]);
      }
    }
    FirstIsRoot(map[], first, r.failing);
    forall c | c in first ensures r.roots[0] in first && first[r.roots[0]] <= first[c] {
      var j :| 0 <= j < |r.failing| && r.failing[j] == c;
      assert r.failing[0] in r.failing;
    }
  }

  /** With dependencies, the first root is in its own blast radius exactly when it depends on itself through a cycle. */
  lemma RootInItsOwnBlastRadius(signals: seq<Signal>, e: Edges, r: Report, first: map<Name, real>)
    requires IsReport(signals, e, r, first) && r.roots != [] && e != map[]
    ensures r.roots[0] in r.blast <==> Reaches(e, r.roots[0], r.roots[0])
  {
    hide Reaches, IsFirstBad;
    RootCauseIsTheFirstFailure(signals, e, r, first);
    assert r.failing[0] in r.failing;
  }
}
