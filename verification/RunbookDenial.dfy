/**
 What a refused approval does: in the pass that meets it no later `success` step runs, and once the run has moved
 past it no call ever gets behind it again.
 */
module RunbookDenial {
  import opened Runbook
  import opened RunbookSafety

  /** The approval was refused and the run no longer waits for it. */
  ghost predicate Refused(st: State, n: Name) {
    && n in st.steps && n in st.approvals && st.approvals[n] == Denied
    && st.steps[n].status != Waiting && st.steps[n].status != Done
  }

  /** No `success` step after position `i` is in `names`. */
  ghost predicate NothingBehind(rb: seq<Step>, i: nat, names: seq<Name>) {
    forall j :: i < j < |rb| && rb[j].when == Success ==> rb[j].name !in names
  }

  // --- one pass --------------------------------------------------------------------------------------------------

  lemma FailedTurn(p: Pass, s: Step, world: World)
    requires s.name in p.mem.steps && p.failed
    ensures var r := Turn(p, s, world);
            && r.failed && (s.when == Success ==> r.log == p.log) &&
                (forall n :: n in r.log ==> n in p.log || n == s.name)
  {
    hide AttemptCount, Succeeds;
  }

  /** After a failure no `success` step runs for the rest of the pass. */
  lemma {:induction false} FailedPassRunsNothing(p: Pass, rb: seq<Step>, i: nat, k: nat, world: World)
    requires WellFormed(rb) && i <= k <= |rb| && Knows(p.mem, rb)
    requires PassTo(p, rb, i, world).failed
    ensures var q := PassTo(p, rb, k, world);
            && q.failed
            && forall j :: 0 <= j < |rb| && rb[j].when == Success && rb[j].name in q.log ==>
                rb[j].name in PassTo(p, rb, i, world).log
    decreases k
  {
    hide Turn, WellFormed;
    if i < k {
      FailedPassRunsNothing(p, rb, i, k - 1, world);
      var q := PassTo(p, rb, k - 1, world);
      if q.halt.Going? {
        FailedTurn(q, rb[k - 1], world);
        forall j | 0 <= j < |rb| && rb[j].when == Success && rb[j].name in Turn(q, rb[k - 1], world).log
          ensures rb[j].name in q.log
        {
          if rb[j].name !in q.log {
            assert rb[j].name == rb[k - 1].name;
            SameStep(rb, j, k - 1);
          }
        }
      }
    }
  }

  lemma SameStep(rb: seq<Step>, i: nat, j: nat)
    requires WellFormed(rb) && i < |rb| && j < |rb| && rb[i].name == rb[j].name
    ensures i == j
  {
  }

  /** A pass runs the commands of the steps it has passed, and no others. */
  lemma {:induction false} RunsEarlierSteps(p: Pass, rb: seq<Step>, k: nat, world: World)
    requires WellFormed(rb) && k <= |rb| && Knows(p.mem, rb) && p.log == []
    ensures forall j :: k <= j < |rb| ==> rb[j].name !in PassTo(p, rb, k, world).log
    decreases k
  {
    hide Turn, WellFormed;
    if k > 0 {
      RunsEarlierSteps(p, rb, k - 1, world);
      var q := PassTo(p, rb, k - 1, world);
      if q.halt.Going? {
        TurnSaves(q, rb[k - 1], world);
        forall j | k <= j < |rb| ensures rb[j].name !in Turn(q, rb[k - 1], world).log {
          if rb[j].name == rb[k - 1].name {
            SameStep(rb, j, k - 1);
          }
        }
      }
    }
  }

  lemma RefusedTurnFails(p: Pass, s: Step, world: World)
    requires Refused(p.mem, s.name) && s.kind == Approval && ShouldRun(s, p.mem.steps, p.failed)
    ensures Turn(p, s, world).failed
  {
    hide ShouldRun;
  }

  /** The pass that meets a refused approval fails, and runs no later `success` step. */
  lemma DenialStopsThePass(p: Pass, rb: seq<Step>, i: nat, k: nat, world: World)
    requires WellFormed(rb) && i < k <= |rb| && Knows(p.mem, rb) && p.log == []
    requires var q := PassTo(p, rb, i, world);
             && q.halt.Going? && rb[i].kind == Approval && ShouldRun(rb[i], q.mem.steps, q.failed)
             && Refused(q.mem, rb[i].name)
    ensures var r := PassTo(p, rb, k, world); r.failed && NothingBehind(rb, i, r.log)
  {
    hide WellFormed, ShouldRun, Turn, PassTo, Refused;
    OneTurn(p, rb, i, world);
    RefusedTurnFails(PassTo(p, rb, i, world), rb[i], world);
    FailedPassRunsNothing(p, rb, i + 1, k, world);
    RunsEarlierSteps(p, rb, i + 1, world);
  }

  // --- every later call --------------------------------------------------------------------------------------------

  lemma RefusedTurn(p: Pass, s: Step, world: World, n: Name, gate: Step)
    requires s.name in p.mem.steps && Refused(p.mem, n) && gate.name == n && gate.kind == Approval
    requires s.name == n ==> s == gate
    ensures var r := Turn(p, s, world);
            && Refused(r.mem, n) && (p.failed ==> r.failed)
            && (s.name == n && IsGate(gate) && p.halt.Going? ==> r.halt.Going? && r.failed)
  {
    hide AttemptCount, Succeeds, Times;
  }

  lemma {:induction false} RefusedPass(p: Pass, rb: seq<Step>, i: nat, k: nat, world: World)
    requires WellFormed(rb) && k <= |rb| && i < |rb| && Knows(p.mem, rb) && IsGate(rb[i])
    requires Refused(p.mem, rb[i].name)
    ensures var q := PassTo(p, rb, k, world);
            Refused(q.mem, rb[i].name) && (i < k && q.halt.Going? ==> PassTo(p, rb, i + 1, world).failed)
    decreases k
  {
    hide Turn, WellFormed, Refused;
    if k > 0 {
      RefusedPass(p, rb, i, k - 1, world);
      var q := PassTo(p, rb, k - 1, world);
      if q.halt.Going? {
        assert rb[k - 1].name == rb[i].name ==> rb[k - 1] == rb[i] by {
          if rb[k - 1].name == rb[i].name { SameStep(rb, k - 1, i); }
        }
        RefusedTurn(q, rb[k - 1], world, rb[i].name, rb[i]);
      }
    }
  }

  lemma RefusedExecute(rb: seq<Step>, mem: State, disk: State, world: World, i: nat)
    requires WellFormed(rb) && Knows(mem, rb) && i < |rb| && IsGate(rb[i])
    requires Refused(mem, rb[i].name) && Refused(disk, rb[i].name)
    ensures var r := Execute(rb, mem, disk, world); Refused(r.disk, rb[i].name) && NothingBehind(rb, i, r.log)
  {
    hide Turn, WellFormed, PassTo;
    var p := Pass(mem, disk, false, [], Going);
    var q := PassTo(p, rb, |rb|, world);
    RefusedPass(p, rb, i, |rb|, world);
    PassKeepsDone(p, rb, |rb|, world);
    var at := PassTo(p, rb, i + 1, world);
    RefusedPass(p, rb, i, i + 1, world);
    RunsEarlierSteps(p, rb, i + 1, world);
    if at.halt.Going? {
      FailedPassRunsNothing(p, rb, i + 1, |rb|, world);
    } else {
      HaltedStays(p, rb, i + 1, |rb|, world);
    }
  }

  lemma RefusedCall(rb: seq<Step>, run: Run, call: Call, i: nat)
    requires WellFormed(rb) && Knows(run.disk, rb) && i < |rb| && IsGate(rb[i]) && Refused(run.disk, rb[i].name)
    ensures var r := After(rb, run, call);
            && Refused(r.disk, rb[i].name) && run.log <= r.log && NothingBehind(rb, i, r.log[|run.log|..])
  {
    hide Execute, WellFormed, NothingBehind;
    NothingInNothing(rb, i);
    assert run.log[|run.log|..] == [];
    match call
    case Resume(world) =>
      var mem := Reopened(run.disk);
      RefusedExecute(rb, mem, run.disk, world, i);
      assert (run.log + Execute(rb, mem, run.disk, world).log)[|run.log|..] == Execute(rb, mem, run.disk, world).log;
    case Approve(deny, resume, world) =>
      var w := FirstWaiting(rb, run.disk);
      if w.Some? {
        var st := Answered(run.disk, w.value, deny);
        var mem := Unparked(st, w.value);
        RefusedExecute(rb, mem, st, world, i);
        assert (run.log + Execute(rb, mem, st, world).log)[|run.log|..] == Execute(rb, mem, st, world).log;
      }
  }

  lemma NothingInNothing(rb: seq<Step>, i: nat)
    ensures NothingBehind(rb, i, [])
  {
  }

  /** A refusal the run has moved past is for good: no sequence of calls runs a `success` step behind it. */
  lemma {:induction false} RefusalIsForGood(rb: seq<Step>, run: Run, calls: seq<Call>, i: nat)
    requires WellFormed(rb) && Knows(run.disk, rb) && i < |rb| && IsGate(rb[i]) && Refused(run.disk, rb[i].name)
    ensures var r := AfterAll(rb, run, calls);
            && Refused(r.disk, rb[i].name) && run.log <= r.log && NothingBehind(rb, i, r.log[|run.log|..])
    decreases |calls|
  {
    hide After, WellFormed, Refused;
    if calls != [] {
      var r := After(rb, run, calls[0]);
      RefusedCall(rb, run, calls[0], i);
      RefusalIsForGood(rb, r, calls[1..], i);
      var last := AfterAll(rb, r, calls[1..]);
      assert last.log[|run.log|..] == r.log[|run.log|..] + last.log[|r.log|..];
    }
  }

  /** While the run still waits, a second answer replaces the first: a refusal is not yet final. */
  lemma SecondAnswerReplacesTheFirst(rb: seq<Step>, run: Run, deny: bool, again: bool, world: World)
    requires Knows(run.disk, rb) && FirstWaiting(rb, run.disk).Some?
    ensures AfterAll(rb, run, [Approve(deny, false, world), Approve(again, false, world)]) ==
        After(rb, run, Approve(again, false, world))
  {
    var one, two := Approve(deny, false, world), Approve(again, false, world);
    var r := After(rb, run, one);
    SameWaiting(rb, run.disk, r.disk);
    assert [one, two][1..] == [two] && [two][1..] == [];
    var w := FirstWaiting(rb, run.disk).value;
    var d := if again then Denied else Approved;
    assert run.disk.approvals[w := if deny then Denied else Approved][w := d] == run.disk.approvals[w := d];
    assert After(rb, r, two) == After(rb, run, two);
    assert AfterAll(rb, r, [two]) == AfterAll(rb, After(rb, r, two), []);
  }

  lemma {:induction false} SameWaiting(rb: seq<Step>, a: State, b: State)
    requires Knows(a, rb) && Knows(b, rb) && a.steps == b.steps
    ensures FirstWaiting(rb, a) == FirstWaiting(rb, b)
    decreases |rb|
  {
    if rb != [] {
      assert forall i :: 0 < i < |rb| ==> rb[i] == rb[1..][i - 1];
      assert Knows(a, rb[1..]) && Knows(b, rb[1..]);
      SameWaiting(rb[1..], a, b);
    }
  }
}
