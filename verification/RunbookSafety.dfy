/**
 What every pass and every sequence of calls on a run keeps: approvals guard the steps behind them, done steps
 stay done, a waiting run has exactly one waiting step, guards read settled statuses only.
 */
module RunbookSafety {
  import opened Wrappers
  import opened Runbook

  /** An approval that no pass can go round without failing. */
  predicate IsGate(s: Step) {
    s.kind == Approval && (s.when == Success || s.when == Always)
  }

  predicate IsSettled(s: Status) {
    s in {Done, Failed, Skipped}
  }

  predicate IsTolerated(s: StepState, step: Step) {
    s.status == Failed && s.tolerated && step.continueOnError
  }

  /** Only continue-on-error steps are ever marked tolerated; an approval is done only with a yes on record. */
  ghost predicate Sound(st: State, rb: seq<Step>)
    requires Knows(st, rb)
  {
    forall i :: 0 <= i < |rb| ==>
      && (rb[i].kind == Approval && st.steps[rb[i].name].status == Done ==>
            rb[i].name in st.approvals && st.approvals[rb[i].name] == Approved)
      && (st.steps[rb[i].name].tolerated ==> rb[i].continueOnError)
  }

  ghost predicate NobodyWaits(st: State) {
    forall n :: n in st.steps ==> st.steps[n].status != Waiting
  }

  /** A saved run waits for an approval exactly when one step does, and then it is one step. */
  ghost predicate WaitsForOne(st: State) {
    if st.status == WaitingForApproval then
      exists n :: n in st.steps && st.steps[n].status == Waiting &&
                  forall m :: m in st.steps && st.steps[m].status == Waiting ==> m == n
    else NobodyWaits(st)
  }

  /** Every gate before a `success` step among `names` is done. */
  ghost predicate GatesDone(rb: seq<Step>, names: seq<Name>, st: State)
    requires Knows(st, rb)
  {
    forall i, j :: 0 <= i < j < |rb| && IsGate(rb[i]) && rb[j].when == Success && rb[j].name in names ==>
      st.steps[rb[i].name].status == Done
  }

  /** In a run that is over without failure, a `success` step is done or its failure was tolerated. */
  ghost predicate SuccessesDone(rb: seq<Step>, k: nat, st: State)
    requires Knows(st, rb) && k <= |rb|
  {
    forall i :: 0 <= i < k && rb[i].when == Success ==>
      st.steps[rb[i].name].status == Done || IsTolerated(st.steps[rb[i].name], rb[i])
  }

  // --- one pass --------------------------------------------------------------------------------------------------

  /** What holds of a pass after `k` steps while it goes on. */
  ghost predicate PassKeeps(p: Pass, rb: seq<Step>, k: nat)
    requires k <= |rb|
  {
    && Knows(p.mem, rb) && Sound(p.mem, rb) && NobodyWaits(p.mem) && p.mem.status == Running
    && (forall i :: 0 <= i < k ==> IsSettled(p.mem.steps[rb[i].name].status))
    && (!p.failed ==> forall i :: 0 <= i < k && IsGate(rb[i]) ==> p.mem.steps[rb[i].name].status == Done)
    && (!p.failed ==> SuccessesDone(rb, k, p.mem))
    && GatesDone(rb, p.log, p.mem)
    && (forall n :: n in p.log ==> exists i :: 0 <= i < k && rb[i].name == n)
  }

  /** How a turn changes the state of its own step, and nothing else. */
  ghost predicate ChangesOne(p: Pass, s: Step, r: Pass)
    requires s.name in p.mem.steps
  {
    && s.name in r.mem.steps && r.mem.approvals == p.mem.approvals
    && r.mem.steps == p.mem.steps[s.name := r.mem.steps[s.name]]
    && (p.failed ==> r.failed)
    && (r.halt == p.halt || r.halt == AtApproval(s.name) || r.halt == Raised(s.name))
  }

  lemma ApprovalChangesOne(p: Pass, s: Step, world: World)
    requires s.name in p.mem.steps
    ensures ChangesOne(p, s, ApprovalTurn(p, s, world))
  {
    assert p.mem.steps == p.mem.steps[s.name := p.mem.steps[s.name]];
  }

  lemma CommandChangesOne(p: Pass, s: Step, world: World)
    requires s.name in p.mem.steps
    ensures ChangesOne(p, s, CommandTurn(p, s, world))
  {
    hide AttemptCount, Succeeds, Times;
    assert p.mem.steps == p.mem.steps[s.name := p.mem.steps[s.name]];
  }

  lemma TurnChangesOne(p: Pass, s: Step, world: World)
    requires s.name in p.mem.steps
    ensures ChangesOne(p, s, Turn(p, s, world))
    ensures p.mem.steps[s.name].status == Done ==> Turn(p, s, world) == p
  {
    hide ShouldRun, ApprovalTurn, CommandTurn;
    ApprovalChangesOne(p, s, world);
    CommandChangesOne(p, s, world);
    assert p.mem.steps == p.mem.steps[s.name := p.mem.steps[s.name]];
  }

  /** What a turn that goes on leaves of its step: an outcome, and for a gate `done` unless the pass has failed. */
  ghost predicate Settles(p: Pass, s: Step, r: Pass)
    requires s.name in p.mem.steps
  {
    && s.name in r.mem.steps && IsSettled(r.mem.steps[s.name].status) && r.mem.status == p.mem.status
    && (!r.failed && IsGate(s) ==> r.mem.steps[s.name].status == Done)
    && (s.kind == Approval && r.mem.steps[s.name].status == Done && p.mem.steps[s.name].status != Done ==>
          s.name in p.mem.approvals && p.mem.approvals[s.name] == Approved)
  }

  lemma ApprovalSettles(p: Pass, s: Step, world: World)
    requires s.name in p.mem.steps && s.kind == Approval && p.halt == Going && ApprovalTurn(p, s, world).halt == Going
    ensures Settles(p, s, ApprovalTurn(p, s, world))
  {
  }

  lemma CommandSettles(p: Pass, s: Step, world: World)
    requires s.name in p.mem.steps && s.kind == Command && p.halt == Going && CommandTurn(p, s, world).halt == Going
    ensures Settles(p, s, CommandTurn(p, s, world))
  {
    hide AttemptCount, Succeeds, Times;
  }

  lemma TurnSettles(p: Pass, s: Step, world: World)
    requires s.name in p.mem.steps && p.halt == Going && Turn(p, s, world).halt == Going
    ensures Settles(p, s, Turn(p, s, world))
  {
    hide ApprovalTurn, CommandTurn;
    if p.mem.steps[s.name].status != Done && ShouldRun(s, p.mem.steps, p.failed) {
      if s.kind == Approval {
        ApprovalSettles(p, s, world);
      } else if s.kind == Command {
        CommandSettles(p, s, world);
      }
    }
  }

  /** A failure that does not fail the pass is marked as tolerated, and only a continue-on-error step's is. */
  lemma TurnTolerates(p: Pass, s: Step, world: World)
    requires s.name in p.mem.steps && p.halt == Going && Turn(p, s, world).halt == Going
    ensures var r := Turn(p, s, world);
            && (!r.failed && s.when == Success ==>
                  r.mem.steps[s.name].status == Done ||
                      (r.mem.steps[s.name].status == Failed && r.mem.steps[s.name].tolerated && s.continueOnError))
            && (r.mem.steps[s.name].tolerated ==> p.mem.steps[s.name].tolerated || s.continueOnError)
  {
    hide AttemptCount, Succeeds, Times;
  }

  /** A turn adds its own command to the log, some number of times, and a `success` step only before any failure. */
  lemma TurnLogs(p: Pass, s: Step, world: World)
    requires s.name in p.mem.steps
    ensures var r := Turn(p, s, world);
            (exists n: nat :: r.log == p.log + Times(s.name, n)) && (r.log != p.log && s.when == Success ==> !p.failed)
  {
    hide AttemptCount, Succeeds;
    var r := Turn(p, s, world);
    if r.log == p.log {
      assert r.log == p.log + Times(s.name, 0);
    } else {
      assert r.log == p.log + Times(s.name, AttemptCount(world, s));
    }
  }

  lemma SoundStays(p: Pass, r: Pass, rb: seq<Step>, k: nat)
    requires k < |rb| && Knows(p.mem, rb) && Knows(r.mem, rb) && Sound(p.mem, rb) && NobodyWaits(p.mem)
    requires var n := rb[k].name; r.mem.steps == p.mem.steps[n := r.mem.steps[n]] && IsSettled(r.mem.steps[n].status)
    requires r.mem.approvals == p.mem.approvals
    requires forall i :: 0 <= i < |rb| && i != k ==> r.mem.steps[rb[i].name] == p.mem.steps[rb[i].name]
    requires var now := r.mem.steps[rb[k].name];
             && (rb[k].kind == Approval && now.status == Done && p.mem.steps[rb[k].name].status != Done ==>
                   rb[k].name in p.mem.approvals && p.mem.approvals[rb[k].name] == Approved)
             && (now.tolerated ==> p.mem.steps[rb[k].name].tolerated || rb[k].continueOnError)
    ensures Sound(r.mem, rb) && NobodyWaits(r.mem)
  {
  }

  lemma SuccessesStay(p: Pass, r: Pass, rb: seq<Step>, k: nat)
    requires k < |rb| && Knows(p.mem, rb) && Knows(r.mem, rb) && (p.failed ==> r.failed)
    requires !p.failed ==> SuccessesDone(rb, k, p.mem)
    requires forall i :: 0 <= i < |rb| && i != k ==> r.mem.steps[rb[i].name] == p.mem.steps[rb[i].name]
    requires !r.failed && rb[k].when == Success ==>
               r.mem.steps[rb[k].name].status == Done || IsTolerated(r.mem.steps[rb[k].name], rb[k])
    ensures !r.failed ==> SuccessesDone(rb, k + 1, r.mem)
  {
  }

  lemma TurnKeeps(p: Pass, rb: seq<Step>, k: nat, world: World)
    requires WellFormed(rb) && k < |rb| && p.halt == Going && PassKeeps(p, rb, k)
    ensures Turn(p, rb[k], world).halt == Going ==> PassKeeps(Turn(p, rb[k], world), rb, k + 1)
  {
    hide Turn, Sound, NobodyWaits, SuccessesDone, GatesDone;
    var s := rb[k];
    var r := Turn(p, s, world);
    TurnChangesOne(p, s, world);
    if r.halt == Going {
      TurnSettles(p, s, world);
      TurnTolerates(p, s, world);
      TurnLogs(p, s, world);
      var n: nat :| r.log == p.log + Times(s.name, n);
      assert forall i :: 0 <= i < |rb| && i != k ==> r.mem.steps[rb[i].name] == p.mem.steps[rb[i].name];
      SoundStays(p, r, rb, k);
      SuccessesStay(p, r, rb, k);
      GatesStayDone(p, r, rb, k, n);
      forall m | m in r.log ensures exists i :: 0 <= i < k + 1 && rb[i].name == m {
        if m !in p.log {
          assert m in Times(s.name, n);
          assert rb[k].name == m;
        }
      }
    }
  }

  lemma GatesStayDone(p: Pass, r: Pass, rb: seq<Step>, k: nat, n: nat)
    requires WellFormed(rb) && k < |rb| && Knows(p.mem, rb) && Knows(r.mem, rb)
    requires GatesDone(rb, p.log, p.mem) && r.log == p.log + Times(rb[k].name, n)
    requires r.log != p.log && rb[k].when == Success ==> !p.failed
    requires !p.failed ==> forall i :: 0 <= i < k && IsGate(rb[i]) ==> p.mem.steps[rb[i].name].status == Done
    requires forall i :: 0 <= i < |rb| && i != k ==> r.mem.steps[rb[i].name] == p.mem.steps[rb[i].name]
    requires p.mem.steps[rb[k].name].status == Done ==> r.mem.steps[rb[k].name] == p.mem.steps[rb[k].name]
    ensures GatesDone(rb, r.log, r.mem)
  {
    forall i, j | 0 <= i < j < |rb| && IsGate(rb[i]) && rb[j].when == Success && rb[j].name in r.log
      ensures r.mem.steps[rb[i].name].status == Done
    {
      if rb[j].name !in p.log {
        assert rb[j].name in Times(rb[k].name, n);
        assert j == k;
      }
    }
  }

  lemma {:induction false} PassToKeeps(p: Pass, rb: seq<Step>, k: nat, world: World)
    requires WellFormed(rb) && k <= |rb| && p.halt == Going && Knows(p.mem, rb) && PassKeeps(p, rb, 0)
    ensures PassTo(p, rb, k, world).halt == Going ==> PassKeeps(PassTo(p, rb, k, world), rb, k)
    decreases k
  {
    hide PassKeeps, Turn;
    if k > 0 {
      PassToKeeps(p, rb, k - 1, world);
      var q := PassTo(p, rb, k - 1, world);
      if q.halt == Going {
        TurnKeeps(q, rb, k - 1, world);
      } else {
        assert PassTo(p, rb, k, world) == q;
      }
    }
  }

  /** A pass that goes on has settled every step it has gone over, whatever state it began in. */
  lemma {:induction false} PassSettles(p: Pass, rb: seq<Step>, j: nat, k: nat, world: World)
    requires WellFormed(rb) && Knows(p.mem, rb) && j < k <= |rb| && PassTo(p, rb, k, world).halt == Going
    ensures IsSettled(PassTo(p, rb, k, world).mem.steps[rb[j].name].status)
    decreases k
  {
    hide Turn;
    var q := PassTo(p, rb, k - 1, world);
    assert q.halt == Going;
    if j == k - 1 {
      TurnSettles(q, rb[j], world);
    } else {
      PassSettles(p, rb, j, k - 1, world);
      TurnChangesOne(q, rb[k - 1], world);
      assert rb[j].name != rb[k - 1].name;
    }
  }

  /** A guard on another step's outcome only ever reads an outcome, in every pass from every state: that step came
      earlier and is over. */
  lemma GuardsReadSettledSteps(p: Pass, rb: seq<Step>, k: nat, world: World)
    requires WellFormed(rb) && Knows(p.mem, rb) && k < |rb|
    requires PassTo(p, rb, k, world).halt == Going && rb[k].when.Ended?
    ensures var q := PassTo(p, rb, k, world);
            rb[k].when.step in q.mem.steps && IsSettled(q.mem.steps[rb[k].when.step].status)
  {
    hide PassTo;
    var j :| 0 <= j < k && rb[j].name == rb[k].when.step;
    PassSettles(p, rb, j, k, world);
  }

  // --- done stays done ---------------------------------------------------------------------------------------------

  lemma {:induction false} PassKeepsDone(p: Pass, rb: seq<Step>, k: nat, world: World)
    requires k <= |rb| && Knows(p.mem, rb) && p.log == []
    ensures var q := PassTo(p, rb, k, world);
            && (forall n :: n in p.mem.steps && p.mem.steps[n].status == Done ==> q.mem.steps[n].status == Done)
            && (forall n :: n in q.log ==> n in p.mem.steps && p.mem.steps[n].status != Done)
            && q.mem.approvals == p.mem.approvals
            && (q.disk == p.disk || q.disk == q.mem)
    decreases k
  {
    hide Turn;
    if k > 0 {
      PassKeepsDone(p, rb, k - 1, world);
      var q := PassTo(p, rb, k - 1, world);
      if q.halt == Going {
        var s := rb[k - 1];
        TurnChangesOne(q, s, world);
        TurnSaves(q, s, world);
      }
    }
  }

  lemma TurnSaves(p: Pass, s: Step, world: World)
    requires s.name in p.mem.steps
    ensures var r := Turn(p, s, world);
            && (r.disk == r.mem || (r.disk == p.disk && r.mem == p.mem))
            && (r.log == p.log || r.disk == r.mem)
            && forall n :: n in r.log ==> n in p.log || (n == s.name && p.mem.steps[s.name].status != Done)
  {
    hide AttemptCount, Succeeds, ShouldRun;
  }

  /** A pass never runs a step again that was done, and leaves it done. */
  lemma ExecuteKeepsDone(rb: seq<Step>, mem: State, disk: State, world: World)
    requires Knows(mem, rb) && disk.steps.Keys == mem.steps.Keys
    requires forall n :: n in disk.steps ==> (disk.steps[n].status == Done <==> mem.steps[n].status == Done)
    ensures var p := Execute(rb, mem, disk, world);
            && (forall n :: n in disk.steps && disk.steps[n].status == Done ==>
                n in p.disk.steps && p.disk.steps[n].status == Done)
            && (forall n :: n in p.log ==> n in disk.steps && disk.steps[n].status != Done)
            && p.disk.steps.Keys == disk.steps.Keys
  {
    hide Turn, PassTo;
    PassKeepsDone(Pass(mem, disk, false, [], Going), rb, |rb|, world);
  }

  /** Once a step is done, no call runs it again and none takes the status away. */
  lemma CallKeepsDone(rb: seq<Step>, run: Run, call: Call)
    requires Knows(run.disk, rb)
    ensures var r := After(rb, run, call);
            && (forall n :: n in run.disk.steps && run.disk.steps[n].status == Done ==>
                  n in r.disk.steps && r.disk.steps[n].status == Done)
            && run.log <= r.log
            && (forall n :: n in r.log[|run.log|..] ==> n in run.disk.steps && run.disk.steps[n].status != Done)
            && r.disk.steps.Keys == run.disk.steps.Keys
  {
    hide Execute;
    match call
    case Resume(world) => ExecuteKeepsDone(rb, Reopened(run.disk), run.disk, world);
    case Approve(deny, resume, world) =>
      var w := FirstWaiting(rb, run.disk);
      if w.Some? {
        var st := Answered(run.disk, w.value, deny);
        ExecuteKeepsDone(rb, Unparked(st, w.value), st, world);
      }
  }

  lemma {:induction false} DoneStepsNeverRunAgain(rb: seq<Step>, run: Run, calls: seq<Call>, n: Name)
    requires Knows(run.disk, rb) && n in run.disk.steps && run.disk.steps[n].status == Done
    ensures var r := AfterAll(rb, run, calls);
            && n in r.disk.steps && r.disk.steps[n].status == Done
            && run.log <= r.log && n !in r.log[|run.log|..]
    decreases |calls|
  {
    hide After;
    if calls != [] {
      var r := After(rb, run, calls[0]);
      CallKeepsDone(rb, run, calls[0]);
      DoneStepsNeverRunAgain(rb, r, calls[1..], n);
      var last := AfterAll(rb, r, calls[1..]);
      assert last.log[|run.log|..] == r.log[|run.log|..] + last.log[|r.log|..];
    }
  }

  // --- every history -----------------------------------------------------------------------------------------------

  /** What every saved state of a run keeps. */
  ghost predicate RunKeeps(rb: seq<Step>, run: Run) {
    && WellFormed(rb) && Knows(run.disk, rb) &&
        (forall n :: n in run.disk.steps ==> exists i :: 0 <= i < |rb| && rb[i].name == n)
    && Sound(run.disk, rb) && WaitsForOne(run.disk) && GatesDone(rb, run.log, run.disk)
    && (run.disk.status == Finished ==> SuccessesDone(rb, |rb|, run.disk))
  }

  /** The state a pass leaves on disk, from a state in memory in which nobody waits. */
  lemma ExecuteKeeps(rb: seq<Step>, mem: State, disk: State, world: World)
    requires WellFormed(rb) && Knows(mem, rb) && Knows(disk, rb) && Sound(mem, rb) && NobodyWaits(mem) &&
        mem.status == Running
    requires Sound(disk, rb) && WaitsForOne(disk) && (disk.status == Finished ==> SuccessesDone(rb, |rb|, disk))
    requires mem.steps.Keys == disk.steps.Keys
    ensures var p := Execute(rb, mem, disk, world);
            && Knows(p.disk, rb) && Sound(p.disk, rb) && WaitsForOne(p.disk)
            && (p.disk.status == Finished ==> SuccessesDone(rb, |rb|, p.disk))
  {
    hide Turn, WellFormed, Sound, WaitsForOne, SuccessesDone, GatesDone;
    var p0 := Pass(mem, disk, false, [], Going);
    assert PassKeeps(p0, rb, 0) by { FreshPassKeeps(p0, rb); }
    var q := PassTo(p0, rb, |rb|, world);
    if q.halt == Going {
      PassToKeeps(p0, rb, |rb|, world);
      FinishKeeps(q, rb);
    } else {
      HaltKeeps(p0, rb, |rb|, world);
    }
  }

  lemma FreshPassKeeps(p: Pass, rb: seq<Step>)
    requires Knows(p.mem, rb) && Sound(p.mem, rb) && NobodyWaits(p.mem) && p.mem.status == Running && p.log == []
    ensures PassKeeps(p, rb, 0)
  {
  }

  lemma FinishKeeps(q: Pass, rb: seq<Step>)
    requires q.halt == Going && PassKeeps(q, rb, |rb|)
    ensures var st := Finish(q).disk;
            Knows(st, rb) && Sound(st, rb) && WaitsForOne(st) && (st.status == Finished ==> SuccessesDone(rb, |rb|, st))
  {
  }

  /** A pass that halted left either the state it met there, saved, with one step waiting, or an earlier save. */
  lemma {:induction false} HaltKeeps(p: Pass, rb: seq<Step>, k: nat, world: World)
    requires WellFormed(rb) && k <= |rb| && p.halt == Going && Knows(p.mem, rb) && PassKeeps(p, rb, 0)
    requires Knows(p.disk, rb) && Sound(p.disk, rb) && WaitsForOne(p.disk)
    requires p.disk.status == Finished ==> SuccessesDone(rb, |rb|, p.disk)
    ensures var st := PassTo(p, rb, k, world).disk;
            Knows(st, rb) && Sound(st, rb) && WaitsForOne(st) && (st.status == Finished ==> SuccessesDone(rb, |rb|, st))
    decreases k
  {
    hide Turn, WellFormed, Sound, WaitsForOne, SuccessesDone, GatesDone, PassKeeps;
    if k > 0 {
      HaltKeeps(p, rb, k - 1, world);
      var q := PassTo(p, rb, k - 1, world);
      if q.halt == Going {
        PassToKeeps(p, rb, k - 1, world);
        TurnSaves(q, rb[k - 1], world);
        TurnDiskKeeps(q, rb, k - 1, world);
      }
    }
  }

  lemma TurnDiskKeeps(p: Pass, rb: seq<Step>, k: nat, world: World)
    requires WellFormed(rb) && k < |rb| && p.halt == Going && PassKeeps(p, rb, k)
    ensures var r := Turn(p, rb[k], world);
            r.disk == p.disk ||
            (Knows(r.disk, rb) && Sound(r.disk, rb) && WaitsForOne(r.disk) && r.disk.status != Finished)
  {
    hide Turn;
    var s := rb[k];
    var r := Turn(p, s, world);
    TurnSaves(p, s, world);
    TurnChangesOne(p, s, world);
    if r.halt == Going {
      TurnKeeps(p, rb, k, world);
    } else {
      TurnHalts(p, s, world);
      assert forall i :: 0 <= i < |rb| && i != k ==> r.mem.steps[rb[i].name] == p.mem.steps[rb[i].name];
      if r.halt == AtApproval(s.name) {
        assert Sound(r.mem, rb);
        assert r.mem.steps[s.name].status == Waiting;
        assert WaitsForOne(r.mem);
      }
    }
  }

  lemma TurnHalts(p: Pass, s: Step, world: World)
    requires s.name in p.mem.steps && p.halt == Going && Turn(p, s, world).halt != Going
    ensures var r := Turn(p, s, world);
            if r.halt == AtApproval(s.name)
            then r.mem.status == WaitingForApproval &&
                r.mem.steps[s.name] == p.mem.steps[s.name].(status := Waiting) && r.disk == r.mem
            else r.disk == p.disk
    ensures Turn(p, s, world).log == p.log
  {
  }

  lemma {:induction false} LogIsSaved(p: Pass, rb: seq<Step>, k: nat, world: World)
    requires k <= |rb| && Knows(p.mem, rb) && p.log == []
    ensures var q := PassTo(p, rb, k, world); q.log == [] || q.disk == q.mem
    decreases k
  {
    hide Turn;
    if k > 0 {
      LogIsSaved(p, rb, k - 1, world);
      var q := PassTo(p, rb, k - 1, world);
      if q.halt == Going {
        TurnSaves(q, rb[k - 1], world);
      }
    }
  }

  /** Whatever a pass ran, the gates before it were done. */
  lemma {:induction false} PassGates(p: Pass, rb: seq<Step>, k: nat, world: World)
    requires WellFormed(rb) && k <= |rb| && p.halt == Going && Knows(p.mem, rb) && PassKeeps(p, rb, 0)
    ensures var q := PassTo(p, rb, k, world); GatesDone(rb, q.log, q.mem)
    decreases k
  {
    hide Turn, WellFormed, GatesDone, PassKeeps;
    if k > 0 {
      var q := PassTo(p, rb, k - 1, world);
      if q.halt == Going {
        PassToKeeps(p, rb, k - 1, world);
        TurnGates(q, rb, k - 1, world);
      } else {
        PassGates(p, rb, k - 1, world);
      }
    } else {
      assert GatesDone(rb, p.log, p.mem) by { KeptGates(p, rb, 0); }
    }
  }

  lemma KeptGates(p: Pass, rb: seq<Step>, k: nat)
    requires k <= |rb| && PassKeeps(p, rb, k)
    ensures Knows(p.mem, rb) && GatesDone(rb, p.log, p.mem)
  {
  }

  lemma TurnGates(q: Pass, rb: seq<Step>, k: nat, world: World)
    requires WellFormed(rb) && k < |rb| && q.halt == Going && PassKeeps(q, rb, k)
    ensures var r := Turn(q, rb[k], world); Knows(r.mem, rb) && GatesDone(rb, r.log, r.mem)
  {
    hide Turn, WellFormed, GatesDone, PassKeeps;
    KeptGates(q, rb, k);
    var r := Turn(q, rb[k], world);
    TurnKeeps(q, rb, k, world);
    if r.halt == Going {
      KeptGates(r, rb, k + 1);
    } else {
      TurnHalts(q, rb[k], world);
      TurnChangesOne(q, rb[k], world);
      SameGates(rb, q, r, k);
    }
  }

  lemma SameGates(rb: seq<Step>, q: Pass, r: Pass, k: nat)
    requires WellFormed(rb) && k < |rb| && Knows(q.mem, rb) && Knows(r.mem, rb)
    requires GatesDone(rb, q.log, q.mem) && r.log == q.log
    requires r.mem.steps == q.mem.steps[rb[k].name := r.mem.steps[rb[k].name]]
    requires q.mem.steps[rb[k].name].status == Done ==> r == q
    ensures GatesDone(rb, r.log, r.mem)
  {
  }

  lemma NoGates(rb: seq<Step>, st: State)
    requires Knows(st, rb)
    ensures GatesDone(rb, [], st)
  {
  }

  lemma ExecuteGates(rb: seq<Step>, mem: State, disk: State, world: World)
    requires WellFormed(rb) && Knows(mem, rb) && Knows(disk, rb) && Sound(mem, rb) && NobodyWaits(mem) &&
        mem.status == Running
    ensures var p := Execute(rb, mem, disk, world); GatesDone(rb, p.log, p.disk)
  {
    hide Turn, WellFormed, Sound, PassTo, PassKeeps, GatesDone, NobodyWaits;
    var p0 := Pass(mem, disk, false, [], Going);
    FreshPassKeeps(p0, rb);
    PassGates(p0, rb, |rb|, world);
    LogIsSaved(p0, rb, |rb|, world);
    var q := PassTo(p0, rb, |rb|, world);
    var p := Finish(q);
    if q.halt == Going {
      SameSteps(rb, q.log, q.mem, p.disk);
    } else if q.log == [] {
      NoGates(rb, q.disk);
    }
  }

  lemma SameSteps(rb: seq<Step>, names: seq<Name>, a: State, b: State)
    requires Knows(a, rb) && a.steps == b.steps && GatesDone(rb, names, a)
    ensures Knows(b, rb) && GatesDone(rb, names, b)
  {
  }

  lemma MoreGates(rb: seq<Step>, earlier: seq<Name>, more: seq<Name>, before: State, after: State)
    requires Knows(before, rb) && Knows(after, rb)
    requires GatesDone(rb, earlier, before) && GatesDone(rb, more, after)
    requires forall n :: n in before.steps && before.steps[n].status == Done ==>
        n in after.steps && after.steps[n].status == Done
    ensures GatesDone(rb, earlier + more, after)
  {
  }

  // --- every call keeps it -------------------------------------------------------------------------------------------

  lemma StartKeeps(rb: seq<Step>, world: World)
    requires WellFormed(rb)
    ensures RunKeeps(rb, Start(rb, world))
  {
    hide Execute, GatesDone, SuccessesDone;
    var st := NewRun(rb);
    assert forall i :: 0 <= i < |rb| ==> rb[i] in rb;
    assert Knows(st, rb) && Sound(st, rb) && NobodyWaits(st) && WaitsForOne(st);
    ExecuteKeeps(rb, st, st, world);
    ExecuteGates(rb, st, st, world);
    ExecuteKeepsDone(rb, st, st, world);
  }

  lemma ReopenedIsReady(rb: seq<Step>, st: State)
    requires Knows(st, rb) && Sound(st, rb)
    ensures var mem := Reopened(st);
            && Knows(mem, rb) && Sound(mem, rb) && NobodyWaits(mem) && mem.status == Running &&
                mem.steps.Keys == st.steps.Keys
            && forall n :: n in st.steps ==> (st.steps[n].status == Done <==> mem.steps[n].status == Done)
  {
  }

  lemma AnsweredIsReady(rb: seq<Step>, st: State, w: Name, deny: bool)
    requires Knows(st, rb) && Sound(st, rb) && WaitsForOne(st) && w in st.steps && st.steps[w].status == Waiting
    ensures var a := Answered(st, w, deny);
            Knows(a, rb) && Sound(a, rb) && WaitsForOne(a) && a.steps == st.steps && a.status == WaitingForApproval
    ensures var mem := Unparked(Answered(st, w, deny), w);
            && Knows(mem, rb) && Sound(mem, rb) && NobodyWaits(mem) && mem.status == Running &&
                mem.steps.Keys == st.steps.Keys
            && forall n :: n in st.steps ==> (st.steps[n].status == Done <==> mem.steps[n].status == Done)
  {
  }

  lemma CallKeeps(rb: seq<Step>, run: Run, call: Call)
    requires RunKeeps(rb, run)
    ensures RunKeeps(rb, After(rb, run, call))
  {
    hide Execute, GatesDone, SuccessesDone, Sound, WaitsForOne, NobodyWaits, WellFormed, Reopened, Answered, Unparked;
    CallKeepsDone(rb, run, call);
    match call
    case Resume(world) =>
      ReopenedIsReady(rb, run.disk);
      var mem := Reopened(run.disk);
      ExecuteKeeps(rb, mem, run.disk, world);
      ExecuteGates(rb, mem, run.disk, world);
      var p := Execute(rb, mem, run.disk, world);
      if run.disk.status != Finished {
        MoreGates(rb, run.log, p.log, run.disk, p.disk);
      }
    case Approve(deny, resume, world) =>
      var w := FirstWaiting(rb, run.disk);
      if w.Some? {
        AnsweredIsReady(rb, run.disk, w.value, deny);
        var st := Answered(run.disk, w.value, deny);
        SameSteps(rb, run.log, run.disk, st);
        if resume {
          var mem := Unparked(st, w.value);
          ExecuteKeeps(rb, mem, st, world);
          ExecuteGates(rb, mem, st, world);
          ExecuteKeepsDone(rb, mem, st, world);
          var p := Execute(rb, mem, st, world);
          MoreGates(rb, run.log, p.log, st, p.disk);
        }
      }
  }

  lemma {:induction false} AllCallsKeep(rb: seq<Step>, run: Run, calls: seq<Call>)
    requires RunKeeps(rb, run)
    ensures RunKeeps(rb, AfterAll(rb, run, calls))
    decreases |calls|
  {
    hide RunKeeps, After;
    assert Knows(run.disk, rb) by { KeptKnows(rb, run); }
    if calls != [] {
      CallKeeps(rb, run, calls[0]);
      AllCallsKeep(rb, After(rb, run, calls[0]), calls[1..]);
    }
  }

  lemma KeptKnows(rb: seq<Step>, run: Run)
    requires RunKeeps(rb, run)
    ensures Knows(run.disk, rb)
  {
  }

  // --- the main results ----------------------------------------------------------------------------------------------

  /** A run after any calls. */
  function History(rb: seq<Step>, world: World, calls: seq<Call>): Run {
    AfterAll(rb, Start(rb, world), calls)
  }

  lemma HistoryKeeps(rb: seq<Step>, world: World, calls: seq<Call>)
    requires WellFormed(rb)
    ensures RunKeeps(rb, History(rb, world, calls))
  {
    StartKeeps(rb, world);
    AllCallsKeep(rb, Start(rb, world), calls);
  }

  /**
   Over every sequence of calls: a `success` step behind an unconditional or `success` approval is never run
   unless that approval has been given.
   */
  lemma GatesGuardSteps(rb: seq<Step>, world: World, calls: seq<Call>, i: nat, j: nat)
    requires WellFormed(rb) && i < j < |rb|
    requires IsGate(rb[i]) && rb[j].when == Success
    requires rb[j].name in History(rb, world, calls).log
    ensures var st := History(rb, world, calls).disk;
            rb[i].name in st.approvals && st.approvals[rb[i].name] == Approved
  {
    hide History;
    HistoryKeeps(rb, world, calls);
  }

  /** A saved run says it waits exactly when one step does, and that is the one `pending` shows. */
  lemma WaitingRunsHaveOneWaitingStep(rb: seq<Step>, world: World, calls: seq<Call>)
    requires WellFormed(rb)
    ensures var st := History(rb, world, calls).disk;
            && Knows(st, rb)
            && (st.status == WaitingForApproval <==> FirstWaiting(rb, st).Some?)
            && forall n :: n in st.steps && st.steps[n].status == Waiting ==> FirstWaiting(rb, st) == Some(n)
  {
    hide History;
    HistoryKeeps(rb, world, calls);
  }

  /** A run that is over without failure has every `success` step done, or failed and tolerated. */
  lemma FinishedRunsAreDone(rb: seq<Step>, world: World, calls: seq<Call>, i: nat)
    requires WellFormed(rb) && i < |rb| && rb[i].when == Success
    requires History(rb, world, calls).disk.status == Finished
    ensures var st := History(rb, world, calls).disk;
            rb[i].name in st.steps &&
            (st.steps[rb[i].name].status == Done || IsTolerated(st.steps[rb[i].name], rb[i]))
  {
    hide History;
    HistoryKeeps(rb, world, calls);
  }
}
