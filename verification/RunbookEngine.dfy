/**
 The engine as the code runs it: a run-state dictionary changed in place, saved to a file as it goes. Each method is
 proved equal to the function of `Runbook` that specifies it.
 */
module RunbookEngine {
  import opened Runbook

  datatype Answer = Ran(halt: Halt) | NothingToResume | NotWaiting | Recorded

  class Engine {
    const rb: seq<Step>
    /** The run's `state.json`. */
    var disk: State
    /** Every command given to the world so far. */
    var log: seq<Name>

    /** `run`: a fresh run, saved and executed. */
    constructor (rb: seq<Step>, world: World)
      ensures this.rb == rb && Knows(disk, rb) && Run(disk, log) == Start(rb, world)
    {
      var st := NewRun(rb);
      this.rb := rb;
      disk := st;
      log := [];
      new;
      assert forall i :: 0 <= i < |rb| ==> rb[i] in rb;
      var halt := Execute(st, world);
      assert log == [] + Runbook.Execute(rb, st, st, world).log;
    }

    /** The retry loop: the command is given to the world until it succeeds or the attempts are used up. */
    method Attempt(step: Step, world: World) returns (ok: bool)
      modifies `log
      ensures ok == Succeeds(world, step)
      ensures log == old(log) + Times(step.name, AttemptCount(world, step))
    {
      ok := false;
      var attempt := 1;
      while attempt < step.retries + 2
        invariant 1 <= attempt && (step.retries < 0 ==> attempt == 1)
        invariant step.retries >= 0 ==>
                    attempt <= step.retries + 1
                    && AttemptCount(world, step) == Attempts(world, step.name, attempt, step.retries + 1)
        invariant log == old(log) + Times(step.name, attempt - 1)
        invariant !ok
        decreases step.retries + 2 - attempt
      {
        ok := world.succeeds(step.name, attempt);
        log := log + [step.name];
        assert log == old(log) + Times(step.name, attempt);
        if ok || attempt > step.retries {
          break;
        }
        attempt := attempt + 1;
      }
    }

    /** `_execute`, from the state `st` read or built by the caller. */
    method Execute(st0: State, world: World) returns (halt: Halt)
      requires Knows(st0, rb)
      modifies this
      ensures var p := Runbook.Execute(rb, st0, old(disk), world);
              disk == p.disk && log == old(log) + p.log && halt == p.halt
      ensures Knows(old(disk), rb) ==> Knows(disk, rb)
    {
      hide Turn, PassTo;
      var st, failed := st0, false;
      ghost var p0 := Pass(st0, disk, false, [], Going);
      assert PassTo(p0, rb, 0, world) == p0 by { NoTurns(p0, rb, world); }
      for k := 0 to |rb|
        invariant Knows(st, rb)
        invariant PassTo(p0, rb, k, world).halt == Going
        invariant var q := PassTo(p0, rb, k, world);
                  st == q.mem && disk == q.disk && failed == q.failed && log == old(log) + q.log
      {
        ghost var q := PassTo(p0, rb, k, world);
        OneTurn(p0, rb, k, world);
        st, failed, halt := OneStep(rb[k], st, failed, world, q, old(log));
        if halt != Going {
          HaltedStays(p0, rb, k + 1, |rb|, world);
          return;
        }
      }
      st := st.(status := if failed then FailedRun else Finished);
      disk := st;
      halt := Going;
    }

    /** One turn of the loop. `q` and `earlier` describe the pass so far and the log before it. */
    method OneStep(step: Step, st0: State, failed0: bool, world: World, ghost q: Pass, ghost earlier: seq<Name>)
      returns (st: State, failed: bool, halt: Halt)
      requires step.name in st0.steps
      requires q == Pass(st0, disk, failed0, q.log, Going) && log == earlier + q.log
      modifies this
      ensures Turn(q, step, world) == Pass(st, disk, failed, Turn(q, step, world).log, halt)
      ensures log == earlier + Turn(q, step, world).log
      ensures st.steps.Keys == st0.steps.Keys
    {
      hide AttemptCount, Succeeds, ShouldRun;
      st, failed, halt := st0, failed0, Going;
      var s := st.steps[step.name];
      if s.status == Done {
        return;
      }
      if !ShouldRun(step, st.steps, failed) {
        st := SetStep(st, step.name, s.(status := Skipped));
        disk := st;
        return;
      }
      match step.kind {
        case Approval =>
          if step.name !in st.approvals {
            if !world.renders(step.name) {
              halt := Raised(step.name);
              return;
            }
            st := SetStep(st, step.name, s.(status := Waiting));
            st := st.(status := WaitingForApproval);
            disk := st;
            halt := AtApproval(step.name);
            return;
          }
          if st.approvals[step.name] == Denied {
            st := SetStep(st, step.name, s.(status := Failed));
            failed := true;
          } else {
            st := SetStep(st, step.name, s.(status := Done));
          }
          disk := st;
        case Sleep =>
          st := SetStep(st, step.name, s.(status := Done));
          disk := st;
        case Command =>
          if !world.renders(step.name) {
            halt := Raised(step.name);
            return;
          }
          var ok := Attempt(step, world);
          s := s.(status := if ok then Done else Failed);
          if !ok && !step.continueOnError {
            failed := true;
          } else if !ok {
            s := s.(tolerated := true);
          }
          st := SetStep(st, step.name, s);
          disk := st;
      }
    }

    method Resume(world: World) returns (answer: Answer)
      requires Knows(disk, rb)
      modifies this
      ensures Run(disk, log) == After(rb, old(Run(disk, log)), Call.Resume(world)) && Knows(disk, rb)
      ensures answer == NothingToResume <==> old(disk).status == Finished
    {
      var st := disk;
      if st.status == Finished {
        return NothingToResume;
      }
      var names, again := st.steps.Keys, st.steps;
      while names != {}
        invariant names <= st.steps.Keys == again.Keys
        invariant forall n :: n in names ==> again[n] == st.steps[n]
        invariant forall n :: n in st.steps && n !in names ==> again[n] == Reset(st.steps[n])
        decreases names
      {
        var n :| n in names;
        if again[n].status in {Failed, Skipped, Waiting} {
          again := again[n := again[n].(status := Pending)];
        }
        names := names - {n};
      }
      assert again == Reopened(st).steps;
      st := st.(steps := again, status := Running);
      var halt := Execute(st, world);
      answer := Ran(halt);
    }

    method Approve(deny: bool, resume: bool, world: World) returns (answer: Answer)
      requires Knows(disk, rb)
      modifies this
      ensures Run(disk, log) == After(rb, old(Run(disk, log)), Call.Approve(deny, resume, world)) && Knows(disk, rb)
      ensures answer == NotWaiting <==> FirstWaiting(rb, old(disk)).None?
    {
      hide Runbook.Execute;
      var st := disk;
      var i := 0;
      assert rb[0..] == rb;
      while i < |rb| && st.steps[rb[i].name].status != Waiting
        invariant 0 <= i <= |rb| && Knows(st, rb[i..])
        invariant FirstWaiting(rb[i..], st) == FirstWaiting(rb, st)
      {
        assert rb[i..][1..] == rb[i + 1..];
        i := i + 1;
      }
      if i == |rb| {
        return NotWaiting;
      }
      var waiting := rb[i].name;
      st := st.(approvals := st.approvals[waiting := if deny then Denied else Approved]);
      disk := st;
      answer := Recorded;
      if resume {
        st := SetStep(st, waiting, st.steps[waiting].(status := Pending));
        st := st.(status := Running);
        var halt := Execute(st, world);
        answer := Ran(halt);
      }
    }
  }

  lemma NoTurns(p: Pass, rb: seq<Step>, world: World)
    requires Knows(p.mem, rb)
    ensures PassTo(p, rb, 0, world) == p
  {
  }
}
