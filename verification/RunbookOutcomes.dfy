/**
 What a saved status means: when each guard lets a step run, how a step's outcome follows from its command's attempts
 or its approval, and what a run's own status says of its steps.
 */
module RunbookOutcomes {
  import opened Wrappers
  import opened Runbook
  import opened RunbookSafety

  // --- one step of a pass ------------------------------------------------------------------------------------------

  /** The attempts of a command that a pass may make, from the first to the last retry. */
  ghost predicate SomeAttemptSucceeds(world: World, s: Step) {
    exists a: nat :: 1 <= a <= s.retries + 1 && world.succeeds(s.name, a)
  }

  /** `n` attempts are made: up to the first that succeeds, or all of them. */
  ghost predicate IsAttemptCount(world: World, s: Step, n: nat) {
    && (forall a: nat :: 1 <= a < n ==> !world.succeeds(s.name, a))
    && (if SomeAttemptSucceeds(world, s) then 1 <= n <= s.retries + 1 && world.succeeds(s.name, n)
        else n == if s.retries < 0 then 0 else s.retries + 1)
  }

  lemma AttemptCountIs(world: World, s: Step)
    ensures IsAttemptCount(world, s, AttemptCount(world, s))
    ensures Succeeds(world, s) <==> SomeAttemptSucceeds(world, s)
  {
    if s.retries >= 0 {
      var n := AttemptCount(world, s);
      if a: nat :| 1 <= a <= s.retries + 1 && world.succeeds(s.name, a) {
        assert n <= a;
      }
    }
  }

  /** The step is gone over and its command, sleep or approval is not carried out: it is saved as skipped. */
  predicate IsSkipped(q: Pass, s: Step, r: Pass)
    requires s.name in q.mem.steps
  {
    r.halt == q.halt && r.log == q.log && r.failed == q.failed && r.disk == r.mem &&
    r.mem == q.mem.(steps := q.mem.steps[s.name := q.mem.steps[s.name].(status := Status.Skipped)])
  }

  /** The step ends with that status, which is saved; the pass goes on. */
  predicate Ends(q: Pass, s: Step, r: Pass, status: Status)
    requires s.name in q.mem.steps
  {
    && r.halt == q.halt && r.disk == r.mem && r.mem.approvals == q.mem.approvals && r.mem.status == q.mem.status
    && r.mem.steps.Keys == q.mem.steps.Keys && r.mem.steps[s.name].status == status
    && forall n :: n in q.mem.steps && n != s.name ==> r.mem.steps[n] == q.mem.steps[n]
  }

  /** An error out of the engine: nothing is changed or saved. */
  predicate Raises(q: Pass, s: Step, r: Pass) {
    r == q.(halt := Raised(s.name))
  }

  /** The command is carried out: it ends done if an attempt succeeds and failed otherwise, which fails the pass unless
      the step may go on with errors. */
  ghost predicate CommandIsRun(q: Pass, s: Step, world: World, r: Pass)
    requires s.name in q.mem.steps
  {
    && Ends(q, s, r, if SomeAttemptSucceeds(world, s) then Status.Done else Status.Failed)
    && (r.failed <==> q.failed || (!SomeAttemptSucceeds(world, s) && !s.continueOnError))
    && (r.mem.steps[s.name].tolerated <==>
          q.mem.steps[s.name].tolerated || (!SomeAttemptSucceeds(world, s) && s.continueOnError))
    && |q.log| <= |r.log| && r.log[..|q.log|] == q.log && IsAttemptCount(world, s, |r.log| - |q.log|)
    && forall i :: |q.log| <= i < |r.log| ==> r.log[i] == s.name
  }

  /** The approval is looked up: yes, no, or nobody has answered yet. */
  predicate ApprovalIsAsked(q: Pass, s: Step, world: World, r: Pass)
    requires s.name in q.mem.steps
  {
    if s.name in q.mem.approvals then
      && r.log == q.log && (r.failed <==> q.failed || q.mem.approvals[s.name] == Denied)
      && Ends(q, s, r, if q.mem.approvals[s.name] == Approved then Status.Done else Status.Failed)
    else if world.renders(s.name) then
      && r.log == q.log && r.failed == q.failed && r.halt == AtApproval(s.name) && r.disk == r.mem
      && r.mem == State(q.mem.steps[s.name := q.mem.steps[s.name].(status := Waiting)], q.mem.approvals,
                        WaitingForApproval)
    else Raises(q, s, r)
  }

  /** A step that its guard lets run. */
  ghost predicate IsCarriedOut(q: Pass, s: Step, world: World, r: Pass)
    requires s.name in q.mem.steps
  {
    match s.kind
    case Sleep => Ends(q, s, r, Status.Done) && r.log == q.log && r.failed == q.failed
    case Approval => ApprovalIsAsked(q, s, world, r)
    case Command => if world.renders(s.name) then CommandIsRun(q, s, world, r) else Raises(q, s, r)
  }

  lemma CommandTurnIs(q: Pass, s: Step, world: World)
    requires s.name in q.mem.steps && s.kind == Command && world.renders(s.name)
    ensures CommandIsRun(q, s, world, CommandTurn(q, s, world))
  {
    hide AttemptCount, Succeeds, IsAttemptCount, SomeAttemptSucceeds;
    AttemptCountIs(world, s);
    var r := CommandTurn(q, s, world);
    assert r.log == q.log + Times(s.name, AttemptCount(world, s));
    assert |r.log| - |q.log| == AttemptCount(world, s);
  }

  /** A step that was not done is carried out if its guard lets it run, and else skipped. */
  lemma TurnIs(q: Pass, s: Step, world: World)
    requires s.name in q.mem.steps && q.mem.steps[s.name].status != Done
    ensures var r := Turn(q, s, world);
            if ShouldRun(s, q.mem.steps, q.failed) then IsCarriedOut(q, s, world, r) else IsSkipped(q, s, r)
  {
    hide CommandIsRun, CommandTurn, ShouldRun;
    if s.kind == Command && world.renders(s.name) {
      CommandTurnIs(q, s, world);
    } else if s.kind == Command {
      RaisesUnrendered(q, s, world);
    }
  }

  lemma RaisesUnrendered(q: Pass, s: Step, world: World)
    requires s.name in q.mem.steps && !world.renders(s.name)
    ensures Raises(q, s, CommandTurn(q, s, world))
  {
  }

  // --- guards ------------------------------------------------------------------------------------------------------

  /** How a guard is written. */
  predicate IsText(g: Guard, when: string) {
    match g
    case Success => when == "success"
    case Always => when == "always"
    case OnFailure => when == "on_failure"
    case Ended(step, ok) => step != "" && when == step + if ok then ".ok" else ".failed"
  }

  lemma SuffixIsCut(s: string, suffix: string)
    requires EndsWith(s, suffix)
    ensures s == s[..|s| - |suffix|] + suffix
  {
  }

  lemma ReadAsWritten(when: string)
    ensures GuardOf(when).Some? ==> IsText(GuardOf(when).value, when)
  {
    if EndsWith(when, ".ok") {
      SuffixIsCut(when, ".ok");
    } else if EndsWith(when, ".failed") {
      SuffixIsCut(when, ".failed");
    }
  }

  /** A text that ends in the suffix, by its last character. */
  lemma Written(step: string, suffix: string)
    requires step != "" && suffix != ""
    ensures var s := step + suffix;
            EndsWith(s, suffix) && s[..|s| - |suffix|] == step && s[|s| - 1] == suffix[|suffix| - 1]
  {
    assert (step + suffix)[|step|..] == suffix;
  }

  lemma EndedIsRead(step: string, ok: bool, when: string)
    requires step != "" && when == step + if ok then ".ok" else ".failed"
    ensures GuardOf(when) == Some(Ended(step, ok))
  {
    Written(step, if ok then ".ok" else ".failed");
    if !ok && EndsWith(when, ".ok") {
      SuffixIsCut(when, ".ok");
    }
  }

  /** A guard is read from exactly the text it is written as. */
  lemma GuardsReadAsWritten(g: Guard, when: string)
    ensures GuardOf(when) == Some(g) <==> IsText(g, when)
  {
    ReadAsWritten(when);
    if g.Ended? && IsText(g, when) {
      EndedIsRead(g.step, g.ok, when);
    }
  }

  /** The step has failed and is no command that may go on with errors. */
  predicate FailedForGood(st: State, s: Step) {
    s.name in st.steps && st.steps[s.name].status == Failed && !(s.kind == Command && s.continueOnError)
  }

  /** One of the first `k` steps has failed for good. */
  ghost predicate SomeFailed(st: State, rb: seq<Step>, k: nat)
    requires k <= |rb|
  {
    exists i :: 0 <= i < k && FailedForGood(st, rb[i])
  }

  /** The pass is a failed one exactly if a step has failed for good that it has gone over. */
  lemma {:induction false} FailedIsSomeFailed(p: Pass, rb: seq<Step>, k: nat, world: World)
    requires WellFormed(rb) && k <= |rb| && Knows(p.mem, rb) && !p.failed && p.halt == Going
    requires PassTo(p, rb, k, world).halt == Going
    ensures var q := PassTo(p, rb, k, world); q.failed <==> SomeFailed(q.mem, rb, k)
    decreases k
  {
    hide Turn, WellFormed;
    if k > 0 {
      var q := PassTo(p, rb, k - 1, world);
      FailedIsSomeFailed(p, rb, k - 1, world);
      OneTurn(p, rb, k - 1, world);
      TurnFails(q, rb[k - 1], world);
      TurnChangesOne(q, rb[k - 1], world);
      FailedOneMore(q, Turn(q, rb[k - 1], world), rb, k - 1);
    }
  }

  lemma TurnFails(q: Pass, s: Step, world: World)
    requires s.name in q.mem.steps && q.halt == Going && Turn(q, s, world).halt == Going
    ensures var r := Turn(q, s, world);
            r.failed <==> q.failed || FailedForGood(r.mem, s)
  {
    hide Turn, IsAttemptCount, SomeAttemptSucceeds, ShouldRun;
    TurnChangesOne(q, s, world);
    if q.mem.steps[s.name].status != Done {
      TurnIs(q, s, world);
    }
  }

  lemma FailedOneMore(q: Pass, r: Pass, rb: seq<Step>, k: nat)
    requires WellFormed(rb) && k < |rb| && Knows(q.mem, rb) && Knows(r.mem, rb)
    requires r.mem.steps == q.mem.steps[rb[k].name := r.mem.steps[rb[k].name]]
    ensures SomeFailed(r.mem, rb, k + 1) <==> SomeFailed(q.mem, rb, k) || FailedForGood(r.mem, rb[k])
  {
    assert forall i :: 0 <= i < k ==> FailedForGood(r.mem, rb[i]) == FailedForGood(q.mem, rb[i]);
  }

  /**
   What a pass does with a step it comes to that is not done. It is carried out: always, with `always`; after a failure
   only, with `on_failure`; before any failure, with `success`; if that step is done or has failed, with a step's name.
   Otherwise it is skipped.
   */
  lemma GuardsDecide(p: Pass, rb: seq<Step>, k: nat, world: World)
    requires WellFormed(rb) && k < |rb| && Knows(p.mem, rb) && !p.failed && p.halt == Going
    requires var q := PassTo(p, rb, k, world); q.halt == Going && q.mem.steps[rb[k].name].status != Done
    ensures var q, r, s := PassTo(p, rb, k, world), PassTo(p, rb, k + 1, world), rb[k];
            && (s.when == Always ==> IsCarriedOut(q, s, world, r))
            && (s.when == OnFailure && SomeFailed(q.mem, rb, k) ==> IsCarriedOut(q, s, world, r))
            && (s.when == OnFailure && !SomeFailed(q.mem, rb, k) ==> IsSkipped(q, s, r))
            && (s.when == Success && !SomeFailed(q.mem, rb, k) ==> IsCarriedOut(q, s, world, r))
            && (s.when == Success && SomeFailed(q.mem, rb, k) ==> IsSkipped(q, s, r))
    ensures var q, r, s := PassTo(p, rb, k, world), PassTo(p, rb, k + 1, world), rb[k];
            s.when.Ended? ==>
              && s.when.step in q.mem.steps
              && var status := q.mem.steps[s.when.step].status;
                 && (s.when.ok && status == Done ==> IsCarriedOut(q, s, world, r))
                 && (s.when.ok && status != Done ==> IsSkipped(q, s, r))
                 && (!s.when.ok && status == Failed ==> IsCarriedOut(q, s, world, r))
                 && (!s.when.ok && status != Failed ==> IsSkipped(q, s, r))
  {
    hide Turn, IsCarriedOut, IsSkipped, SomeFailed, PassTo;
    var q, s := PassTo(p, rb, k, world), rb[k];
    FailedIsSomeFailed(p, rb, k, world);
    OneTurn(p, rb, k, world);
    TurnIs(q, s, world);
    if s.when.Ended? {
      var j :| 0 <= j < k && rb[j].name == s.when.step;
      assert rb[j].name in p.mem.steps;
    }
  }

  // --- every history -----------------------------------------------------------------------------------------------

  /** A done command has an attempt that succeeded in one of the worlds, and a failed one a world in which none did. */
  ghost predicate OutcomesHappened(st: State, rb: seq<Step>, worlds: seq<World>) {
    forall i :: 0 <= i < |rb| && rb[i].kind == Command && rb[i].name in st.steps ==>
      && (st.steps[rb[i].name].status == Done ==> SomeWorldSucceeds(worlds, rb[i]))
      && (st.steps[rb[i].name].status == Failed ==> SomeWorldFails(worlds, rb[i]))
  }

  ghost predicate SomeWorldSucceeds(worlds: seq<World>, s: Step) {
    exists w :: w in worlds && SomeAttemptSucceeds(w, s)
  }

  ghost predicate SomeWorldFails(worlds: seq<World>, s: Step) {
    exists w :: w in worlds && !SomeAttemptSucceeds(w, s)
  }

  lemma MoreWorlds(st: State, rb: seq<Step>, worlds: seq<World>, world: World)
    requires OutcomesHappened(st, rb, worlds)
    ensures OutcomesHappened(st, rb, worlds + [world])
  {
    hide SomeAttemptSucceeds;
    var more := worlds + [world];
    forall s | SomeWorldSucceeds(worlds, s) ensures SomeWorldSucceeds(more, s) {
      var w :| w in worlds && SomeAttemptSucceeds(w, s);
      assert w in more;
    }
    forall s | SomeWorldFails(worlds, s) ensures SomeWorldFails(more, s) {
      var w :| w in worlds && !SomeAttemptSucceeds(w, s);
      assert w in more;
    }
  }

  lemma TurnOutcomes(q: Pass, rb: seq<Step>, k: nat, world: World, worlds: seq<World>)
    requires WellFormed(rb) && k < |rb| && Knows(q.mem, rb) && q.halt == Going && world in worlds
    requires OutcomesHappened(q.mem, rb, worlds) && OutcomesHappened(q.disk, rb, worlds)
    ensures var r := Turn(q, rb[k], world);
            OutcomesHappened(r.mem, rb, worlds) && OutcomesHappened(r.disk, rb, worlds)
  {
    hide Turn, SomeAttemptSucceeds, IsAttemptCount, ShouldRun, SomeWorldSucceeds, SomeWorldFails;
    var s, r := rb[k], Turn(q, rb[k], world);
    TurnChangesOne(q, s, world);
    if q.mem.steps[s.name].status != Done {
      TurnIs(q, s, world);
      OneWorld(worlds, world, s);
      assert forall i :: 0 <= i < |rb| && i != k ==> r.mem.steps[rb[i].name] == q.mem.steps[rb[i].name];
    }
  }

  lemma OneWorld(worlds: seq<World>, world: World, s: Step)
    requires world in worlds
    ensures if SomeAttemptSucceeds(world, s) then SomeWorldSucceeds(worlds, s) else SomeWorldFails(worlds, s)
  {
  }

  lemma {:induction false} PassOutcomes(p: Pass, rb: seq<Step>, k: nat, world: World, worlds: seq<World>)
    requires WellFormed(rb) && k <= |rb| && Knows(p.mem, rb) && p.halt == Going && world in worlds
    requires OutcomesHappened(p.mem, rb, worlds) && OutcomesHappened(p.disk, rb, worlds)
    ensures var q := PassTo(p, rb, k, world);
            OutcomesHappened(q.mem, rb, worlds) && OutcomesHappened(q.disk, rb, worlds)
    decreases k
  {
    hide Turn, OutcomesHappened, WellFormed;
    if k > 0 {
      PassOutcomes(p, rb, k - 1, world, worlds);
      var q := PassTo(p, rb, k - 1, world);
      if q.halt == Going {
        TurnOutcomes(q, rb, k - 1, world, worlds);
      }
    }
  }

  /** A run that is over says whether a step failed for good. */
  ghost predicate StatusTells(st: State, rb: seq<Step>) {
    && (st.status == FailedRun ==> SomeFailed(st, rb, |rb|))
    && (st.status == Finished ==> !SomeFailed(st, rb, |rb|))
  }

  lemma {:induction false} PassRuns(p: Pass, rb: seq<Step>, k: nat, world: World)
    requires k <= |rb| && Knows(p.mem, rb) && p.halt == Going && p.mem.status == Running
    ensures var q := PassTo(p, rb, k, world);
            && (q.halt == Going ==> q.mem.status == Running)
            && (q.disk == p.disk || q.disk.status == Running || q.disk.status == WaitingForApproval)
    decreases k
  {
    hide Turn;
    if k > 0 {
      PassRuns(p, rb, k - 1, world);
      var q := PassTo(p, rb, k - 1, world);
      if q.halt == Going {
        TurnRuns(q, rb[k - 1], world);
      }
    }
  }

  lemma TurnRuns(q: Pass, s: Step, world: World)
    requires s.name in q.mem.steps && q.halt == Going && q.mem.status == Running
    ensures var r := Turn(q, s, world);
            && (r.halt == Going ==> r.mem.status == Running)
            && (r.disk == q.disk || r.disk.status == Running || r.disk.status == WaitingForApproval)
  {
    hide ShouldRun, Succeeds, AttemptCount, Times;
  }

  lemma ExecuteOutcomes(rb: seq<Step>, mem: State, disk: State, world: World, worlds: seq<World>)
    requires WellFormed(rb) && Knows(mem, rb) && world in worlds && mem.status == Running
    requires OutcomesHappened(mem, rb, worlds) && OutcomesHappened(disk, rb, worlds) && StatusTells(disk, rb)
    ensures var p := Execute(rb, mem, disk, world);
            OutcomesHappened(p.disk, rb, worlds) && StatusTells(p.disk, rb)
  {
    hide PassTo, WellFormed, OutcomesHappened, SomeFailed;
    var p0 := Pass(mem, disk, false, [], Going);
    var q := PassTo(p0, rb, |rb|, world);
    PassOutcomes(p0, rb, |rb|, world, worlds);
    PassRuns(p0, rb, |rb|, world);
    if q.halt == Going {
      FailedIsSomeFailed(p0, rb, |rb|, world);
      SameOutcomes(q.mem, Finish(q).mem, rb, worlds);
    }
  }

  lemma SameOutcomes(a: State, b: State, rb: seq<Step>, worlds: seq<World>)
    requires a.steps == b.steps
    ensures OutcomesHappened(a, rb, worlds) <==> OutcomesHappened(b, rb, worlds)
    ensures SomeFailed(a, rb, |rb|) <==> SomeFailed(b, rb, |rb|)
  {
  }

  /** Opening steps again leaves what has been done. */
  lemma OpenedOutcomes(st: State, mem: State, rb: seq<Step>, worlds: seq<World>)
    requires OutcomesHappened(st, rb, worlds) && mem.steps.Keys == st.steps.Keys
    requires forall n :: n in st.steps ==> mem.steps[n].status == Pending || mem.steps[n] == st.steps[n]
    ensures OutcomesHappened(mem, rb, worlds)
  {
  }

  /** What `resume` opens again: all that is not done; the answers stay. */
  lemma ResumeOpens(st: State)
    ensures var mem := Reopened(st);
            && mem.status == Running && mem.approvals == st.approvals && mem.steps.Keys == st.steps.Keys
            && forall n :: n in st.steps ==>
                 mem.steps[n] == if st.steps[n].status == Done then st.steps[n] else st.steps[n].(status := Pending)
  {
  }

  lemma CallOutcomes(rb: seq<Step>, run: Run, call: Call, worlds: seq<World>)
    requires WellFormed(rb) && Knows(run.disk, rb) && OutcomesHappened(run.disk, rb, worlds) &&
        StatusTells(run.disk, rb)
    ensures var r := After(rb, run, call).disk;
            OutcomesHappened(r, rb, worlds + [call.world]) && StatusTells(r, rb)
  {
    hide Execute, WellFormed, OutcomesHappened, SomeFailed, Reopened;
    MoreWorlds(run.disk, rb, worlds, call.world);
    var more := worlds + [call.world];
    match call
    case Resume(world) =>
      ResumeOpens(run.disk);
      OpenedOutcomes(run.disk, Reopened(run.disk), rb, more);
      ExecuteOutcomes(rb, Reopened(run.disk), run.disk, world, more);
    case Approve(deny, resume, world) =>
      var w := FirstWaiting(rb, run.disk);
      if w.Some? {
        var st := Answered(run.disk, w.value, deny);
        SameOutcomes(run.disk, st, rb, more);
        if resume {
          OpenedOutcomes(st, Unparked(st, w.value), rb, more);
          ExecuteOutcomes(rb, Unparked(st, w.value), st, world, more);
        }
      }
  }

  /** The worlds of a run's calls, in order. */
  function WorldsOf(calls: seq<Call>): (r: seq<World>)
    ensures |r| == |calls| && forall i :: 0 <= i < |r| ==> r[i] == calls[i].world
  {
    seq(|calls|, i requires 0 <= i < |calls| => calls[i].world)
  }

  lemma {:induction false} AllCallsOutcomes(rb: seq<Step>, run: Run, calls: seq<Call>, worlds: seq<World>)
    requires WellFormed(rb) && Knows(run.disk, rb) && OutcomesHappened(run.disk, rb, worlds) &&
        StatusTells(run.disk, rb)
    ensures var r := AfterAll(rb, run, calls).disk;
            Knows(r, rb) && OutcomesHappened(r, rb, worlds + WorldsOf(calls)) && StatusTells(r, rb)
    decreases |calls|
  {
    hide After, OutcomesHappened, StatusTells, WellFormed;
    if calls == [] {
      assert worlds + WorldsOf(calls) == worlds;
    } else {
      CallOutcomes(rb, run, calls[0], worlds);
      AllCallsOutcomes(rb, After(rb, run, calls[0]), calls[1..], worlds + [calls[0].world]);
      assert worlds + [calls[0].world] + WorldsOf(calls[1..]) == worlds + WorldsOf(calls);
    }
  }

  lemma StartOutcomes(rb: seq<Step>, world: World)
    requires WellFormed(rb)
    ensures var st := Start(rb, world).disk; Knows(st, rb) && OutcomesHappened(st, rb, [world]) && StatusTells(st, rb)
  {
    hide Execute, WellFormed, SomeFailed;
    var st := NewRun(rb);
    assert forall i :: 0 <= i < |rb| ==> rb[i] in rb;
    ExecuteOutcomes(rb, st, st, world, [world]);
  }

  /**
   Over every sequence of calls: a command step that is done had an attempt that succeeded, among those allowed, in the
   world of one of the calls; and one that has failed met a world in which none of them did.
   */
  lemma DoneCommandsSucceeded(rb: seq<Step>, world: World, calls: seq<Call>, i: nat)
    requires WellFormed(rb) && i < |rb| && rb[i].kind == Command
    ensures var st, worlds := History(rb, world, calls).disk, [world] + WorldsOf(calls);
            && rb[i].name in st.steps
            && (st.steps[rb[i].name].status == Done ==>
                  exists w, a: nat :: w in worlds && 1 <= a <= rb[i].retries + 1 && w.succeeds(rb[i].name, a))
            && (st.steps[rb[i].name].status == Failed ==>
                  exists w :: w in worlds && forall a: nat :: 1 <= a <= rb[i].retries + 1 ==>
                      !w.succeeds(rb[i].name, a))
  {
    hide AfterAll, Start, WellFormed;
    StartOutcomes(rb, world);
    AllCallsOutcomes(rb, Start(rb, world), calls, [world]);
  }

  /** Over every sequence of calls: a run that is over as failed has a step that failed for good, and one that is over
      without failure has none. */
  lemma StatusIsTrue(rb: seq<Step>, world: World, calls: seq<Call>)
    requires WellFormed(rb)
    ensures var st := History(rb, world, calls).disk;
            && (st.status == FailedRun ==> SomeFailed(st, rb, |rb|))
            && (st.status == Finished ==> !SomeFailed(st, rb, |rb|))
  {
    hide AfterAll, Start, WellFormed, SomeFailed;
    StartOutcomes(rb, world);
    AllCallsOutcomes(rb, Start(rb, world), calls, [world]);
  }

  // --- answers -----------------------------------------------------------------------------------------------------

  /** Every answer on record is one that some call gave. */
  ghost predicate AnswersWereGiven(st: State, calls: seq<Call>) {
    forall n :: n in st.approvals ==> SomeCallAnswers(calls, st.approvals[n])
  }

  ghost predicate SomeCallAnswers(calls: seq<Call>, d: Decision) {
    exists c :: c in calls && c.Approve? && (c.deny <==> d == Denied)
  }

  lemma {:induction false} PassKeepsAnswers(p: Pass, rb: seq<Step>, k: nat, world: World)
    requires k <= |rb| && Knows(p.mem, rb) && p.disk.approvals == p.mem.approvals
    ensures var q := PassTo(p, rb, k, world);
            q.mem.approvals == p.mem.approvals && q.disk.approvals == p.mem.approvals
    decreases k
  {
    hide Turn;
    if k > 0 {
      PassKeepsAnswers(p, rb, k - 1, world);
      var q := PassTo(p, rb, k - 1, world);
      if q.halt == Going {
        TurnChangesOne(q, rb[k - 1], world);
      }
    }
  }

  lemma ExecuteKeepsAnswers(rb: seq<Step>, mem: State, disk: State, world: World)
    requires Knows(mem, rb) && disk.approvals == mem.approvals
    ensures Execute(rb, mem, disk, world).disk.approvals == mem.approvals
  {
    hide PassTo;
    PassKeepsAnswers(Pass(mem, disk, false, [], Going), rb, |rb|, world);
  }

  lemma CallAnswers(rb: seq<Step>, run: Run, call: Call, calls: seq<Call>)
    requires Knows(run.disk, rb) && AnswersWereGiven(run.disk, calls)
    ensures AnswersWereGiven(After(rb, run, call).disk, calls + [call])
  {
    hide Execute;
    var more := calls + [call];
    forall d | SomeCallAnswers(calls, d) ensures SomeCallAnswers(more, d) {
      var c :| c in calls && c.Approve? && (c.deny <==> d == Denied);
      assert c in more;
    }
    match call
    case Resume(world) => ExecuteKeepsAnswers(rb, Reopened(run.disk), run.disk, world);
    case Approve(deny, resume, world) =>
      assert call in more;
      var w := FirstWaiting(rb, run.disk);
      if w.Some? {
        var st := Answered(run.disk, w.value, deny);
        assert SomeCallAnswers(more, if deny then Denied else Approved);
        assert AnswersWereGiven(st, more);
        if resume {
          ExecuteKeepsAnswers(rb, Unparked(st, w.value), st, world);
        }
      }
  }

  lemma {:induction false} AllCallsAnswer(rb: seq<Step>, run: Run, calls: seq<Call>, earlier: seq<Call>)
    requires Knows(run.disk, rb) && AnswersWereGiven(run.disk, earlier)
    ensures AnswersWereGiven(AfterAll(rb, run, calls).disk, earlier + calls)
    decreases |calls|
  {
    hide After, AnswersWereGiven;
    if calls == [] {
      assert earlier + calls == earlier;
    } else {
      CallAnswers(rb, run, calls[0], earlier);
      AllCallsAnswer(rb, After(rb, run, calls[0]), calls[1..], earlier + [calls[0]]);
      assert earlier + [calls[0]] + calls[1..] == earlier + calls;
    }
  }

  /** Over every sequence of calls: a `success` step behind an unconditional or `success` approval is run only if a call
      has said yes. */
  lemma StepsBehindGatesWereApproved(rb: seq<Step>, world: World, calls: seq<Call>, i: nat, j: nat)
    requires WellFormed(rb) && i < j < |rb| && IsGate(rb[i]) && rb[j].when == Success
    requires rb[j].name in History(rb, world, calls).log
    ensures exists c :: c in calls && c.Approve? && !c.deny
  {
    hide AfterAll, Start, WellFormed, Knows, IsGate;
    GatesGuardSteps(rb, world, calls, i, j);
    StartHasNoAnswers(rb, world);
    AllCallsAnswer(rb, Start(rb, world), calls, []);
    assert [] + calls == calls;
    assert SomeCallAnswers(calls, Approved);
  }

  lemma StartHasNoAnswers(rb: seq<Step>, world: World)
    ensures Knows(Start(rb, world).disk, rb) && Start(rb, world).disk.approvals == map[]
  {
    hide Execute;
    var st := NewRun(rb);
    assert forall i :: 0 <= i < |rb| ==> rb[i] in rb;
    ExecuteKeepsAnswers(rb, st, st, world);
  }
}
