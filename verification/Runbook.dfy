/**
 The runbook engine of `runbooks.py` and `api/runbook.py`: parsing of guards, one pass over the steps, and the
 calls `run`, `approve` and `resume` on a saved run.
 */
module Runbook {
  import opened Wrappers

  type Name = string

  datatype Kind = Command | Approval | Sleep

  /** `when`: success | always | on_failure | STEP.ok | STEP.failed */
  datatype Guard = Success | Always | OnFailure | Ended(step: Name, ok: bool)

  datatype Step = Step(name: Name, kind: Kind, when: Guard, retries: int, continueOnError: bool)

  // --- parsing -------------------------------------------------------------------------------------------------

  datatype RawStep = RawStep(name: Name, kinds: set<Kind>, when: string, retries: int, continueOnError: bool)

  datatype ParseError =
    | NoSteps | DuplicateName(name: Name) | NotOneKind(name: Name) | BadGuard(name: Name) | UnknownStep(name: Name)

  predicate EndsWith(s: string, suffix: string) {
    |suffix| < |s| && s[|s| - |suffix|..] == suffix
  }

  function GuardOf(when: string): Option<Guard> {
    if when == "success" then Some(Success)
    else if when == "always" then Some(Always)
    else if when == "on_failure" then Some(OnFailure)
    else if EndsWith(when, ".ok") then Some(Ended(when[..|when| - 3], true))
    else if EndsWith(when, ".failed") then Some(Ended(when[..|when| - 7], false))
    else None
  }

  /** Names are distinct, and a guard names an earlier step. */
  ghost predicate WellFormed(rb: seq<Step>) {
    && (forall i, j :: 0 <= i < j < |rb| ==> rb[i].name != rb[j].name)
    && (forall i :: 0 <= i < |rb| && rb[i].when.Ended? ==> exists j :: 0 <= j < i && rb[j].name == rb[i].when.step)
  }

  /** The step is what the raw entry says. */
  predicate Matches(s: Step, raw: RawStep) {
    && s.name == raw.name && raw.kinds == {s.kind} && GuardOf(raw.when) == Some(s.when)
    && s.retries == raw.retries && s.continueOnError == raw.continueOnError
  }

  /** Entry `i` has the fault that the error names. */
  ghost predicate HasFault(raw: seq<RawStep>, i: nat, e: ParseError)
    requires i < |raw|
  {
    match e
    case NoSteps => false
    case DuplicateName(n) => raw[i].name == n && exists j :: 0 <= j < i && raw[j].name == n
    case NotOneKind(n) => raw[i].name == n && |raw[i].kinds| != 1
    case BadGuard(n) => raw[i].name == n && GuardOf(raw[i].when).None?
    case UnknownStep(n) =>
      && raw[i].name == n && GuardOf(raw[i].when).Some? && GuardOf(raw[i].when).value.Ended?
      && forall j :: 0 <= j < i ==> raw[j].name != GuardOf(raw[i].when).value.step
  }

  /** `parse`: what it accepts is well formed, and what it rejects has the fault it names. */
  method Parse(raw: seq<RawStep>) returns (r: Result<seq<Step>, ParseError>)
    ensures r.Ok? ==> WellFormed(r.value) && |r.value| == |raw| > 0
    ensures r.Ok? ==> forall i :: 0 <= i < |raw| ==> Matches(r.value[i], raw[i])
    ensures r.Err? ==> if r.error.NoSteps? then raw == [] else exists i :: 0 <= i < |raw| && HasFault(raw, i, r.error)
  {
    hide WellFormed, Matches, AreNames, HasFault;
    if raw == [] {
      return Err(NoSteps);
    }
    var steps: seq<Step>, seen: set<Name> := [], {};
    assert WellFormed(steps) by { NothingParsed(); }
    assert AreNames(seen, steps) by { NothingParsed(); }
    for i := 0 to |raw|
      invariant |steps| == i && WellFormed(steps) && AreNames(seen, steps)
      invariant forall j :: 0 <= j < i ==> Matches(steps[j], raw[j])
    {
      var s := ParseStep(raw, i, steps, seen);
      if s.Err? {
        assert HasFault(raw, i, s.error) && !s.error.NoSteps?;
        return Err(s.error);
      }
      Extended(steps, seen, s.value);
      seen := seen + {s.value.name};
      steps := steps + [s.value];
    }
    r := Ok(steps);
  }

  /** The names of the steps. */
  ghost predicate AreNames(names: set<Name>, steps: seq<Step>) {
    && (forall j :: 0 <= j < |steps| ==> steps[j].name in names)
    && (forall n :: n in names ==> exists j :: 0 <= j < |steps| && steps[j].name == n)
  }

  lemma NothingParsed()
    ensures WellFormed([]) && AreNames({}, [])
  {
  }

  lemma MoreNames(steps: seq<Step>, seen: set<Name>, s: Step)
    requires AreNames(seen, steps)
    ensures AreNames(seen + {s.name}, steps + [s])
  {
    var more := steps + [s];
    forall n | n in seen + {s.name} ensures exists j :: 0 <= j < |more| && more[j].name == n {
      if n in seen {
        var j :| 0 <= j < |steps| && steps[j].name == n;
        assert more[j].name == n;
      } else {
        assert more[|steps|].name == n;
      }
    }
  }

  lemma Extended(steps: seq<Step>, seen: set<Name>, s: Step)
    requires WellFormed(steps) && AreNames(seen, steps) && s.name !in seen
    requires s.when.Ended? ==> s.when.step in seen
    ensures WellFormed(steps + [s]) && AreNames(seen + {s.name}, steps + [s])
  {
    var more := steps + [s];
    assert AreNames(seen + {s.name}, more) by { MoreNames(steps, seen, s); }
    forall i | 0 <= i < |more| && more[i].when.Ended?
        ensures exists j :: 0 <= j < i && more[j].name == more[i].when.step {
      var j :| 0 <= j < i && j < |steps| && steps[j].name == more[i].when.step;
      assert more[j].name == more[i].when.step;
    }
  }

  method ParseStep(raw: seq<RawStep>, i: nat, steps: seq<Step>, seen: set<Name>) returns (r: Result<Step, ParseError>)
    requires i < |raw| && |steps| == i && AreNames(seen, steps)
    requires forall j :: 0 <= j < i ==> Matches(steps[j], raw[j])
    ensures r.Ok? ==>
              && Matches(r.value, raw[i]) && r.value.name !in seen
              && (r.value.when.Ended? ==> r.value.when.step in seen)
    ensures r.Err? ==> HasFault(raw, i, r.error) && !r.error.NoSteps?
  {
    hide GuardOf;
    var s := raw[i];
    if s.name in seen {
      assert forall j :: 0 <= j < i ==> raw[j].name == steps[j].name;
      return Err(DuplicateName(s.name));
    }
    if |s.kinds| != 1 {
      return Err(NotOneKind(s.name));
    }
    var kind :| kind in s.kinds;
    OnlyKind(s.kinds, kind);
    var guard := GuardOf(s.when);
    if guard.None? {
      return Err(BadGuard(s.name));
    }
    if guard.value.Ended? && guard.value.step !in seen {
      assert forall j :: 0 <= j < i ==> raw[j].name == steps[j].name;
      return Err(UnknownStep(s.name));
    }
    r := Ok(Step(s.name, kind, guard.value, s.retries, s.continueOnError));
  }

  lemma OnlyKind(kinds: set<Kind>, kind: Kind)
    requires |kinds| == 1 && kind in kinds
    ensures kinds == {kind}
  {
    assert |kinds - {kind}| == 0;
  }

  // --- the saved run -------------------------------------------------------------------------------------------

  datatype Status = Pending | Waiting | Done | Failed | Skipped

  datatype StepState = StepState(status: Status, tolerated: bool)

  datatype Decision = Approved | Denied

  datatype RunStatus = Running | WaitingForApproval | Finished | FailedRun

  datatype State = State(steps: map<Name, StepState>, approvals: map<Name, Decision>, status: RunStatus)

  function NewRun(rb: seq<Step>): State {
    State(map s | s in rb :: s.name := StepState(Pending, false), map[], Running)
  }

  /** What the world answers: whether a step's command succeeds at an attempt, and whether its text renders. */
  datatype World = World(succeeds: (Name, nat) -> bool, renders: Name -> bool)

  // --- one pass --------------------------------------------------------------------------------------------------

  /** `should_run` */
  predicate ShouldRun(s: Step, steps: map<Name, StepState>, failed: bool) {
    match s.when
    case Always => true
    case OnFailure => failed
    case Success => !failed
    case Ended(ref, ok) => ref in steps && steps[ref].status == (if ok then Done else Failed)
  }

  /** The first attempt from `n` on that succeeds, or the last one allowed. */
  function Attempts(world: World, name: Name, n: nat, last: int): (r: nat)
    requires n <= last
    ensures n <= r <= last
    ensures forall k :: n <= k < r ==> !world.succeeds(name, k)
    ensures r < last ==> world.succeeds(name, r)
    decreases last - n
  {
    if world.succeeds(name, n) || n == last then n else Attempts(world, name, n + 1, last)
  }

  /** How often a command is run in one pass: not at all with a negative number of retries. */
  function AttemptCount(world: World, s: Step): nat {
    if s.retries < 0 then 0 else Attempts(world, s.name, 1, s.retries + 1)
  }

  predicate Succeeds(world: World, s: Step) {
    s.retries >= 0 && world.succeeds(s.name, AttemptCount(world, s))
  }

  function Times(name: Name, n: nat): (r: seq<Name>)
    ensures |r| == n && forall i :: 0 <= i < n ==> r[i] == name
  {
    seq(n, _ => name)
  }

  /** How a pass stops early: at an approval nobody has answered, or with an error out of the engine. */
  datatype Halt = Going | AtApproval(step: Name) | Raised(step: Name)

  /** A pass under way: the state in memory and as last saved, the `failed` flag, and the commands run so far. */
  datatype Pass = Pass(mem: State, disk: State, failed: bool, log: seq<Name>, halt: Halt)

  function SetStep(st: State, name: Name, s: StepState): State {
    st.(steps := st.steps[name := s])
  }

  function Save(p: Pass, st: State): Pass {
    p.(mem := st, disk := st)
  }

  /** A turn at an approval: it waits without an answer. */
  function ApprovalTurn(p: Pass, s: Step, world: World): Pass
    requires s.name in p.mem.steps
  {
    var was := p.mem.steps[s.name];
    if s.name !in p.mem.approvals then
      if !world.renders(s.name) then p.(halt := Raised(s.name))
      else
        Save(p, SetStep(p.mem, s.name, was.(status := Waiting)).(status := WaitingForApproval))
          .(halt := AtApproval(s.name))
    else if p.mem.approvals[s.name] == Denied then
      Save(p, SetStep(p.mem, s.name, was.(status := Failed))).(failed := true)
    else Save(p, SetStep(p.mem, s.name, was.(status := Done)))
  }

  /** A turn at a command, with all its attempts. */
  function CommandTurn(p: Pass, s: Step, world: World): Pass
    requires s.name in p.mem.steps
  {
    if !world.renders(s.name) then p.(halt := Raised(s.name))
    else
      var was, ok := p.mem.steps[s.name], Succeeds(world, s);
      var now := StepState(if ok then Done else Failed, was.tolerated || (!ok && s.continueOnError));
      Save(p, SetStep(p.mem, s.name, now)).(failed := p.failed || (!ok && !s.continueOnError),
                                            log := p.log + Times(s.name, AttemptCount(world, s)))
  }

  /** One turn of the loop in `_execute`. */
  function Turn(p: Pass, s: Step, world: World): (r: Pass)
    requires s.name in p.mem.steps
    ensures r.mem.steps.Keys == p.mem.steps.Keys && (r.disk == p.disk || r.disk == r.mem)
  {
    var was := p.mem.steps[s.name];
    if was.status == Done then p
    else if !ShouldRun(s, p.mem.steps, p.failed) then Save(p, SetStep(p.mem, s.name, was.(status := Skipped)))
    else
      match s.kind
      case Approval => ApprovalTurn(p, s, world)
      case Sleep => Save(p, SetStep(p.mem, s.name, was.(status := Done)))
      case Command => CommandTurn(p, s, world)
  }

  predicate Knows(st: State, rb: seq<Step>) {
    forall i :: 0 <= i < |rb| ==> rb[i].name in st.steps
  }

  /** The pass after the first `k` steps. */
  function PassTo(p: Pass, rb: seq<Step>, k: nat, world: World): (r: Pass)
    requires k <= |rb| && Knows(p.mem, rb)
    ensures r.mem.steps.Keys == p.mem.steps.Keys && r.disk.steps.Keys in {p.disk.steps.Keys, p.mem.steps.Keys}
  {
    if k == 0 then p
    else
      var q := PassTo(p, rb, k - 1, world);
      if q.halt.Going? then Turn(q, rb[k - 1], world) else q
  }

  lemma OneTurn(p: Pass, rb: seq<Step>, i: nat, world: World)
    requires i < |rb| && Knows(p.mem, rb) && PassTo(p, rb, i, world).halt.Going?
    ensures PassTo(p, rb, i + 1, world) == Turn(PassTo(p, rb, i, world), rb[i], world)
  {
    hide Turn;
  }

  /** A pass that halted is where it was when it halted. */
  lemma {:induction false} HaltedStays(p: Pass, rb: seq<Step>, j: nat, k: nat, world: World)
    requires j <= k <= |rb| && Knows(p.mem, rb) && !PassTo(p, rb, j, world).halt.Going?
    ensures PassTo(p, rb, k, world) == PassTo(p, rb, j, world)
    decreases k
  {
    hide Turn;
    if j < k {
      HaltedStays(p, rb, j, k - 1, world);
    }
  }

  function Finish(p: Pass): Pass {
    if p.halt.Going? then Save(p, p.mem.(status := if p.failed then FailedRun else Finished)) else p
  }

  /** `_execute`, from a state in memory while another one may still be saved. */
  function Execute(rb: seq<Step>, mem: State, disk: State, world: World): (r: Pass)
    requires Knows(mem, rb)
    ensures Knows(disk, rb) ==> Knows(r.disk, rb)
  {
    Finish(PassTo(Pass(mem, disk, false, [], Going), rb, |rb|, world))
  }

  // --- the calls -------------------------------------------------------------------------------------------------

  datatype Call = Resume(world: World) | Approve(deny: bool, resume: bool, world: World)

  /** A run as saved, and every command it has run. */
  datatype Run = Run(disk: State, log: seq<Name>)

  function Start(rb: seq<Step>, world: World): Run {
    var p := Execute(rb, NewRun(rb), NewRun(rb), world);
    Run(p.disk, p.log)
  }

  function Reset(s: StepState): StepState {
    if s.status in {Failed, Skipped, Waiting} then s.(status := Pending) else s
  }

  /** What `resume` executes: everything not done is open again. */
  function Reopened(st: State): State {
    st.(steps := map n | n in st.steps :: Reset(st.steps[n]), status := Running)
  }

  /** The first step that waits for an approval. */
  function FirstWaiting(rb: seq<Step>, st: State): (r: Option<Name>)
    requires Knows(st, rb)
    ensures r.Some? ==> r.value in st.steps && st.steps[r.value].status == Waiting
    ensures r.None? ==> forall i :: 0 <= i < |rb| ==> st.steps[rb[i].name].status != Waiting
  {
    if rb == [] then None
    else if st.steps[rb[0].name].status == Waiting then Some(rb[0].name)
    else
      assert forall i :: 0 < i < |rb| ==> rb[i] == rb[1..][i - 1];
      FirstWaiting(rb[1..], st)
  }

  /** `resume` and `approve` on the run, with the runbook it was started from; an error changes nothing. */
  function After(rb: seq<Step>, run: Run, call: Call): (r: Run)
    requires Knows(run.disk, rb)
    ensures Knows(r.disk, rb)
  {
    match call
    case Resume(world) =>
      if run.disk.status == Finished then run
      else
        var p := Execute(rb, Reopened(run.disk), run.disk, world);
        Run(p.disk, run.log + p.log)
    case Approve(deny, resume, world) =>
      var w := FirstWaiting(rb, run.disk);
      if w.None? then run
      else
        var st := Answered(run.disk, w.value, deny);
        if !resume then Run(st, run.log)
        else
          var p := Execute(rb, Unparked(st, w.value), st, world);
          Run(p.disk, run.log + p.log)
  }

  function Answered(st: State, w: Name, deny: bool): State {
    st.(approvals := st.approvals[w := if deny then Denied else Approved])
  }

  function Unparked(st: State, w: Name): State
    requires w in st.steps
  {
    SetStep(st, w, st.steps[w].(status := Pending)).(status := Running)
  }

  /** Every sequence of calls. */
  function AfterAll(rb: seq<Step>, run: Run, calls: seq<Call>): Run
    requires Knows(run.disk, rb)
    decreases |calls|
  {
    if calls == [] then run else AfterAll(rb, After(rb, run, calls[0]), calls[1..])
  }
}
