/**
 The session as the program runs it: an object whose journal grows with each change and whose rollback changes
 the daemon step by step.
 */
module SessionObject {
  import opened Wrappers
  import opened Session

  class Client {
    /** The daemon behind the client's transport, and the session's files. */
    var daemon: Daemon
    var journal: seq<Entry>
    var baseline: Snapshot
    /** The steps of the running (or last) rollback. */
    var steps: seq<bool>

    /** `session begin` */
    constructor (d: Daemon)
      ensures daemon == d && journal == [] && baseline == Take(d) && steps == []
    {
      daemon, journal, baseline, steps := d, [], Take(d), [];
    }

    function Progress(): Progress
      reads this
    {
      Session.Progress(daemon, steps)
    }

    /** `invoke`: the capture hook first, then the op itself. */
    method Invoke(op: Op, carriedOut: bool)
      modifies this
      ensures World(daemon, journal) == Happen(old(World(daemon, journal)), Change(op, carriedOut))
      ensures baseline == old(baseline) && steps == old(steps)
    {
      journal := journal + [Entry(Capture(daemon, op), false)];
      if carriedOut {
        daemon := Apply(daemon, op);
      }
    }

    /** `step`, given the outcome of what it runs. */
    method Step(result: Option<Daemon>, trouble: Trouble)
      modifies this`daemon, this`steps
      ensures Progress() == Session.Step(old(Progress()), result, trouble)
    {
      var outside := trouble(|steps|);
      if outside.Some? {
        daemon, steps := outside.value, steps + [false];
      } else if result.Some? {
        daemon, steps := result.value, steps + [true];
      } else {
        steps := steps + [false];
      }
    }

    method Undo(inverse: Inverse, trouble: Trouble)
      modifies this`daemon, this`steps
      ensures Progress() == Session.Undo(old(Progress()), inverse, baseline, trouble)
    {
      match inverse {
        case RecreateContainer(c, was, volumes) =>
          if c in baseline.containers {
            Step(Some(Recreated(daemon, c, was, volumes)), trouble);
          }
        case RecreateNetwork(n, network) =>
          if n in baseline.networks {
            Step(Some(if n in daemon.networks then daemon
                      else daemon.(networks := daemon.networks[n := network])), trouble);
          }
        case PutBackVolume(v, backup) =>
          if v in baseline.volumes {
            Step(Some(PutBack(daemon, v, backup)), trouble);
          }
        case DropVolume(v) => Step(DeleteVolume(daemon, v), trouble);
        case SetRunning(c, running) =>
          if c in baseline.containers {
            Step(if c in daemon.containers
                 then Some(daemon.(containers := daemon.containers[c := daemon.containers[c].(running := running)]))
                 else None, trouble);
          }
        case CaptureFailed =>
      }
    }

    /** `rollback`: the daemon goes back step by step and every record that was gone over is marked done. */
    method Rollback(trouble: Trouble)
      modifies this
      ensures Progress() == Session.Rollback(old(daemon), old(journal), old(baseline), trouble)
      ensures journal == MarkDone(old(journal)) && baseline == old(baseline)
    {
      hide Session.Step, Session.Undo, DeleteVolume, DeleteContainer;
      steps := [];
      var containers := Sorted(daemon.containers.Keys - baseline.containers);
      var volumes := Sorted(daemon.volumes.Keys - baseline.volumes);
      var networks := Sorted(daemon.networks.Keys - baseline.networks);
      RemoveAddedContainers(containers, trouble);
      ReplayJournal(trouble);
      var dropped := Dropped(journal);
      assert dropped == Dropped(old(journal)) by { SameDropped(journal, old(journal)); }
      RemoveAddedVolumes(volumes, dropped, trouble);
      RemoveAddedNetworks(networks, trouble);
    }

    method RemoveAddedContainers(names: seq<Name>, trouble: Trouble)
      modifies this`daemon, this`steps
      ensures Progress() == RemoveContainers(old(Progress()), names, trouble)
    {
      hide Session.Step, DeleteContainer;
      for i := 0 to |names|
        invariant RemoveContainers(Progress(), names[i..], trouble) == RemoveContainers(old(Progress()), names, trouble)
      {
        assert names[i..][0] == names[i] && names[i..][1..] == names[i + 1..];
        Step(if names[i] in daemon.containers then Some(DeleteContainer(daemon, names[i], true)) else None, trouble);
      }
    }

    method ReplayJournal(trouble: Trouble)
      modifies this`daemon, this`steps, this`journal
      ensures Progress() == Replay(old(Progress()), old(journal), baseline, trouble)
      ensures journal == MarkDone(old(journal))
    {
      hide Session.Step, Session.Undo;
      var k := |journal|;
      assert old(journal)[..k] == old(journal);
      while k > 0
        invariant 0 <= k <= |journal| == |old(journal)|
        invariant journal[..k] == old(journal)[..k]
        invariant forall i :: k <= i < |journal| ==> journal[i] == MarkDone(old(journal))[i]
        invariant Replay(Progress(), old(journal)[..k], baseline, trouble) ==
            Replay(old(Progress()), old(journal), baseline, trouble)
      {
        var e := journal[k - 1];
        assert e == journal[..k][k - 1] == old(journal)[..k][k - 1];
        assert old(journal)[..k][..k - 1] == old(journal)[..k - 1];
        if !e.done && e.inverse.Some? {
          Undo(e.inverse.value, trouble);
          journal := journal[k - 1 := e.(done := true)];
        }
        k := k - 1;
        assert journal[..k] == old(journal)[..k];
      }
      assert journal == MarkDone(old(journal));
    }

    method RemoveAddedVolumes(names: seq<Name>, dropped: set<Name>, trouble: Trouble)
      modifies this`daemon, this`steps
      ensures Progress() == RemoveVolumes(old(Progress()), names, dropped, trouble)
    {
      hide Session.Step, DeleteVolume;
      for i := 0 to |names|
        invariant RemoveVolumes(Progress(), names[i..], dropped, trouble) ==
            RemoveVolumes(old(Progress()), names, dropped, trouble)
      {
        assert names[i..][0] == names[i] && names[i..][1..] == names[i + 1..];
        if names[i] !in dropped {
          Step(if names[i] in daemon.volumes then DeleteVolume(daemon, names[i]) else Some(daemon), trouble);
        }
      }
    }

    method RemoveAddedNetworks(names: seq<Name>, trouble: Trouble)
      modifies this`daemon, this`steps
      ensures Progress() == RemoveNetworks(old(Progress()), names, trouble)
    {
      hide Session.Step;
      for i := 0 to |names|
        invariant RemoveNetworks(Progress(), names[i..], trouble) == RemoveNetworks(old(Progress()), names, trouble)
      {
        assert names[i..][0] == names[i] && names[i..][1..] == names[i + 1..];
        Step(if names[i] in daemon.networks then Some(daemon.(networks := daemon.networks - {names[i]}))
            else None, trouble);
      }
    }
  }

  lemma SameDropped(a: seq<Entry>, b: seq<Entry>)
    requires |a| == |b| && forall i :: 0 <= i < |a| ==> a[i].inverse == b[i].inverse
    ensures Dropped(a) == Dropped(b)
  {
    forall x | x in Dropped(a) ensures x in Dropped(b) {
      var i :| 0 <= i < |a| && a[i].inverse.Some? && a[i].inverse.value.DropVolume? && a[i].inverse.value.v == x;
      assert b[i] in b;
    }
    forall x | x in Dropped(b) ensures x in Dropped(a) {
      var i :| 0 <= i < |b| && b[i].inverse.Some? && b[i].inverse.value.DropVolume? && b[i].inverse.value.v == x;
      assert a[i] in a;
    }
  }
}
