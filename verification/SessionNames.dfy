/**
 Which objects exist after a rollback: for every history, exactly the baseline's containers and networks, and
 exactly the baseline's volumes under a condition that can be read off the journal and the daemon beforehand.
 */
module SessionNames {
  import opened Wrappers
  import opened Session

  // --- steps -----------------------------------------------------------------------------------------------

  lemma StepDone(p: Progress, result: Option<Daemon>, trouble: Trouble)
    ensures p.steps <= Step(p, result, trouble).steps
    ensures AllDone(Step(p, result, trouble).steps) ==>
              AllDone(p.steps) && result.Some? && Step(p, result, trouble).d == result.value
  {
    var r := Step(p, result, trouble);
    assert r.steps[|p.steps|] == (trouble(|p.steps|).None? && result.Some?);
    assert forall i :: 0 <= i < |p.steps| ==> r.steps[i] == p.steps[i];
  }

  lemma UndoDone(p: Progress, inverse: Inverse, base: Snapshot, trouble: Trouble)
    ensures p.steps <= Undo(p, inverse, base, trouble).steps
    ensures AllDone(Undo(p, inverse, base, trouble).steps) ==> AllDone(p.steps)
  {
    hide Step, AllDone, Recreated, PutBack, DeleteVolume;
    match inverse
    case RecreateContainer(c, was, volumes) => StepDone(p, Some(Recreated(p.d, c, was, volumes)), trouble);
    case RecreateNetwork(n, network) =>
      StepDone(p, Some(if n in p.d.networks then p.d else p.d.(networks := p.d.networks[n := network])), trouble);
    case PutBackVolume(v, backup) => StepDone(p, Some(PutBack(p.d, v, backup)), trouble);
    case DropVolume(v) => StepDone(p, DeleteVolume(p.d, v), trouble);
    case SetRunning(c, running) =>
      StepDone(p, if c in p.d.containers
                  then Some(p.d.(containers := p.d.containers[c := p.d.containers[c].(running := running)]))
                  else None, trouble);
    case CaptureFailed =>
  }

  /** One replayed entry. */
  function UndoEntry(p: Progress, e: Entry, base: Snapshot, trouble: Trouble): Progress {
    if e.done || e.inverse.None? then p else Undo(p, e.inverse.value, base, trouble)
  }

  lemma {:induction false} ReplayDone(p: Progress, journal: seq<Entry>, base: Snapshot, trouble: Trouble)
    requires AllDone(Replay(p, journal, base, trouble).steps)
    ensures AllDone(p.steps)
    decreases |journal|
  {
    hide Undo, AllDone;
    if journal != [] {
      var e := journal[|journal| - 1];
      var p' := UndoEntry(p, e, base, trouble);
      ReplayDone(p', journal[..|journal| - 1], base, trouble);
      if !e.done && e.inverse.Some? {
        UndoDone(p, e.inverse.value, base, trouble);
      }
    }
  }

  lemma {:induction false} RemoveContainersDone(p: Progress, names: seq<Name>, trouble: Trouble)
    requires AllDone(RemoveContainers(p, names, trouble).steps)
    ensures AllDone(p.steps)
    decreases |names|
  {
    hide Step, AllDone, DeleteContainer;
    if names != [] {
      var removed := if names[0] in p.d.containers then Some(DeleteContainer(p.d, names[0], true)) else None;
      RemoveContainersDone(Step(p, removed, trouble), names[1..], trouble);
      StepDone(p, removed, trouble);
    }
  }

  lemma {:induction false} RemoveVolumesDone(p: Progress, names: seq<Name>, dropped: set<Name>, trouble: Trouble)
    requires AllDone(RemoveVolumes(p, names, dropped, trouble).steps)
    ensures AllDone(p.steps)
    decreases |names|
  {
    hide Step, AllDone, DeleteVolume;
    if names != [] {
      if names[0] in dropped {
        RemoveVolumesDone(p, names[1..], dropped, trouble);
      } else {
        var removed := if names[0] in p.d.volumes then DeleteVolume(p.d, names[0]) else Some(p.d);
        RemoveVolumesDone(Step(p, removed, trouble), names[1..], dropped, trouble);
        StepDone(p, removed, trouble);
      }
    }
  }

  lemma {:induction false} RemoveNetworksDone(p: Progress, names: seq<Name>, trouble: Trouble)
    requires AllDone(RemoveNetworks(p, names, trouble).steps)
    ensures AllDone(p.steps)
    decreases |names|
  {
    hide Step, AllDone;
    if names != [] {
      var removed := if names[0] in p.d.networks then Some(p.d.(networks := p.d.networks - {names[0]})) else None;
      RemoveNetworksDone(Step(p, removed, trouble), names[1..], trouble);
      StepDone(p, removed, trouble);
    }
  }

  // --- removing what was added -----------------------------------------------------------------------------

  /** Containers from outside the baseline own no anonymous volume of the baseline. */
  ghost predicate OwnVolumesOnly(d: Daemon, base: Snapshot) {
    forall c :: c in d.containers && c !in base.containers ==> d.containers[c].anonymous !! base.volumes
  }

  /** The same daemon but for containers removed with volumes that are not the baseline's. */
  ghost predicate Trimmed(before: Daemon, after: Daemon, base: Snapshot) {
    && after.networks == before.networks && after.nextId == before.nextId
    && (forall v :: v in after.volumes ==> v in before.volumes && after.volumes[v] == before.volumes[v])
    && (forall v :: v in base.volumes && v in before.volumes ==> v in after.volumes)
    && (forall c :: c in after.containers ==> c in before.containers && after.containers[c] == before.containers[c])
  }

  lemma {:induction false} ContainersRemoved(p: Progress, names: seq<Name>, base: Snapshot, trouble: Trouble)
    requires OwnVolumesOnly(p.d, base)
    requires forall i :: 0 <= i < |names| ==> names[i] !in base.containers
    requires AllDone(RemoveContainers(p, names, trouble).steps)
    ensures var r := RemoveContainers(p, names, trouble);
            Trimmed(p.d, r.d, base) && r.d.containers.Keys == p.d.containers.Keys - set x | x in names
    decreases |names|
  {
    hide Step, AllDone;
    if names != [] {
      var c := names[0];
      var removed := if c in p.d.containers then Some(DeleteContainer(p.d, c, true)) else None;
      var p' := Step(p, removed, trouble);
      RemoveContainersDone(p', names[1..], trouble);
      StepDone(p, removed, trouble);
      DeletedContainer(p.d, c, base);
      ContainersRemoved(p', names[1..], base, trouble);
      assert (set x | x in names) == {c} + set x | x in names[1..];
    }
  }

  lemma DeletedContainer(d: Daemon, c: Name, base: Snapshot)
    requires c in d.containers && c !in base.containers && OwnVolumesOnly(d, base)
    ensures var d' := DeleteContainer(d, c, true);
            Trimmed(d, d', base) && d'.containers.Keys == d.containers.Keys - {c} && OwnVolumesOnly(d', base)
  {
  }

  lemma {:induction false} VolumesRemoved(p: Progress, names: seq<Name>, dropped: set<Name>, trouble: Trouble)
    requires AllDone(RemoveVolumes(p, names, dropped, trouble).steps)
    ensures var r := RemoveVolumes(p, names, dropped, trouble);
            && r.d.containers == p.d.containers && r.d.networks == p.d.networks
            && r.d.volumes == p.d.volumes - ((set x | x in names) - dropped)
    ensures forall x :: x in names && x !in dropped && x in p.d.volumes ==> !InUse(p.d, x)
    decreases |names|
  {
    hide Step, AllDone;
    if names != [] {
      var x := names[0];
      assert (set y | y in names) == {x} + set y | y in names[1..];
      if x in dropped {
        VolumesRemoved(p, names[1..], dropped, trouble);
      } else {
        var removed := if x in p.d.volumes then DeleteVolume(p.d, x) else Some(p.d);
        var p' := Step(p, removed, trouble);
        RemoveVolumesDone(p', names[1..], dropped, trouble);
        StepDone(p, removed, trouble);
        VolumesRemoved(p', names[1..], dropped, trouble);
        assert p'.d.volumes == p.d.volumes - {x};
        assert forall y :: InUse(p'.d, y) == InUse(p.d, y);
      }
    } else {
      assert p.d.volumes - ((set x | x in names) - dropped) == p.d.volumes;
    }
  }

  lemma {:induction false} NetworksRemoved(p: Progress, names: seq<Name>, trouble: Trouble)
    requires AllDone(RemoveNetworks(p, names, trouble).steps)
    ensures var r := RemoveNetworks(p, names, trouble);
            && r.d.containers == p.d.containers && r.d.volumes == p.d.volumes
            && r.d.networks == p.d.networks - set x | x in names
    decreases |names|
  {
    hide Step, AllDone;
    if names != [] {
      var n := names[0];
      var removed := if n in p.d.networks then Some(p.d.(networks := p.d.networks - {n})) else None;
      var p' := Step(p, removed, trouble);
      RemoveNetworksDone(p', names[1..], trouble);
      StepDone(p, removed, trouble);
      NetworksRemoved(p', names[1..], trouble);
      assert (set y | y in names) == {n} + set y | y in names[1..];
    } else {
      assert p.d.networks - (set x | x in names) == p.d.networks;
    }
  }

  // --- what one replayed record does -------------------------------------------------------------------------

  predicate Recreates(e: Entry, c: Name) {
    e.inverse.Some? && e.inverse.value.RecreateContainer? && e.inverse.value.c == c
  }

  predicate RecreatesNetwork(e: Entry, n: Name) {
    e.inverse.Some? && e.inverse.value.RecreateNetwork? && e.inverse.value.n == n
  }

  predicate PutsBack(e: Entry, v: Name) {
    e.inverse.Some? && e.inverse.value.PutBackVolume? && e.inverse.value.v == v
  }

  predicate Drops(e: Entry, v: Name) {
    e.inverse.Some? && e.inverse.value.DropVolume? && e.inverse.value.v == v
  }

  /** The named volumes that a recreated container brings with it. */
  function Brought(inverse: Inverse): set<Name>
    requires inverse.RecreateContainer?
  {
    inverse.volumes.Keys + inverse.container.spec.binds
  }

  /** A recreated container brings volumes of the baseline only (an anonymous one would be new). */
  predicate BringsOnly(inverse: Inverse, volumes: set<Name>)
    requires inverse.RecreateContainer?
  {
    Brought(inverse) <= volumes && (inverse.volumes == map[] ==> inverse.container.spec.bare == 0)
  }

  /** An entry that is replayed and recreates a container. */
  predicate Applies(e: Entry, present: set<Name>, base: Snapshot) {
    && e.inverse.Some? && e.inverse.value.RecreateContainer?
    && e.inverse.value.c in base.containers && e.inverse.value.c !in present
  }

  lemma UndoneContainers(p: Progress, e: Entry, base: Snapshot, trouble: Trouble)
    requires !e.done && AllDone(UndoEntry(p, e, base, trouble).steps)
    ensures var d := UndoEntry(p, e, base, trouble).d;
            d.containers.Keys == p.d.containers.Keys + set c | c in base.containers && Recreates(e, c)
    ensures var d := UndoEntry(p, e, base, trouble).d;
            forall c :: c in p.d.containers ==> d.containers[c].Mounts() == p.d.containers[c].Mounts()
    ensures UndoEntry(p, e, base, trouble).d.nextId >= p.d.nextId
  {
    hide AllDone, Step;
    UndoCases(p, e, base, trouble);
  }

  lemma UndoneNetworks(p: Progress, e: Entry, base: Snapshot, trouble: Trouble)
    requires !e.done && AllDone(UndoEntry(p, e, base, trouble).steps)
    ensures UndoEntry(p, e, base, trouble).d.networks.Keys ==
              p.d.networks.Keys + set n | n in base.networks && RecreatesNetwork(e, n)
  {
    hide AllDone, Step;
    UndoCases(p, e, base, trouble);
  }

  /** The daemon after a done step, spelled out per kind of record. */
  lemma UndoCases(p: Progress, e: Entry, base: Snapshot, trouble: Trouble)
    requires !e.done && AllDone(UndoEntry(p, e, base, trouble).steps)
    ensures AllDone(p.steps)
    ensures var d, d' := p.d, UndoEntry(p, e, base, trouble).d;
            match e.inverse
            case None => d' == d
            case Some(RecreateContainer(c, was, volumes)) =>
              d' == if c in base.containers then Recreated(d, c, was, volumes) else d
            case Some(RecreateNetwork(n, network)) =>
              d' == if n !in base.networks || n in d.networks then d else d.(networks := d.networks[n := network])
            case Some(PutBackVolume(v, backup)) => d' == if v in base.volumes then PutBack(d, v, backup) else d
            case Some(DropVolume(v)) => DeleteVolume(d, v) == Some(d')
            case Some(SetRunning(c, running)) =>
              (c in base.containers ==> c in d.containers) &&
              d' == if c in base.containers
                    then d.(containers := d.containers[c := d.containers[c].(running := running)]) else d
            case Some(CaptureFailed) => d' == d
  {
    hide AllDone, Step, Recreated, PutBack, DeleteVolume;
    if e.inverse.Some? {
      match e.inverse.value
      case RecreateContainer(c, was, volumes) => StepDone(p, Some(Recreated(p.d, c, was, volumes)), trouble);
      case RecreateNetwork(n, network) =>
        StepDone(p, Some(if n in p.d.networks then p.d else p.d.(networks := p.d.networks[n := network])), trouble);
      case PutBackVolume(v, backup) => StepDone(p, Some(PutBack(p.d, v, backup)), trouble);
      case DropVolume(v) => StepDone(p, DeleteVolume(p.d, v), trouble);
      case SetRunning(c, running) =>
        StepDone(p, if c in p.d.containers
                    then Some(p.d.(containers := p.d.containers[c := p.d.containers[c].(running := running)]))
                    else None, trouble);
      case CaptureFailed =>
    }
  }

  // --- the whole journal replayed ----------------------------------------------------------------------------

  ghost predicate Pending(journal: seq<Entry>) {
    forall i :: 0 <= i < |journal| ==> !journal[i].done
  }

  /** Names the baseline uses were all given out before the session. */
  ghost predicate Known(names: set<Name>, d: Daemon) {
    forall v :: v in names ==> v < d.nextId
  }

  ghost predicate SomeRecreates(journal: seq<Entry>, c: Name) {
    exists i :: 0 <= i < |journal| && Recreates(journal[i], c)
  }

  ghost predicate SomeRecreatesNetwork(journal: seq<Entry>, n: Name) {
    exists i :: 0 <= i < |journal| && RecreatesNetwork(journal[i], n)
  }

  lemma LastOrBefore(journal: seq<Entry>)
    requires journal != []
    ensures forall c :: SomeRecreates(journal, c) <==>
              Recreates(journal[|journal| - 1], c) || SomeRecreates(journal[..|journal| - 1], c)
    ensures forall n :: SomeRecreatesNetwork(journal, n) <==>
              RecreatesNetwork(journal[|journal| - 1], n) || SomeRecreatesNetwork(journal[..|journal| - 1], n)
  {
    hide Recreates, RecreatesNetwork;
    var older := journal[..|journal| - 1];
    assert forall i :: 0 <= i < |older| ==> older[i] == journal[i];
    forall c | SomeRecreates(journal, c)
      ensures Recreates(journal[|journal| - 1], c) || SomeRecreates(older, c)
    {
      var i :| 0 <= i < |journal| && Recreates(journal[i], c);
      assert i < |older| ==> Recreates(older[i], c);
    }
    forall c | SomeRecreates(older, c) ensures SomeRecreates(journal, c) {
      var i :| 0 <= i < |older| && Recreates(older[i], c);
      assert Recreates(journal[i], c);
    }
    forall n | SomeRecreatesNetwork(journal, n)
      ensures RecreatesNetwork(journal[|journal| - 1], n) || SomeRecreatesNetwork(older, n)
    {
      var i :| 0 <= i < |journal| && RecreatesNetwork(journal[i], n);
      assert i < |older| ==> RecreatesNetwork(older[i], n);
    }
    forall n | SomeRecreatesNetwork(older, n) ensures SomeRecreatesNetwork(journal, n) {
      var i :| 0 <= i < |older| && RecreatesNetwork(older[i], n);
      assert RecreatesNetwork(journal[i], n);
    }
  }

  lemma {:induction false} ReplayedObjects(p: Progress, journal: seq<Entry>, base: Snapshot, trouble: Trouble)
    requires Pending(journal) && AllDone(Replay(p, journal, base, trouble).steps)
    ensures var d := Replay(p, journal, base, trouble).d;
            && (forall c :: c in d.containers <==>
                  c in p.d.containers || (c in base.containers && SomeRecreates(journal, c)))
            && (forall n :: n in d.networks <==>
                  n in p.d.networks || (n in base.networks && SomeRecreatesNetwork(journal, n)))
            && (forall c :: c in p.d.containers ==>
                c in d.containers && d.containers[c].Mounts() == p.d.containers[c].Mounts())
    decreases |journal|
  {
    hide AllDone, Undo, SomeRecreates, SomeRecreatesNetwork, Recreates, RecreatesNetwork;
    if journal != [] {
      var e, older := journal[|journal| - 1], journal[..|journal| - 1];
      var p' := UndoEntry(p, e, base, trouble);
      ReplayDone(p', older, base, trouble);
      UndoneContainers(p, e, base, trouble);
      UndoneNetworks(p, e, base, trouble);
      ReplayedObjects(p', older, base, trouble);
      LastOrBefore(journal);
    } else {
      NothingRecreates();
    }
  }

  lemma NothingRecreates()
    ensures forall c :: !SomeRecreates([], c) && !SomeRecreatesNetwork([], c)
  {
  }

  // --- volumes of the baseline -------------------------------------------------------------------------------

  /** Entry `j` decides whether `v` is there: it puts it back, drops it, or recreates a container that was missing
      (`present` are those that were not) and that no newer entry has recreated yet. */
  ghost predicate Touches(journal: seq<Entry>, j: nat, v: Name, present: set<Name>, base: Snapshot)
    requires j < |journal|
  {
    || PutsBack(journal[j], v)
    || Drops(journal[j], v)
    || (&& Applies(journal[j], present, base)
        && !SomeRecreates(journal[j + 1..], journal[j].inverse.value.c)
        && v in Brought(journal[j].inverse.value))
  }

  /** The oldest entry that decides about `v` drops it. */
  ghost predicate OldestDrops(journal: seq<Entry>, v: Name, present: set<Name>, base: Snapshot) {
    exists j :: 0 <= j < |journal| && Touches(journal, j, v, present, base) && Drops(journal[j], v) &&
                forall k :: 0 <= k < j ==> !Touches(journal, k, v, present, base)
  }

  ghost predicate Untouched(journal: seq<Entry>, v: Name, present: set<Name>, base: Snapshot) {
    forall j :: 0 <= j < |journal| ==> !Touches(journal, j, v, present, base)
  }

  lemma UndoneVolume(p: Progress, e: Entry, v: Name, base: Snapshot, trouble: Trouble)
    requires !e.done && AllDone(UndoEntry(p, e, base, trouble).steps)
    requires v in base.volumes && v < p.d.nextId
    ensures v in UndoEntry(p, e, base, trouble).d.volumes <==>
              PutsBack(e, v) ||
              (Applies(e, p.d.containers.Keys, base) && v in Brought(e.inverse.value)) ||
              (!Drops(e, v) && v in p.d.volumes)
  {
    hide AllDone, Step, UndoEntry;
    UndoCases(p, e, base, trouble);
  }

  /** After the newest entry, the older ones decide as before. */
  lemma TouchesOlder(journal: seq<Entry>, v: Name, present: set<Name>, base: Snapshot)
    requires journal != []
    ensures var e, older := journal[|journal| - 1], journal[..|journal| - 1];
            var present' := present + set c | c in base.containers && Recreates(e, c);
            && (forall j :: 0 <= j < |older| ==>
                Touches(journal, j, v, present, base) == Touches(older, j, v, present', base))
            && Touches(journal, |older|, v, present, base) ==
                 (PutsBack(e, v) || Drops(e, v) || (Applies(e, present, base) && v in Brought(e.inverse.value)))
  {
    var e, older := journal[|journal| - 1], journal[..|journal| - 1];
    var present' := present + set c | c in base.containers && Recreates(e, c);
    forall j | 0 <= j < |older|
      ensures Touches(journal, j, v, present, base) == Touches(older, j, v, present', base)
    {
      assert older[j] == journal[j];
      if Applies(journal[j], present, base) {
        var c := journal[j].inverse.value.c;
        var newer := journal[j + 1..];
        assert newer[..|newer| - 1] == older[j + 1..] && newer[|newer| - 1] == e;
        LastOrBefore(newer);
      }
    }
    assert journal[|older| + 1..] == [];
    NothingRecreates();
  }

  lemma {:induction false} ReplayedVolume(p: Progress, journal: seq<Entry>, v: Name, base: Snapshot, trouble: Trouble)
    requires Pending(journal) && AllDone(Replay(p, journal, base, trouble).steps)
    requires v in base.volumes && v < p.d.nextId
    ensures v in Replay(p, journal, base, trouble).d.volumes <==>
              if Untouched(journal, v, p.d.containers.Keys, base) then v in p.d.volumes
              else !OldestDrops(journal, v, p.d.containers.Keys, base)
    decreases |journal|
  {
    hide AllDone, Undo, Touches, Recreates, PutsBack, Drops, Applies, Brought;
    if journal != [] {
      var e, older := journal[|journal| - 1], journal[..|journal| - 1];
      var p' := UndoEntry(p, e, base, trouble);
      ReplayDone(p', older, base, trouble);
      UndoneContainers(p, e, base, trouble);
      UndoneVolume(p, e, v, base, trouble);
      ReplayedVolume(p', older, v, base, trouble);
      TouchesOlder(journal, v, p.d.containers.Keys, base);
      OldestOfMore(journal, v, p.d.containers.Keys, p'.d.containers.Keys, base);
      DropsOnly(e, v, p.d.containers.Keys, base);
    }
  }

  lemma DropsOnly(e: Entry, v: Name, present: set<Name>, base: Snapshot)
    ensures Drops(e, v) ==> !PutsBack(e, v) && !Applies(e, present, base)
  {
  }

  lemma OldestOfMore(journal: seq<Entry>, v: Name, present: set<Name>, present': set<Name>, base: Snapshot)
    requires journal != []
    requires var older := journal[..|journal| - 1];
             forall j :: 0 <= j < |older| ==>
               Touches(journal, j, v, present, base) == Touches(older, j, v, present', base)
    ensures var older := journal[..|journal| - 1];
            if Untouched(older, v, present', base)
            then Untouched(journal, v, present, base) == !Touches(journal, |older|, v, present, base) &&
                 OldestDrops(journal, v, present, base) ==
                   (Touches(journal, |older|, v, present, base) && Drops(journal[|older|], v))
            else !Untouched(journal, v, present, base) &&
                 OldestDrops(journal, v, present, base) == OldestDrops(older, v, present', base)
  {
    hide Touches, Drops;
    var older := journal[..|journal| - 1];
    assert forall j :: 0 <= j < |older| ==> older[j] == journal[j];
    if !Untouched(older, v, present', base) {
      var j :| 0 <= j < |older| && Touches(older, j, v, present', base);
      assert Touches(journal, j, v, present, base);
      if OldestDrops(journal, v, present, base) {
        var k :| 0 <= k < |journal| && Touches(journal, k, v, present, base) && Drops(journal[k], v) &&
                 forall l :: 0 <= l < k ==> !Touches(journal, l, v, present, base);
        assert k <= j;
        assert Drops(older[k], v) && Touches(older, k, v, present', base);
      }
      if OldestDrops(older, v, present', base) {
        var k :| 0 <= k < |older| && Touches(older, k, v, present', base) && Drops(older[k], v) &&
                 forall l :: 0 <= l < k ==> !Touches(older, l, v, present', base);
        assert Touches(journal, k, v, present, base) && Drops(journal[k], v);
      }
    } else {
      if Touches(journal, |older|, v, present, base) && Drops(journal[|older|], v) {
        assert OldestDrops(journal, v, present, base);
      }
    }
  }

  // --- volumes from outside the baseline ---------------------------------------------------------------------

  /** Entry `j` is the newest record of a container that is missing: the one its recreation uses. */
  ghost predicate IsNewestOfMissing(journal: seq<Entry>, j: nat, present: set<Name>, base: Snapshot)
    requires j < |journal|
  {
    Applies(journal[j], present, base) && !SomeRecreates(journal[j + 1..], journal[j].inverse.value.c)
  }

  /** Every container that the rollback recreates brings baseline volumes only. */
  ghost predicate RecreationsBringBaseline(journal: seq<Entry>, present: set<Name>, base: Snapshot) {
    forall j :: 0 <= j < |journal| && IsNewestOfMissing(journal, j, present, base) ==>
      BringsOnly(journal[j].inverse.value, base.volumes)
  }

  lemma UndoneExtra(p: Progress, e: Entry, w: Name, base: Snapshot, trouble: Trouble)
    requires !e.done && AllDone(UndoEntry(p, e, base, trouble).steps)
    requires w !in base.volumes
    requires Applies(e, p.d.containers.Keys, base) ==> BringsOnly(e.inverse.value, base.volumes)
    ensures w in UndoEntry(p, e, base, trouble).d.volumes ==> w in p.d.volumes && !Drops(e, w)
  {
    hide AllDone, Step, UndoEntry;
    UndoCases(p, e, base, trouble);
  }

  lemma NewestOlder(journal: seq<Entry>, present: set<Name>, base: Snapshot)
    requires journal != []
    ensures var e, older := journal[|journal| - 1], journal[..|journal| - 1];
            var present' := present + set c | c in base.containers && Recreates(e, c);
            && (forall j :: 0 <= j < |older| ==>
                  IsNewestOfMissing(journal, j, present, base) == IsNewestOfMissing(older, j, present', base))
            && IsNewestOfMissing(journal, |older|, present, base) == Applies(e, present, base)
  {
    var e, older := journal[|journal| - 1], journal[..|journal| - 1];
    var present' := present + set c | c in base.containers && Recreates(e, c);
    forall j | 0 <= j < |older|
      ensures IsNewestOfMissing(journal, j, present, base) == IsNewestOfMissing(older, j, present', base)
    {
      assert older[j] == journal[j];
      if Applies(journal[j], present, base) {
        var newer := journal[j + 1..];
        assert newer[..|newer| - 1] == older[j + 1..] && newer[|newer| - 1] == e;
        LastOrBefore(newer);
      }
    }
    assert journal[|older| + 1..] == [];
    NothingRecreates();
  }

  lemma BringBaselineOlder(journal: seq<Entry>, present: set<Name>, base: Snapshot)
    requires journal != []
    ensures var e, older := journal[|journal| - 1], journal[..|journal| - 1];
            var present' := present + set c | c in base.containers && Recreates(e, c);
            RecreationsBringBaseline(journal, present, base) <==>
              RecreationsBringBaseline(older, present', base) &&
              (Applies(e, present, base) ==> BringsOnly(e.inverse.value, base.volumes))
  {
    hide IsNewestOfMissing, Applies, BringsOnly;
    var older := journal[..|journal| - 1];
    NewestOlder(journal, present, base);
    assert forall j :: 0 <= j < |older| ==> older[j] == journal[j];
  }

  lemma {:induction false} ReplayedExtra(p: Progress, journal: seq<Entry>, w: Name, base: Snapshot, trouble: Trouble)
    requires Pending(journal) && AllDone(Replay(p, journal, base, trouble).steps)
    requires w !in base.volumes && RecreationsBringBaseline(journal, p.d.containers.Keys, base)
    ensures w in Replay(p, journal, base, trouble).d.volumes ==> w in p.d.volumes && w !in Dropped(journal)
    decreases |journal|
  {
    hide AllDone, Undo, RecreationsBringBaseline, Applies, BringsOnly, Recreates;
    if journal != [] {
      var e, older := journal[|journal| - 1], journal[..|journal| - 1];
      var p' := UndoEntry(p, e, base, trouble);
      ReplayDone(p', older, base, trouble);
      BringBaselineOlder(journal, p.d.containers.Keys, base);
      UndoneContainers(p, e, base, trouble);
      UndoneExtra(p, e, w, base, trouble);
      ReplayedExtra(p', older, w, base, trouble);
      DroppedOlder(journal);
    }
  }

  lemma DroppedOlder(journal: seq<Entry>)
    requires journal != []
    ensures forall w :: w in Dropped(journal) ==>
        w in Dropped(journal[..|journal| - 1]) || Drops(journal[|journal| - 1], w)
  {
    var older := journal[..|journal| - 1];
    assert journal == older + [journal[|journal| - 1]];
  }

  /** A volume from outside the baseline that a recreated container mounts. */
  ghost predicate MountsExtra(d: Daemon, base: Snapshot) {
    exists c, w :: c in d.containers && w in d.containers[c].Mounts() && w in d.volumes && w !in base.volumes
  }

  lemma UndoneMounted(p: Progress, e: Entry, base: Snapshot, trouble: Trouble)
    requires !e.done && AllDone(UndoEntry(p, e, base, trouble).steps)
    ensures MountsExtra(p.d, base) ==> MountsExtra(UndoEntry(p, e, base, trouble).d, base)
  {
    if MountsExtra(p.d, base) {
      var c, w :| c in p.d.containers && w in p.d.containers[c].Mounts() && w in p.d.volumes && w !in base.volumes;
      MountedStays(p, e, c, w, base, trouble);
    }
  }

  lemma MountedStays(p: Progress, e: Entry, c: Name, w: Name, base: Snapshot, trouble: Trouble)
    requires !e.done && AllDone(UndoEntry(p, e, base, trouble).steps)
    requires c in p.d.containers && w in p.d.containers[c].Mounts() && w in p.d.volumes
    ensures var d := UndoEntry(p, e, base, trouble).d;
            c in d.containers && w in d.containers[c].Mounts() && w in d.volumes
  {
    hide AllDone, Step, UndoEntry;
    UndoCases(p, e, base, trouble);
    assert InUse(p.d, w);
  }

  lemma UndoneBrings(p: Progress, e: Entry, base: Snapshot, trouble: Trouble)
    requires !e.done && AllDone(UndoEntry(p, e, base, trouble).steps)
    requires Known(base.volumes, p.d)
    ensures Applies(e, p.d.containers.Keys, base) && !BringsOnly(e.inverse.value, base.volumes) ==>
              MountsExtra(UndoEntry(p, e, base, trouble).d, base)
  {
    hide AllDone, Step, UndoEntry;
    UndoCases(p, e, base, trouble);
    var d := UndoEntry(p, e, base, trouble).d;
    if Applies(e, p.d.containers.Keys, base) && !BringsOnly(e.inverse.value, base.volumes) {
      var inverse := e.inverse.value;
      if Brought(inverse) <= base.volumes {
        var w := p.d.nextId;
        assert w in d.containers[inverse.c].Mounts() && w in d.volumes && w !in base.volumes;
      } else {
        var w :| w in Brought(inverse) && w !in base.volumes;
        assert w in d.containers[inverse.c].Mounts() && w in d.volumes;
      }
    }
  }

  lemma {:induction false} ReplayedBrings(p: Progress, journal: seq<Entry>, base: Snapshot, trouble: Trouble)
    requires Pending(journal) && AllDone(Replay(p, journal, base, trouble).steps)
    requires Known(base.volumes, p.d)
    requires MountsExtra(p.d, base) || !RecreationsBringBaseline(journal, p.d.containers.Keys, base)
    ensures MountsExtra(Replay(p, journal, base, trouble).d, base)
    decreases |journal|
  {
    hide AllDone, Undo, RecreationsBringBaseline, Applies, BringsOnly, Recreates, MountsExtra;
    if journal != [] {
      var e, older := journal[|journal| - 1], journal[..|journal| - 1];
      var p' := UndoEntry(p, e, base, trouble);
      ReplayDone(p', older, base, trouble);
      BringBaselineOlder(journal, p.d.containers.Keys, base);
      UndoneContainers(p, e, base, trouble);
      UndoneMounted(p, e, base, trouble);
      UndoneBrings(p, e, base, trouble);
      ReplayedBrings(p', older, base, trouble);
    } else {
      NoRecreations(p.d.containers.Keys, base);
    }
  }

  lemma NoRecreations(present: set<Name>, base: Snapshot)
    ensures RecreationsBringBaseline([], present, base)
  {
  }

  // --- every history -----------------------------------------------------------------------------------------

  /** What every history since the baseline keeps: a baseline object that is gone has its record. */
  ghost predicate Recorded(w: World, base: Snapshot) {
    && (forall c :: c in base.containers && c !in w.d.containers ==> SomeRecreates(w.journal, c))
    && (forall n :: n in base.networks && n !in w.d.networks ==> SomeRecreatesNetwork(w.journal, n))
    && OwnVolumesOnly(w.d, base) && Known(base.volumes, w.d) && Pending(w.journal)
  }

  lemma MoreRecreates(journal: seq<Entry>, e: Entry)
    ensures forall c :: SomeRecreates(journal, c) || Recreates(e, c) <==> SomeRecreates(journal + [e], c)
    ensures forall n :: SomeRecreatesNetwork(journal, n) || RecreatesNetwork(e, n) <==>
        SomeRecreatesNetwork(journal + [e], n)
  {
    hide Recreates, RecreatesNetwork, SomeRecreates, SomeRecreatesNetwork;
    assert (journal + [e])[..|journal|] == journal;
    LastOrBefore(journal + [e]);
  }

  lemma HappenKeeps(w: World, e: Event, base: Snapshot)
    requires Recorded(w, base)
    ensures Recorded(Happen(w, e), base)
  {
    hide SomeRecreates, SomeRecreatesNetwork;
    if e.Change? {
      MoreRecreates(w.journal, Entry(Capture(w.d, e.op), false));
      ApplyKeeps(w.d, e.op, base);
    }
  }

  lemma ApplyKeeps(d: Daemon, op: Op, base: Snapshot)
    requires OwnVolumesOnly(d, base) && Known(base.volumes, d)
    ensures OwnVolumesOnly(Apply(d, op), base) && Known(base.volumes, Apply(d, op))
    ensures forall c :: c in d.containers && c !in Apply(d, op).containers ==>
        Recreates(Entry(Capture(d, op), false), c)
    ensures forall n :: n in d.networks && n !in Apply(d, op).networks ==>
        RecreatesNetwork(Entry(Capture(d, op), false), n)
  {
  }

  lemma {:induction false} AfterKeeps(w: World, events: seq<Event>, base: Snapshot)
    requires Recorded(w, base)
    ensures Recorded(After(w, events), base)
    decreases |events|
  {
    hide Recorded, Happen;
    if events != [] {
      HappenKeeps(w, events[0], base);
      AfterKeeps(Happen(w, events[0]), events[1..], base);
    }
  }

  // --- the main results --------------------------------------------------------------------------------------

  /** What to read off the journal and the daemon before a rollback: every container it will recreate brings
      baseline volumes only, and for every baseline volume the oldest deciding record does not drop it (with no
      such record, it is there). */
  ghost predicate VolumesRestorable(d: Daemon, journal: seq<Entry>, base: Snapshot) {
    && RecreationsBringBaseline(journal, d.containers.Keys, base)
    && forall v :: v in base.volumes ==>
         if Untouched(journal, v, d.containers.Keys, base) then v in d.volumes
         else !OldestDrops(journal, v, d.containers.Keys, base)
  }

  /** Which baseline containers are missing is the same before and after the added ones are removed. */
  lemma PresenceTrimmed(journal: seq<Entry>, present: set<Name>, present': set<Name>, base: Snapshot)
    requires forall c :: c in base.containers ==> (c in present <==> c in present')
    ensures forall v, j :: 0 <= j < |journal| ==>
        Touches(journal, j, v, present, base) == Touches(journal, j, v, present', base)
    ensures forall v :: Untouched(journal, v, present, base) == Untouched(journal, v, present', base)
    ensures forall v :: OldestDrops(journal, v, present, base) == OldestDrops(journal, v, present', base)
    ensures RecreationsBringBaseline(journal, present, base) == RecreationsBringBaseline(journal, present', base)
  {
    assert forall e :: Applies(e, present, base) == Applies(e, present', base);
    assert forall v, j :: 0 <= j < |journal| ==>
        Touches(journal, j, v, present, base) == Touches(journal, j, v, present', base);
    forall v ensures OldestDrops(journal, v, present, base) == OldestDrops(journal, v, present', base) {
      OldestDropsSame(journal, v, present, present', base);
      OldestDropsSame(journal, v, present', present, base);
    }
    assert forall j :: 0 <= j < |journal| ==>
        IsNewestOfMissing(journal, j, present, base) == IsNewestOfMissing(journal, j, present', base);
  }

  lemma OldestDropsSame(journal: seq<Entry>, v: Name, present: set<Name>, present': set<Name>, base: Snapshot)
    requires forall j :: 0 <= j < |journal| ==>
        Touches(journal, j, v, present, base) == Touches(journal, j, v, present', base)
    ensures OldestDrops(journal, v, present, base) ==> OldestDrops(journal, v, present', base)
  {
    hide Touches, Drops;
    if OldestDrops(journal, v, present, base) {
      var j :| 0 <= j < |journal| && Touches(journal, j, v, present, base) && Drops(journal[j], v) &&
               forall k :: 0 <= k < j ==> !Touches(journal, k, v, present, base);
      assert Touches(journal, j, v, present', base);
    }
  }

  /** What a rollback with all steps done leaves, phase by phase. */
  lemma RollbackPhases(d: Daemon, journal: seq<Entry>, base: Snapshot, trouble: Trouble)
    returns (d1: Daemon, p1: Progress, p2: Progress)
    requires OwnVolumesOnly(d, base) && Pending(journal)
    requires AllDone(Rollback(d, journal, base, trouble).steps)
    ensures d1 == p1.d && Trimmed(d, d1, base) && d1.containers.Keys == d.containers.Keys * base.containers
    ensures p2 == Replay(p1, journal, base, trouble) && AllDone(p2.steps)
    ensures var r := Rollback(d, journal, base, trouble).d;
            && r.containers == p2.d.containers
            && r.volumes == p2.d.volumes - ((d.volumes.Keys - base.volumes) - Dropped(journal))
            && r.networks == p2.d.networks - (d.networks.Keys - base.networks)
    ensures forall x :: x in d.volumes && x !in base.volumes && x !in Dropped(journal) && x in p2.d.volumes ==>
              !InUse(p2.d, x)
  {
    hide AllDone, Replay, RemoveContainers, RemoveVolumes, RemoveNetworks, OwnVolumesOnly, Trimmed, Dropped, InUse,
         Pending;
    var added := Sorted(d.containers.Keys - base.containers);
    p1 := RemoveContainers(Progress(d, []), added, trouble);
    d1 := p1.d;
    p2 := Replay(p1, journal, base, trouble);
    assert Rollback(d, journal, base, trouble) == ExtrasRemoved(d, p2, base, Dropped(journal), trouble);
    LastPhases(d, p2, base, Dropped(journal), trouble);
    ReplayDone(p1, journal, base, trouble);
    assert forall i :: 0 <= i < |added| ==> added[i] in added;
    ContainersRemoved(Progress(d, []), added, base, trouble);
    assert (set x | x in added) == d.containers.Keys - base.containers;
  }

  /** The last two phases: added volumes and networks go. */
  function ExtrasRemoved(d: Daemon, p: Progress, base: Snapshot, dropped: set<Name>, trouble: Trouble): Progress {
    var p3 := RemoveVolumes(p, Sorted(d.volumes.Keys - base.volumes), dropped, trouble);
    RemoveNetworks(p3, Sorted(d.networks.Keys - base.networks), trouble)
  }

  lemma LastPhases(d: Daemon, p: Progress, base: Snapshot, dropped: set<Name>, trouble: Trouble)
    requires AllDone(ExtrasRemoved(d, p, base, dropped, trouble).steps)
    ensures AllDone(p.steps)
    ensures var r := ExtrasRemoved(d, p, base, dropped, trouble).d;
            && r.containers == p.d.containers
            && r.volumes == p.d.volumes - ((d.volumes.Keys - base.volumes) - dropped)
            && r.networks == p.d.networks - (d.networks.Keys - base.networks)
    ensures forall x :: x in d.volumes && x !in base.volumes && x !in dropped && x in p.d.volumes ==> !InUse(p.d, x)
  {
    hide AllDone, RemoveVolumes, RemoveNetworks, InUse;
    var volumes := Sorted(d.volumes.Keys - base.volumes);
    var networks := Sorted(d.networks.Keys - base.networks);
    var p3 := RemoveVolumes(p, volumes, dropped, trouble);
    RemoveNetworksDone(p3, networks, trouble);
    NetworksRemoved(p3, networks, trouble);
    RemoveVolumesDone(p, volumes, dropped, trouble);
    VolumesRemoved(p, volumes, dropped, trouble);
    assert (set x | x in volumes) == d.volumes.Keys - base.volumes;
    assert (set x | x in networks) == d.networks.Keys - base.networks;
  }

  ghost predicate WellFormed(d: Daemon) {
    forall v :: v in d.volumes ==> v < d.nextId
  }

  /** The world when the rollback starts. */
  function WorldAfter(d0: Daemon, events: seq<Event>): World {
    After(World(d0, []), events)
  }

  /**
   For every history since `session begin`, a rollback whose steps are all done leaves exactly the baseline's
   containers and networks; and exactly the baseline's volumes if and only if `VolumesRestorable`.
   */
  lemma RollbackRestoresNames(d0: Daemon, events: seq<Event>, trouble: Trouble)
    requires WellFormed(d0)
    requires var w := WorldAfter(d0, events); AllDone(Rollback(w.d, w.journal, Take(d0), trouble).steps)
    ensures var w := WorldAfter(d0, events);
            var r := Rollback(w.d, w.journal, Take(d0), trouble).d;
            && r.containers.Keys == d0.containers.Keys
            && r.networks.Keys == d0.networks.Keys
            && (r.volumes.Keys == d0.volumes.Keys <==> VolumesRestorable(w.d, w.journal, Take(d0)))
  {
    hide AllDone, Rollback, SomeRecreates, SomeRecreatesNetwork, WorldAfter;
    var w, base := WorldAfter(d0, events), Take(d0);
    SessionRecorded(d0, events);
    RecordedRestores(w, base, trouble);
    assert base.containers == d0.containers.Keys && base.networks == d0.networks.Keys &&
        base.volumes == d0.volumes.Keys;
  }

  lemma SessionRecorded(d0: Daemon, events: seq<Event>)
    requires WellFormed(d0)
    ensures Recorded(WorldAfter(d0, events), Take(d0))
  {
    AfterKeeps(World(d0, []), events, Take(d0));
  }

  lemma RecordedRestores(w: World, base: Snapshot, trouble: Trouble)
    requires Recorded(w, base) && AllDone(Rollback(w.d, w.journal, base, trouble).steps)
    ensures var r := Rollback(w.d, w.journal, base, trouble).d;
            && r.containers.Keys == base.containers
            && r.networks.Keys == base.networks
            && (r.volumes.Keys == base.volumes <==> VolumesRestorable(w.d, w.journal, base))
  {
    hide AllDone, Rollback, Replay, SomeRecreates, SomeRecreatesNetwork, Untouched, OldestDrops,
         RecreationsBringBaseline,
         Dropped, OwnVolumesOnly, Pending, VolumesRestorable, InUse;
    var d1, p1, p2 := RollbackPhases(w.d, w.journal, base, trouble);
    ReplayedObjects(p1, w.journal, base, trouble);
    var r := Rollback(w.d, w.journal, base, trouble).d;
    assert r.containers.Keys == base.containers;
    assert r.networks.Keys == base.networks;
    VolumesBack(w, base, d1, p1, p2, trouble);
  }

  lemma VolumesBack(w: World, base: Snapshot, d1: Daemon, p1: Progress, p2: Progress, trouble: Trouble)
    requires Recorded(w, base)
    requires d1 == p1.d && Trimmed(w.d, d1, base) && d1.containers.Keys == w.d.containers.Keys * base.containers
    requires p2 == Replay(p1, w.journal, base, trouble) && AllDone(p2.steps)
    requires forall x :: x in w.d.volumes && x !in base.volumes && x !in Dropped(w.journal) && x in p2.d.volumes ==>
        !InUse(p2.d, x)
    ensures (p2.d.volumes - ((w.d.volumes.Keys - base.volumes) - Dropped(w.journal))).Keys == base.volumes <==>
              VolumesRestorable(w.d, w.journal, base)
  {
    hide AllDone, Replay, SomeRecreates, SomeRecreatesNetwork, Untouched, OldestDrops, RecreationsBringBaseline,
         Dropped, InUse,
         MountsExtra;
    var final := p2.d.volumes - ((w.d.volumes.Keys - base.volumes) - Dropped(w.journal));
    PresenceTrimmed(w.journal, w.d.containers.Keys, d1.containers.Keys, base);
    forall v | v in base.volumes
      ensures v in final <==> if Untouched(w.journal, v, w.d.containers.Keys, base) then v in w.d.volumes
                              else !OldestDrops(w.journal, v, w.d.containers.Keys, base)
    {
      ReplayedVolume(p1, w.journal, v, base, trouble);
    }
    if RecreationsBringBaseline(w.journal, w.d.containers.Keys, base) {
      forall x | x in final ensures x in base.volumes {
        if x !in base.volumes {
          ReplayedExtra(p1, w.journal, x, base, trouble);
        }
      }
    } else {
      ReplayedBrings(p1, w.journal, base, trouble);
      MountedIsInUse(p2.d, base);
      var x :| x in p2.d.volumes && x !in base.volumes && InUse(p2.d, x);
      assert x in final;
    }
  }

  lemma MountedIsInUse(d: Daemon, base: Snapshot)
    requires MountsExtra(d, base)
    ensures exists x :: x in d.volumes && x !in base.volumes && InUse(d, x)
  {
    var c, w :| c in d.containers && w in d.containers[c].Mounts() && w in d.volumes && w !in base.volumes;
    assert InUse(d, w);
  }
}
