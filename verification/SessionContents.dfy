/**
 What a rollback brings back inside the objects: volume contents (the oldest record wins), containers that were
 only started and stopped, recreated containers (the newest record wins); and what a second rollback does.
 */
module SessionContents {
  import opened Wrappers
  import opened Session
  import opened SessionNames

  // --- volume contents ---------------------------------------------------------------------------------------

  /** A captured `volumes rm` or `volumes restore` of `v`. */
  predicate CapturesVolume(e: Event, v: Name) {
    e.Change? && (e.op.RemoveVolume? || e.op.RestoreVolume?) && e.op.v == v
  }

  /** From here on `v` holds `files` until its first captured removal or restore, if there is one. */
  ghost predicate KeptUntilCaptured(w: World, events: seq<Event>, v: Name, files: map<string, int>)
    decreases |events|
  {
    && v in w.d.volumes && w.d.volumes[v].files == files
    && (events == [] || CapturesVolume(events[0], v) || KeptUntilCaptured(Happen(w, events[0]), events[1..], v, files))
  }

  /** Replaying the entry over `files` leaves `files`. */
  predicate EntryHolds(e: Entry, v: Name, files: map<string, int>) {
    e.inverse.Some? ==>
      match e.inverse.value
      case PutBackVolume(x, backup) => x == v ==> backup.files == files
      case DropVolume(x) => x != v
      case RecreateContainer(_, _, volumes) => v in volumes ==> volumes[v].files == files
      case _ => true
  }

  ghost predicate SomePutsBack(journal: seq<Entry>, v: Name) {
    exists j :: 0 <= j < |journal| && PutsBack(journal[j], v)
  }

  /** The oldest record that puts `v` back, and everything older, holds `files`. */
  ghost predicate OldestHolds(journal: seq<Entry>, v: Name, files: map<string, int>) {
    forall j :: 0 <= j < |journal| && !SomePutsBack(journal[..j], v) ==> EntryHolds(journal[j], v, files)
  }

  ghost predicate ContentsSafe(w: World, v: Name, files: map<string, int>) {
    && OldestHolds(w.journal, v, files)
    && (SomePutsBack(w.journal, v) || (v in w.d.volumes && w.d.volumes[v].files == files))
  }

  lemma MoreEntries(journal: seq<Entry>, e: Entry, v: Name, files: map<string, int>)
    ensures SomePutsBack(journal + [e], v) <==> SomePutsBack(journal, v) || PutsBack(e, v)
    ensures OldestHolds(journal + [e], v, files) <==>
              OldestHolds(journal, v, files) && (SomePutsBack(journal, v) || EntryHolds(e, v, files))
  {
    hide PutsBack, EntryHolds;
    var more := journal + [e];
    assert forall j :: 0 <= j < |journal| ==> more[j] == journal[j] && more[..j] == journal[..j];
    assert more[|journal|] == e && more[..|journal|] == journal;
    if SomePutsBack(journal, v) {
      var j :| 0 <= j < |journal| && PutsBack(journal[j], v);
      assert PutsBack(more[j], v);
    }
  }

  lemma CaptureHolds(d: Daemon, op: Op, v: Name, files: map<string, int>)
    requires v in d.volumes && d.volumes[v].files == files
    ensures EntryHolds(Entry(Capture(d, op), false), v, files)
    ensures (op.RemoveVolume? || op.RestoreVolume?) && op.v == v ==> PutsBack(Entry(Capture(d, op), false), v)
  {
  }

  lemma {:induction false} ContentsStaySafe(w: World, events: seq<Event>, v: Name, files: map<string, int>)
    requires ContentsSafe(w, v, files)
    requires SomePutsBack(w.journal, v) || KeptUntilCaptured(w, events, v, files)
    ensures ContentsSafe(After(w, events), v, files)
    decreases |events|
  {
    hide SomePutsBack, OldestHolds, EntryHolds, PutsBack, Capture, Apply;
    if events != [] {
      var e := events[0];
      var w' := Happen(w, e);
      if e.Change? {
        var entry := Entry(Capture(w.d, e.op), false);
        MoreEntries(w.journal, entry, v, files);
        if v in w.d.volumes && w.d.volumes[v].files == files {
          CaptureHolds(w.d, e.op, v, files);
        }
      }
      assert SomePutsBack(w'.journal, v) || KeptUntilCaptured(w', events[1..], v, files);
      ContentsStaySafe(w', events[1..], v, files);
    }
  }

  lemma UndoneContents(p: Progress, e: Entry, v: Name, files: map<string, int>, base: Snapshot, trouble: Trouble)
    requires !e.done && AllDone(UndoEntry(p, e, base, trouble).steps)
    requires v in base.volumes && v < p.d.nextId && EntryHolds(e, v, files)
    requires PutsBack(e, v) || (v in p.d.volumes && p.d.volumes[v].files == files)
    ensures var d := UndoEntry(p, e, base, trouble).d; v in d.volumes && d.volumes[v].files == files
  {
    hide AllDone, Step, UndoEntry;
    UndoCases(p, e, base, trouble);
    assert files + files == files;
  }

  lemma {:induction false} ReplayedContents(p: Progress, journal: seq<Entry>, v: Name, files: map<string, int>,
                                            base: Snapshot, trouble: Trouble)
    requires Pending(journal) && AllDone(Replay(p, journal, base, trouble).steps)
    requires v in base.volumes && v < p.d.nextId
    requires ContentsSafe(World(p.d, journal), v, files)
    ensures var d := Replay(p, journal, base, trouble).d; v in d.volumes && d.volumes[v].files == files
    decreases |journal|
  {
    hide AllDone, Undo, SomePutsBack, OldestHolds, EntryHolds, PutsBack;
    if journal != [] {
      var e, older := journal[|journal| - 1], journal[..|journal| - 1];
      var p' := UndoEntry(p, e, base, trouble);
      assert journal == older + [e];
      MoreEntries(older, e, v, files);
      ReplayDone(p', older, base, trouble);
      UndoneContainers(p, e, base, trouble);
      if !SomePutsBack(older, v) {
        UndoneContents(p, e, v, files, base, trouble);
      }
      ReplayedContents(p', older, v, files, base, trouble);
    } else {
      NothingPutsBack(v);
    }
  }

  lemma NothingPutsBack(v: Name)
    ensures !SomePutsBack([], v)
  {
  }

  /**
   A baseline volume whose contents stayed as they were until the first captured removal or restore has its
   baseline contents after a rollback with all steps done, whatever happened to it later: the oldest record wins.
   */
  lemma RollbackRestoresContents(d0: Daemon, events: seq<Event>, v: Name, trouble: Trouble)
    requires WellFormed(d0) && v in d0.volumes
    requires KeptUntilCaptured(World(d0, []), events, v, d0.volumes[v].files)
    requires var w := WorldAfter(d0, events); AllDone(Rollback(w.d, w.journal, Take(d0), trouble).steps)
    ensures var w := WorldAfter(d0, events);
            var r := Rollback(w.d, w.journal, Take(d0), trouble).d;
            v in r.volumes && r.volumes[v].files == d0.volumes[v].files
  {
    hide AllDone, Rollback, Replay, SomeRecreates, SomeRecreatesNetwork, SomePutsBack, OldestHolds, OwnVolumesOnly,
         KeptUntilCaptured, Dropped, InUse;
    var w, base, files := WorldAfter(d0, events), Take(d0), d0.volumes[v].files;
    SessionRecorded(d0, events);
    NothingHolds(v, files);
    assert v in World(d0, []).d.volumes;
    ContentsStaySafe(World(d0, []), events, v, files);
    var d1, p1, p2 := RollbackPhases(w.d, w.journal, base, trouble);
    ReplayedContents(p1, w.journal, v, files, base, trouble);
  }

  lemma NothingHolds(v: Name, files: map<string, int>)
    ensures OldestHolds([], v, files)
  {
  }

  // --- run states ----------------------------------------------------------------------------------------------

  /** The event makes `c` anew after it was gone. */
  predicate RunsAnew(w: World, e: Event, c: Name) {
    e.Change? && e.carriedOut && e.op.RunContainer? && e.op.c == c && c !in w.d.containers
  }

  ghost predicate NeverRunAnew(w: World, events: seq<Event>, c: Name)
    decreases |events|
  {
    events == [] || (!RunsAnew(w, events[0], c) && NeverRunAnew(Happen(w, events[0]), events[1..], c))
  }

  predicate SetsRunning(e: Entry, c: Name) {
    e.inverse.Some? && e.inverse.value.SetRunning? && e.inverse.value.c == c
  }

  ghost predicate SomeSetsRunning(journal: seq<Entry>, c: Name) {
    exists j :: 0 <= j < |journal| && SetsRunning(journal[j], c)
  }

  /** The same container but perhaps for its running state. */
  predicate SameButState(a: Container, b: Container) {
    a == b.(running := a.running)
  }

  /** The record holds `was`, with its running state unless older records (`settled`) decide about that. */
  predicate EntryHoldsState(e: Entry, c: Name, was: Container, settled: bool) {
    && (SetsRunning(e, c) && !settled ==> e.inverse.value.running == was.running)
    && (Recreates(e, c) ==>
          SameButState(e.inverse.value.container, was) && (settled || e.inverse.value.container == was))
  }

  ghost predicate HoldsState(journal: seq<Entry>, c: Name, was: Container) {
    forall j :: 0 <= j < |journal| ==> EntryHoldsState(journal[j], c, was, SomeSetsRunning(journal[..j], c))
  }

  /** `c`, where it is there, is `was` but perhaps for its running state, which the journal holds. */
  ghost predicate StateSafe(w: World, c: Name, was: Container) {
    && HoldsState(w.journal, c, was)
    && (c in w.d.containers ==>
          SameButState(w.d.containers[c], was) && (SomeSetsRunning(w.journal, c) || w.d.containers[c] == was))
  }

  lemma MoreStates(journal: seq<Entry>, e: Entry, c: Name, was: Container)
    ensures SomeSetsRunning(journal + [e], c) <==> SomeSetsRunning(journal, c) || SetsRunning(e, c)
    ensures HoldsState(journal + [e], c, was) <==>
              HoldsState(journal, c, was) && EntryHoldsState(e, c, was, SomeSetsRunning(journal, c))
  {
    hide SetsRunning, EntryHoldsState;
    var more := journal + [e];
    assert forall j :: 0 <= j < |journal| ==> more[j] == journal[j] && more[..j] == journal[..j];
    assert more[|journal|] == e && more[..|journal|] == journal;
    if SomeSetsRunning(journal, c) {
      var j :| 0 <= j < |journal| && SetsRunning(journal[j], c);
      assert SetsRunning(more[j], c);
    }
  }

  lemma NothingSetsRunning(c: Name, was: Container)
    ensures !SomeSetsRunning([], c) && HoldsState([], c, was)
  {
  }

  lemma {:induction false} StateStaysSafe(w: World, events: seq<Event>, c: Name, was: Container)
    requires StateSafe(w, c, was) && NeverRunAnew(w, events, c)
    ensures StateSafe(After(w, events), c, was)
    decreases |events|
  {
    hide HoldsState, SomeSetsRunning, EntryHoldsState, SetsRunning;
    if events != [] {
      var e := events[0];
      if e.Change? {
        var entry := Entry(Capture(w.d, e.op), false);
        MoreStates(w.journal, entry, c, was);
        CaptureHoldsState(w.d, e.op, c, was, SomeSetsRunning(w.journal, c));
        if c in w.d.containers {
          ApplyHoldsState(w.d, e.op, c);
        }
      }
      StateStaysSafe(Happen(w, e), events[1..], c, was);
    }
  }

  lemma CaptureHoldsState(d: Daemon, op: Op, c: Name, was: Container, settled: bool)
    requires c in d.containers ==> SameButState(d.containers[c], was) && (settled || d.containers[c] == was)
    ensures EntryHoldsState(Entry(Capture(d, op), false), c, was, settled)
    ensures SetsRunning(Entry(Capture(d, op), false), c) <==> op.StartStop? && op.c == c && c in d.containers
  {
  }

  lemma ApplyHoldsState(d: Daemon, op: Op, c: Name)
    requires c in d.containers
    ensures c in Apply(d, op).containers ==>
              var now := Apply(d, op).containers[c];
              SameButState(now, d.containers[c]) && ((op.StartStop? && op.c == c) || now == d.containers[c])
  {
  }

  lemma UndoneState(p: Progress, e: Entry, c: Name, base: Snapshot, trouble: Trouble)
    requires !e.done && AllDone(UndoEntry(p, e, base, trouble).steps)
    requires c in base.containers && c in p.d.containers
    ensures var d := UndoEntry(p, e, base, trouble).d;
            c in d.containers &&
            d.containers[c] == if SetsRunning(e, c) then p.d.containers[c].(running := e.inverse.value.running)
                               else p.d.containers[c]
  {
    hide AllDone, Step, UndoEntry;
    UndoCases(p, e, base, trouble);
  }

  /** A container that is there when a replay begins only has its running state changed. */
  lemma {:induction false} ReplayedStays(p: Progress, journal: seq<Entry>, c: Name, base: Snapshot, trouble: Trouble)
    requires Pending(journal) && AllDone(Replay(p, journal, base, trouble).steps)
    requires c in base.containers && c in p.d.containers
    ensures var d := Replay(p, journal, base, trouble).d;
            c in d.containers && SameButState(d.containers[c], p.d.containers[c])
    decreases |journal|
  {
    hide AllDone, Undo, SetsRunning;
    if journal != [] {
      var e, older := journal[|journal| - 1], journal[..|journal| - 1];
      var p' := UndoEntry(p, e, base, trouble);
      ReplayDone(p', older, base, trouble);
      UndoneState(p, e, c, base, trouble);
      ReplayedStays(p', older, c, base, trouble);
    }
  }

  /** Recreated on the way or not, a container ends in the running state that the oldest records hold. */
  lemma {:induction false} ReplayedRunning(p: Progress, journal: seq<Entry>, c: Name, was: Container, base: Snapshot,
                                           trouble: Trouble)
    requires Pending(journal) && AllDone(Replay(p, journal, base, trouble).steps)
    requires c in base.containers && HoldsState(journal, c, was)
    requires c in p.d.containers ==> SomeSetsRunning(journal, c) || p.d.containers[c].running == was.running
    ensures var d := Replay(p, journal, base, trouble).d;
            c in d.containers ==> d.containers[c].running == was.running
    decreases |journal|
  {
    hide AllDone, Undo, SomeSetsRunning, HoldsState;
    if journal != [] {
      var e, older := journal[|journal| - 1], journal[..|journal| - 1];
      var p' := UndoEntry(p, e, base, trouble);
      assert journal == older + [e];
      MoreStates(older, e, c, was);
      ReplayDone(p', older, base, trouble);
      if c in p.d.containers {
        UndoneState(p, e, c, base, trouble);
      } else {
        UndoneAbsent(p, e, c, base, trouble);
      }
      ReplayedRunning(p', older, c, was, base, trouble);
    } else {
      NothingSetsRunning(c, was);
    }
  }

  lemma NotRemovedStays(w: World, events: seq<Event>, c: Name)
    requires c in w.d.containers
    requires forall e :: e in events ==> !(e.Change? && e.op.RemoveContainer? && e.op.c == c)
    ensures NeverRunAnew(w, events, c) && c in After(w, events).d.containers
    decreases |events|
  {
    if events != [] {
      assert events[0] in events;
      NotRemovedStays(Happen(w, events[0]), events[1..], c);
    }
  }

  /** A baseline container that is still there when the rollback starts, and was never made anew in between, is after
      it exactly what it was: run states come back. */
  lemma RollbackRestoresRunState(d0: Daemon, events: seq<Event>, c: Name, trouble: Trouble)
    requires WellFormed(d0) && c in d0.containers && NeverRunAnew(World(d0, []), events, c)
    requires var w := WorldAfter(d0, events);
             c in w.d.containers && AllDone(Rollback(w.d, w.journal, Take(d0), trouble).steps)
    ensures var w := WorldAfter(d0, events);
            var r := Rollback(w.d, w.journal, Take(d0), trouble).d;
            c in r.containers && r.containers[c] == d0.containers[c]
  {
    hide AllDone, Rollback, Replay, SomeRecreates, SomeRecreatesNetwork, SomeSetsRunning, HoldsState, OwnVolumesOnly,
         Dropped, InUse, NeverRunAnew;
    var w, base, was := WorldAfter(d0, events), Take(d0), d0.containers[c];
    SessionRecorded(d0, events);
    NothingSetsRunning(c, was);
    StateStaysSafe(World(d0, []), events, c, was);
    var d1, p1, p2 := RollbackPhases(w.d, w.journal, base, trouble);
    ReplayedStays(p1, w.journal, c, base, trouble);
    ReplayedRunning(p1, w.journal, c, was, base, trouble);
  }

  /** The same, read off the events: no op removes the container. */
  lemma UnremovedContainersComeBack(d0: Daemon, events: seq<Event>, c: Name, trouble: Trouble)
    requires WellFormed(d0) && c in d0.containers
    requires forall e :: e in events ==> !(e.Change? && e.op.RemoveContainer? && e.op.c == c)
    requires var w := WorldAfter(d0, events); AllDone(Rollback(w.d, w.journal, Take(d0), trouble).steps)
    ensures var w := WorldAfter(d0, events);
            var r := Rollback(w.d, w.journal, Take(d0), trouble).d;
            c in r.containers && r.containers[c] == d0.containers[c]
  {
    hide AllDone, Rollback, NeverRunAnew;
    NotRemovedStays(World(d0, []), events, c);
    RollbackRestoresRunState(d0, events, c, trouble);
  }

  // --- recreated containers ------------------------------------------------------------------------------------

  /** `j` is the newest record that recreates `c`. */
  ghost predicate IsNewest(journal: seq<Entry>, j: nat, c: Name) {
    j < |journal| && Recreates(journal[j], c) && !SomeRecreates(journal[j + 1..], c)
  }

  /** As many names as `spec` leaves destinations without a volume, none given out before `low`. */
  ghost predicate FreshFor(names: set<Name>, spec: Spec, low: nat) {
    exists first: nat :: low <= first && names == NamesFrom(first, spec.bare)
  }

  /** The container is what `inverse` recorded, with the captured volumes mounted by name, or fresh ones where none
      were captured. */
  ghost predicate MadeFrom(container: Container, inverse: Inverse, low: nat) {
    && inverse.RecreateContainer?
    && container.spec == SpecBack(inverse.container.spec, inverse.volumes)
    && container.networks == inverse.container.networks
    && FreshFor(container.anonymous, container.spec, low)
  }

  /** A missing container after one record: recreated by it, or still missing. */
  lemma UndoneAbsent(p: Progress, e: Entry, c: Name, base: Snapshot, trouble: Trouble)
    requires !e.done && AllDone(UndoEntry(p, e, base, trouble).steps)
    requires c in base.containers && c !in p.d.containers
    ensures var d := UndoEntry(p, e, base, trouble).d;
            && d.nextId >= p.d.nextId
            && (c in d.containers <==> Recreates(e, c))
            && (Recreates(e, c) ==>
                  d == Recreated(p.d, c, e.inverse.value.container, e.inverse.value.volumes) &&
                  MadeFrom(d.containers[c], e.inverse.value, p.d.nextId) &&
                  d.containers[c].running == e.inverse.value.container.running)
  {
    hide AllDone, Step, UndoEntry;
    UndoCases(p, e, base, trouble);
  }

  lemma MadeStays(a: Container, b: Container, inverse: Inverse, low: nat, low': nat)
    requires SameButState(b, a) && MadeFrom(a, inverse, low) && low' <= low
    ensures MadeFrom(b, inverse, low')
  {
    var first: nat :| low <= first && a.anonymous == NamesFrom(first, a.spec.bare);
    assert low' <= first && b.anonymous == NamesFrom(first, b.spec.bare);
  }

  lemma {:induction false} ReplayedNewest(p: Progress, journal: seq<Entry>, j: nat, c: Name, base: Snapshot,
                                          trouble: Trouble)
    requires Pending(journal) && AllDone(Replay(p, journal, base, trouble).steps)
    requires c in base.containers && c !in p.d.containers && IsNewest(journal, j, c)
    ensures var d := Replay(p, journal, base, trouble).d;
            c in d.containers && MadeFrom(d.containers[c], journal[j].inverse.value, p.d.nextId)
    decreases |journal|
  {
    hide AllDone, Undo, MadeFrom, Recreates, SameButState, Recreated;
    var e, older := journal[|journal| - 1], journal[..|journal| - 1];
    var p' := UndoEntry(p, e, base, trouble);
    var d := Replay(p, journal, base, trouble).d;
    NewestRecreates(journal, j, c);
    ReplayDone(p', older, base, trouble);
    UndoneAbsent(p, e, c, base, trouble);
    if j == |journal| - 1 {
      ReplayedStays(p', older, c, base, trouble);
      MadeStays(p'.d.containers[c], d.containers[c], journal[j].inverse.value, p.d.nextId, p.d.nextId);
    } else {
      NewestIsOlder(journal, j, c);
      ReplayedNewest(p', older, j, c, base, trouble);
      MadeStays(d.containers[c], d.containers[c], journal[j].inverse.value, p'.d.nextId, p.d.nextId) by {
        assert SameButState(d.containers[c], d.containers[c]) by { SameIsSame(d.containers[c]); }
      }
    }
  }

  lemma SameIsSame(a: Container)
    ensures SameButState(a, a)
  {
  }

  lemma NewestRecreates(journal: seq<Entry>, j: nat, c: Name)
    requires IsNewest(journal, j, c)
    ensures journal[j].inverse.Some? && journal[j].inverse.value.RecreateContainer? && journal[j].inverse.value.c == c
  {
  }

  lemma NewestIsOlder(journal: seq<Entry>, j: nat, c: Name)
    requires IsNewest(journal, j, c) && j < |journal| - 1
    ensures IsNewest(journal[..|journal| - 1], j, c) && !Recreates(journal[|journal| - 1], c)
  {
    hide Recreates;
    var e, older := journal[|journal| - 1], journal[..|journal| - 1];
    var newer := journal[j + 1..];
    assert newer[..|newer| - 1] == older[j + 1..] && newer[|newer| - 1] == e && older[j] == journal[j];
    LastOrBefore(newer);
  }

  /** A container that is missing when the rollback starts comes back as its newest record has it: image, mounts,
      networks, and captured volumes by name. */
  lemma RollbackUsesNewest(d0: Daemon, events: seq<Event>, j: nat, c: Name, trouble: Trouble)
    requires WellFormed(d0) && c in d0.containers
    requires var w := WorldAfter(d0, events);
             && AllDone(Rollback(w.d, w.journal, Take(d0), trouble).steps)
             && c !in w.d.containers && IsNewest(w.journal, j, c)
    ensures var w := WorldAfter(d0, events);
            var r := Rollback(w.d, w.journal, Take(d0), trouble).d;
            c in r.containers && MadeFrom(r.containers[c], w.journal[j].inverse.value, w.d.nextId)
  {
    hide AllDone, Rollback, Replay, SomeRecreates, SomeRecreatesNetwork, OwnVolumesOnly, Dropped, InUse, MadeFrom,
         IsNewest;
    var w, base := WorldAfter(d0, events), Take(d0);
    SessionRecorded(d0, events);
    var d1, p1, p2 := RollbackPhases(w.d, w.journal, base, trouble);
    ReplayedNewest(p1, w.journal, j, c, base, trouble);
  }

  lemma {:induction false} NewestExists(journal: seq<Entry>, c: Name) returns (j: nat)
    requires SomeRecreates(journal, c)
    ensures IsNewest(journal, j, c)
    decreases |journal|
  {
    hide Recreates;
    var last := |journal| - 1;
    LastOrBefore(journal);
    if Recreates(journal[last], c) {
      j := last;
      assert journal[j + 1..] == [];
    } else {
      j := NewestExists(journal[..last], c);
      var newer := journal[j + 1..];
      assert newer[..|newer| - 1] == journal[..last][j + 1..] && newer[|newer| - 1] == journal[last];
      LastOrBefore(newer);
    }
  }

  /** A baseline container that was removed and never made anew comes back with its image, its mounts (the volumes
      captured with it by name), its networks and its running state. */
  lemma RemovedContainerComesBack(d0: Daemon, events: seq<Event>, c: Name, trouble: Trouble) returns (j: nat)
    requires WellFormed(d0) && c in d0.containers && NeverRunAnew(World(d0, []), events, c)
    requires var w := WorldAfter(d0, events);
             c !in w.d.containers && AllDone(Rollback(w.d, w.journal, Take(d0), trouble).steps)
    ensures var w := WorldAfter(d0, events);
            var r, was := Rollback(w.d, w.journal, Take(d0), trouble).d, d0.containers[c];
            && IsNewest(w.journal, j, c) && c in r.containers
            && r.containers[c].spec == SpecBack(was.spec, w.journal[j].inverse.value.volumes)
            && FreshFor(r.containers[c].anonymous, r.containers[c].spec, w.d.nextId)
            && r.containers[c].networks == was.networks && r.containers[c].running == was.running
  {
    hide AllDone, Rollback, Replay, SomeRecreates, SomeRecreatesNetwork, SomeSetsRunning, OwnVolumesOnly,
         Dropped, InUse, NeverRunAnew, FreshFor;
    var w, base, was := WorldAfter(d0, events), Take(d0), d0.containers[c];
    SessionRecorded(d0, events);
    j := NewestExists(w.journal, c);
    NothingSetsRunning(c, was);
    StateStaysSafe(World(d0, []), events, c, was);
    assert EntryHoldsState(w.journal[j], c, was, SomeSetsRunning(w.journal[..j], c));
    RollbackUsesNewest(d0, events, j, c, trouble);
    var d1, p1, p2 := RollbackPhases(w.d, w.journal, base, trouble);
    ReplayedRunning(p1, w.journal, c, was, base, trouble);
  }

  // --- volumes captured with a container -----------------------------------------------------------------------

  /** The record puts something into `v`, or drops it. */
  predicate Speaks(e: Entry, v: Name) {
    PutsBack(e, v) || Drops(e, v) || (e.inverse.Some? && e.inverse.value.RecreateContainer? &&
        v in e.inverse.value.volumes)
  }

  predicate EmptyOrMissing(d: Daemon, v: Name) {
    v in d.volumes ==> d.volumes[v].files == map[]
  }

  lemma UndoneSilent(p: Progress, e: Entry, v: Name, base: Snapshot, trouble: Trouble)
    requires !e.done && AllDone(UndoEntry(p, e, base, trouble).steps)
    requires EmptyOrMissing(p.d, v) && !Speaks(e, v)
    ensures EmptyOrMissing(UndoEntry(p, e, base, trouble).d, v)
  {
    hide AllDone, Step, UndoEntry;
    UndoCases(p, e, base, trouble);
  }

  lemma RecreatedFills(d: Daemon, c: Name, was: Container, volumes: map<Name, Volume>, v: Name)
    requires c !in d.containers && v in volumes && EmptyOrMissing(d, v) && v < d.nextId
    ensures var d' := Recreated(d, c, was, volumes); v in d'.volumes && d'.volumes[v].files == volumes[v].files
  {
    assert map[] + volumes[v].files == volumes[v].files;
  }

  lemma SilentHolds(journal: seq<Entry>, v: Name, files: map<string, int>)
    requires forall k :: 0 <= k < |journal| ==> !Speaks(journal[k], v)
    ensures OldestHolds(journal, v, files)
  {
  }

  lemma {:induction false} ReplayedCaptured(p: Progress, journal: seq<Entry>, j: nat, c: Name, v: Name, base: Snapshot,
                                            trouble: Trouble)
    requires Pending(journal) && AllDone(Replay(p, journal, base, trouble).steps)
    requires c in base.containers && c !in p.d.containers && IsNewest(journal, j, c)
    requires v in base.volumes && v < p.d.nextId && EmptyOrMissing(p.d, v)
    requires v in journal[j].inverse.value.volumes && forall k :: 0 <= k < |journal| && k != j ==>
        !Speaks(journal[k], v)
    ensures var d := Replay(p, journal, base, trouble).d;
            v in d.volumes && d.volumes[v].files == journal[j].inverse.value.volumes[v].files
    decreases |journal|
  {
    hide AllDone, Undo, MadeFrom, Recreates, Recreated, Speaks, EmptyOrMissing, OldestHolds;
    var e, older := journal[|journal| - 1], journal[..|journal| - 1];
    var p' := UndoEntry(p, e, base, trouble);
    assert forall k :: 0 <= k < |older| ==> older[k] == journal[k];
    NewestRecreates(journal, j, c);
    ReplayDone(p', older, base, trouble);
    UndoneAbsent(p, e, c, base, trouble);
    if j == |journal| - 1 {
      var inverse := e.inverse.value;
      RecreatedFills(p.d, c, inverse.container, inverse.volumes, v);
      SilentHolds(older, v, inverse.volumes[v].files);
      ReplayedContents(p', older, v, inverse.volumes[v].files, base, trouble);
    } else {
      NewestIsOlder(journal, j, c);
      UndoneSilent(p, e, v, base, trouble);
      ReplayedCaptured(p', older, j, c, v, base, trouble);
    }
  }

  /** A baseline volume that went with a removed container, and of which no other record speaks, comes back with the
      files captured with the container. */
  lemma CapturedVolumesComeBack(d0: Daemon, events: seq<Event>, j: nat, c: Name, v: Name, trouble: Trouble)
    requires WellFormed(d0) && c in d0.containers && v in d0.volumes
    requires var w := WorldAfter(d0, events);
             && AllDone(Rollback(w.d, w.journal, Take(d0), trouble).steps)
             && c !in w.d.containers && IsNewest(w.journal, j, c)
             && v !in w.d.volumes && v in w.journal[j].inverse.value.volumes
             && forall k :: 0 <= k < |w.journal| && k != j ==> !Speaks(w.journal[k], v)
    ensures var w := WorldAfter(d0, events);
            var r := Rollback(w.d, w.journal, Take(d0), trouble).d;
            v in r.volumes && r.volumes[v].files == w.journal[j].inverse.value.volumes[v].files
  {
    hide AllDone, Rollback, Replay, SomeRecreates, SomeRecreatesNetwork, OwnVolumesOnly, Dropped, InUse, IsNewest,
         Speaks;
    var w, base := WorldAfter(d0, events), Take(d0);
    SessionRecorded(d0, events);
    var d1, p1, p2 := RollbackPhases(w.d, w.journal, base, trouble);
    ReplayedCaptured(p1, w.journal, j, c, v, base, trouble);
  }

  // --- a second rollback ---------------------------------------------------------------------------------------

  lemma {:induction false} NothingToReplay(p: Progress, journal: seq<Entry>, base: Snapshot, trouble: Trouble)
    requires forall i :: 0 <= i < |journal| ==> journal[i].done || journal[i].inverse.None?
    ensures Replay(p, journal, base, trouble) == p
    decreases |journal|
  {
    if journal != [] {
      NothingToReplay(p, journal[..|journal| - 1], base, trouble);
    }
  }

  /** A rollback marks every record it went over as done, so no later rollback replays any: not even those whose
      step failed. */
  lemma NoRecordIsReplayedTwice(p: Progress, journal: seq<Entry>, base: Snapshot, trouble: Trouble)
    ensures Replay(p, MarkDone(journal), base, trouble) == p
  {
    NothingToReplay(p, MarkDone(journal), base, trouble);
  }

  lemma SortedNothing()
    ensures Sorted({}) == []
  {
  }

  function NoTrouble(): Trouble {
    (i: nat) => None
  }

  /** Every volume from outside the baseline is one of `names` or in use. */
  ghost predicate ExtrasMounted(d: Daemon, base: Snapshot, names: set<Name>) {
    forall x :: x in d.volumes && x !in base.volumes ==> x in names || InUse(d, x)
  }

  /** A done step leaves an extra volume only if it was there and is not the one dropped, or a container mounts it. */
  lemma UndoneExtras(p: Progress, e: Entry, base: Snapshot, trouble: Trouble)
    requires !e.done && AllDone(UndoEntry(p, e, base, trouble).steps)
    ensures var d := UndoEntry(p, e, base, trouble).d;
            forall x :: x in d.volumes && x !in base.volumes ==> (x in p.d.volumes && !Drops(e, x)) || InUse(d, x)
  {
    hide AllDone, Step, UndoEntry;
    UndoCases(p, e, base, trouble);
    var d := UndoEntry(p, e, base, trouble).d;
    if e.inverse.Some? && e.inverse.value.RecreateContainer? {
      var c := e.inverse.value.c;
      forall x | x in d.volumes && x !in p.d.volumes ensures InUse(d, x) {
        assert c in d.containers && x in d.containers[c].Mounts();
      }
    }
  }

  lemma StaysInUse(d: Daemon, d': Daemon, x: Name)
    requires InUse(d, x)
    requires forall c :: c in d.containers ==>
        c in d'.containers && d'.containers[c].Mounts() == d.containers[c].Mounts()
    ensures InUse(d', x)
  {
  }

  lemma {:induction false} ReplayedExtras(p: Progress, journal: seq<Entry>, base: Snapshot, trouble: Trouble)
    requires Pending(journal) && AllDone(Replay(p, journal, base, trouble).steps)
    ensures ExtrasMounted(Replay(p, journal, base, trouble).d, base, p.d.volumes.Keys - Dropped(journal))
    decreases |journal|
  {
    hide AllDone, Undo, Dropped, Drops, SomeRecreates, SomeRecreatesNetwork, InUse;
    if journal != [] {
      var e, older := journal[|journal| - 1], journal[..|journal| - 1];
      var p' := UndoEntry(p, e, base, trouble);
      ReplayDone(p', older, base, trouble);
      UndoneExtras(p, e, base, trouble);
      ReplayedExtras(p', older, base, trouble);
      ReplayedObjects(p', older, base, trouble);
      DroppedOlder(journal);
      var d := Replay(p', older, base, trouble).d;
      forall x | x in d.volumes && x !in base.volumes && !InUse(d, x)
        ensures x in p.d.volumes && x !in Dropped(journal)
      {
        if InUse(p'.d, x) {
          StaysInUse(p'.d, d, x);
        }
      }
    } else {
      NothingDropped();
    }
  }

  lemma NothingDropped()
    ensures Dropped([]) == {}
  {
  }

  /** After a rollback whose steps are all done, every volume left over from outside the baseline is in use. */
  lemma LeftOversAreInUse(w: World, base: Snapshot, trouble: Trouble)
    requires Recorded(w, base) && AllDone(Rollback(w.d, w.journal, base, trouble).steps)
    ensures ExtrasMounted(Rollback(w.d, w.journal, base, trouble).d, base, {})
  {
    hide AllDone, Rollback, Replay, SomeRecreates, SomeRecreatesNetwork, Dropped, OwnVolumesOnly, InUse;
    var d1, p1, p2 := RollbackPhases(w.d, w.journal, base, trouble);
    ReplayedExtras(p1, w.journal, base, trouble);
    var r := Rollback(w.d, w.journal, base, trouble).d;
    forall x | x in r.volumes && x !in base.volumes ensures InUse(r, x) {
      assert x in p2.d.volumes;
      assert x !in w.d.volumes || x in Dropped(w.journal);
      SameContainersSameUse(p2.d, r, x);
    }
  }

  lemma SameContainersSameUse(d: Daemon, d': Daemon, x: Name)
    requires d.containers == d'.containers
    ensures InUse(d, x) == InUse(d', x)
  {
  }

  /** Removing volumes that are in use fails each time and changes nothing. */
  lemma {:induction false} VolumesInUseStay(p: Progress, names: seq<Name>, dropped: set<Name>)
    requires forall x :: x in names ==> x in p.d.volumes && InUse(p.d, x)
    ensures var r := RemoveVolumes(p, names, dropped, NoTrouble());
            && r.d == p.d && p.steps <= r.steps
            && forall i :: |p.steps| <= i < |r.steps| ==> !r.steps[i]
    decreases |names|
  {
    hide InUse;
    if names != [] {
      if names[0] in dropped {
        VolumesInUseStay(p, names[1..], dropped);
      } else {
        assert names[0] in names;
        VolumesInUseStay(Progress(p.d, p.steps + [false]), names[1..], dropped);
      }
    }
  }

  /** A second rollback changes nothing after a first one whose steps were all done: over every history, and also when
      the first could not bring the baseline's volumes back. Then every step it tries fails; otherwise it tries none. */
  lemma SecondRollbackChangesNothing(d0: Daemon, events: seq<Event>, trouble: Trouble)
    requires WellFormed(d0)
    requires var w := WorldAfter(d0, events); AllDone(Rollback(w.d, w.journal, Take(d0), trouble).steps)
    ensures var w := WorldAfter(d0, events);
            var r := Rollback(w.d, w.journal, Take(d0), trouble).d;
            var again := Rollback(r, MarkDone(w.journal), Take(d0), NoTrouble());
            && again.d == r && (forall i :: 0 <= i < |again.steps| ==> !again.steps[i])
            && (VolumesRestorable(w.d, w.journal, Take(d0)) ==> again.steps == [])
  {
    hide AllDone, Rollback, WorldAfter, Recorded, InUse, VolumesRestorable;
    var w, base := WorldAfter(d0, events), Take(d0);
    SessionRecorded(d0, events);
    LeftOversAreInUse(w, base, trouble);
    RollbackRestoresNames(d0, events, trouble);
    OnlyVolumesLeftOver(Rollback(w.d, w.journal, base, trouble).d, w.journal, base);
  }

  lemma OnlyVolumesLeftOver(r: Daemon, journal: seq<Entry>, base: Snapshot)
    requires r.containers.Keys == base.containers && r.networks.Keys == base.networks && ExtrasMounted(r, base, {})
    ensures var again := Rollback(r, MarkDone(journal), base, NoTrouble());
            && again.d == r && (forall i :: 0 <= i < |again.steps| ==> !again.steps[i])
            && (r.volumes.Keys == base.volumes ==> again.steps == [])
  {
    hide Dropped, InUse;
    SortedNothing();
    assert r.containers.Keys - base.containers == {} && r.networks.Keys - base.networks == {};
    NoRecordIsReplayedTwice(Progress(r, []), journal, base, NoTrouble());
    assert r.volumes.Keys == base.volumes ==> r.volumes.Keys - base.volumes == {};
    VolumesInUseStay(Progress(r, []), Sorted(r.volumes.Keys - base.volumes), Dropped(MarkDone(journal)));
  }
}
