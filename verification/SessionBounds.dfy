/**
 The two ends of `VolumesRestorable`: histories for which it always holds, and concrete sessions in which a
 rollback with every step done does not restore everything.
 */
module SessionBounds {
  import opened Wrappers
  import opened Session
  import opened SessionNames
  import opened SessionContents

  // --- histories without mounts --------------------------------------------------------------------------------

  predicate MountFree(spec: Spec) {
    spec.binds == {} && spec.bare == 0
  }

  predicate RunsMountFree(e: Event) {
    e.Change? && e.op.RunContainer? ==> MountFree(e.op.spec)
  }

  predicate RecordsMountFree(e: Entry) {
    e.inverse.Some? && e.inverse.value.RecreateContainer? ==>
      MountFree(e.inverse.value.container.spec) && e.inverse.value.volumes == map[]
  }

  ghost predicate AllMountFree(w: World) {
    && (forall c :: c in w.d.containers ==> MountFree(w.d.containers[c].spec) && w.d.containers[c].anonymous == {})
    && (forall i :: 0 <= i < |w.journal| ==> RecordsMountFree(w.journal[i]))
  }

  /** A record that drops `v` has an older one that puts it back; with neither, `v` is there. */
  ghost predicate DropsComeSecond(w: World, v: Name) {
    && (forall j :: 0 <= j < |w.journal| && Drops(w.journal[j], v) ==> SomePutsBack(w.journal[..j], v))
    && (v in w.d.volumes || SomePutsBack(w.journal, v))
  }

  lemma HappenMountFree(w: World, e: Event)
    requires AllMountFree(w) && RunsMountFree(e)
    ensures AllMountFree(Happen(w, e))
  {
    if e.Change? {
      assert RecordsMountFree(Entry(Capture(w.d, e.op), false)) by {
        if e.op.RemoveContainer? && e.op.c in w.d.containers {
          assert w.d.containers[e.op.c].Mounts() == {};
        }
      }
    }
  }

  lemma HappenDropsSecond(w: World, e: Event, v: Name)
    requires AllMountFree(w) && RunsMountFree(e) && DropsComeSecond(w, v)
    ensures DropsComeSecond(Happen(w, e), v)
  {
    hide SomePutsBack, RecordsMountFree;
    if e.Change? {
      var entry := Entry(Capture(w.d, e.op), false);
      MoreEntries(w.journal, entry, v, map[]);
      var more := w.journal + [entry];
      assert forall j :: 0 <= j < |w.journal| ==> more[j] == w.journal[j] && more[..j] == w.journal[..j];
      assert more[|w.journal|] == entry && more[..|w.journal|] == w.journal;
      VolumeLeavesWithRecord(w.d, e.op, v);
    }
  }

  lemma VolumeLeavesWithRecord(d: Daemon, op: Op, v: Name)
    requires forall c :: c in d.containers ==> d.containers[c].anonymous == {}
    ensures v in d.volumes && v !in Apply(d, op).volumes ==> PutsBack(Entry(Capture(d, op), false), v)
    ensures v in d.volumes ==> !Drops(Entry(Capture(d, op), false), v)
  {
  }

  lemma {:induction false} AfterMountFree(w: World, events: seq<Event>, v: Name)
    requires AllMountFree(w) && DropsComeSecond(w, v)
    requires forall e :: e in events ==> RunsMountFree(e)
    ensures AllMountFree(After(w, events)) && DropsComeSecond(After(w, events), v)
    decreases |events|
  {
    hide AllMountFree, DropsComeSecond, Happen;
    if events != [] {
      assert events[0] in events;
      HappenMountFree(w, events[0]);
      HappenDropsSecond(w, events[0], v);
      AfterMountFree(Happen(w, events[0]), events[1..], v);
    }
  }

  lemma DropsSecondRestores(w: World, v: Name, present: set<Name>, base: Snapshot)
    requires DropsComeSecond(w, v)
    ensures !OldestDrops(w.journal, v, present, base)
    ensures Untouched(w.journal, v, present, base) ==> v in w.d.volumes
  {
    assert forall k :: 0 <= k < |w.journal| && PutsBack(w.journal[k], v) ==> Touches(w.journal, k, v, present, base);
  }

  /**
   As long as no container mounts volumes, every history of container, volume and network changes is undone:
   a rollback whose steps are all done leaves exactly the baseline's containers, volumes and networks.
   */
  lemma MountFreeHistoriesAreUndone(d0: Daemon, events: seq<Event>, trouble: Trouble)
    requires WellFormed(d0)
    requires forall c :: c in d0.containers ==> MountFree(d0.containers[c].spec) && d0.containers[c].anonymous == {}
    requires forall e :: e in events ==> RunsMountFree(e)
    requires var w := WorldAfter(d0, events); AllDone(Rollback(w.d, w.journal, Take(d0), trouble).steps)
    ensures var w := WorldAfter(d0, events);
            Take(Rollback(w.d, w.journal, Take(d0), trouble).d) == Take(d0)
  {
    hide AllDone, Rollback, Touches, OldestDrops, Untouched;
    var w, base := WorldAfter(d0, events), Take(d0);
    RollbackRestoresNames(d0, events, trouble);
    assert VolumesRestorable(w.d, w.journal, base) by {
      forall v | v in base.volumes
        ensures !OldestDrops(w.journal, v, w.d.containers.Keys, base)
        ensures Untouched(w.journal, v, w.d.containers.Keys, base) ==> v in w.d.volumes
      {
        AfterMountFree(World(d0, []), events, v);
        DropsSecondRestores(w, v, w.d.containers.Keys, base);
      }
      MountFreeAlone(World(d0, []), events);
    }
  }

  lemma {:induction false} MountFreeAlone(w: World, events: seq<Event>)
    requires AllMountFree(w)
    requires forall e :: e in events ==> RunsMountFree(e)
    ensures AllMountFree(After(w, events))
    decreases |events|
  {
    hide AllMountFree, Happen;
    if events != [] {
      assert events[0] in events;
      HappenMountFree(w, events[0]);
      MountFreeAlone(Happen(w, events[0]), events[1..]);
    }
  }

  // --- sessions that are not fully undone ------------------------------------------------------------------------

  function Alone(spec: Spec, anonymous: set<Name>): Container {
    Container(spec, anonymous, false, {})
  }

  lemma AfterThree(w: World, a: Event, b: Event, c: Event)
    ensures After(w, [a, b, c]) == Happen(Happen(Happen(w, a), b), c)
  {
    assert [a, b, c][1..] == [b, c] && [b, c][1..] == [c] && [c][1..] == [];
    assert After(w, [a, b, c]) == After(Happen(w, a), [b, c]);
    assert After(Happen(w, a), [b, c]) == After(Happen(Happen(w, a), b), [c]);
  }

  lemma ReplayThree(p: Progress, a: Entry, b: Entry, c: Entry, base: Snapshot, trouble: Trouble)
    ensures Replay(p, [a, b, c], base, trouble) ==
              UndoEntry(UndoEntry(UndoEntry(p, c, base, trouble), b, base, trouble), a, base, trouble)
  {
    hide Undo;
    assert [a, b, c][..2] == [a, b] && [a, b][..1] == [a] && [a][..0] == [];
    var p1 := UndoEntry(p, c, base, trouble);
    var p2 := UndoEntry(p1, b, base, trouble);
    assert Replay(p, [a, b, c], base, trouble) == Replay(p1, [a, b], base, trouble);
    assert Replay(p1, [a, b], base, trouble) == Replay(p2, [a], base, trouble);
    assert Replay(p2, [a], base, trouble) == Replay(UndoEntry(p2, a, base, trouble), [], base, trouble);
  }

  /** A rollback that finds no added object is the replay alone. */
  lemma OnlyReplay(d: Daemon, journal: seq<Entry>, base: Snapshot, trouble: Trouble)
    requires d.containers.Keys <= base.containers && d.volumes.Keys <= base.volumes && d.networks.Keys <= base.networks
    ensures Rollback(d, journal, base, trouble) == Replay(Progress(d, []), journal, base, trouble)
  {
    SortedNothing();
    assert d.containers.Keys - base.containers == {} && d.volumes.Keys - base.volumes == {} &&
        d.networks.Keys - base.networks == {};
  }

  lemma CreatedMountFree(d: Daemon, c: Name, spec: Spec, running: bool, networks: set<Name>)
    requires MountFree(spec)
    ensures CreateContainer(d, c, spec, running, networks) ==
              d.(containers := d.containers[c := Container(spec, {}, running, networks)])
    ensures c !in d.containers ==>
              Recreated(d, c, Container(spec, {}, running, networks), map[]) ==
                  CreateContainer(d, c, spec, running, networks)
  {
    assert NamesFrom(d.nextId, 0) == {};
    assert d.volumes + map[] == d.volumes;
  }

  function Holding(c: Name, image: int): Daemon {
    Daemon(map[c := Alone(Spec(image, {}, 0), {})], map[], map[], 0)
  }

  lemma RemovedMadeRemoved()
    ensures var rm := Change(RemoveContainer(0, false), true);
            WorldAfter(Holding(0, 1), [rm, Change(RunContainer(0, Spec(2, {}, 0), false, {}), true), rm]) ==
            World(Daemon(map[], map[], map[], 0),
                  [Entry(Some(RecreateContainer(0, Alone(Spec(1, {}, 0), {}), map[])), false), Entry(None, false),
                   Entry(Some(RecreateContainer(0, Alone(Spec(2, {}, 0), {}), map[])), false)])
  {
    hide CreateContainer;
    var was, made := Alone(Spec(1, {}, 0), {}), Alone(Spec(2, {}, 0), {});
    var gone := Daemon(map[], map[], map[], 0);
    var rm := Change(RemoveContainer(0, false), true);
    var run := Change(RunContainer(0, Spec(2, {}, 0), false, {}), true);
    var a, b := Entry(Some(RecreateContainer(0, was, map[])), false), Entry(None, false);
    AfterThree(World(Holding(0, 1), []), rm, run, rm);
    CreatedMountFree(gone, 0, Spec(2, {}, 0), false, {});
    assert Happen(World(Holding(0, 1), []), rm) == World(gone, [a]);
    assert Happen(World(gone, [a]), run) == World(Holding(0, 2), [a, b]);
  }

  /**
   A container removed, made anew with another image and removed again comes back with the new image: the newest
   record is replayed first, and the older one finds the container there.
   */
  lemma RecreatedContainerKeepsNewImage()
    ensures var rm := Change(RemoveContainer(0, false), true);
            var w := WorldAfter(Holding(0, 1), [rm, Change(RunContainer(0, Spec(2, {}, 0), false, {}), true), rm]);
            Rollback(w.d, w.journal, Take(Holding(0, 1)), NoTrouble()) == Progress(Holding(0, 2), [true, true])
  {
    hide CreateContainer, Recreated, Rollback, WorldAfter;
    RemovedMadeRemoved();
    var was, made := Alone(Spec(1, {}, 0), {}), Alone(Spec(2, {}, 0), {});
    var gone, base := Daemon(map[], map[], map[], 0), Take(Holding(0, 1));
    var a, b, c := Entry(Some(RecreateContainer(0, was, map[])), false), Entry(None, false),
                   Entry(Some(RecreateContainer(0, made, map[])), false);
    CreatedMountFree(gone, 0, Spec(2, {}, 0), false, {});
    OnlyReplay(gone, [a, b, c], base, NoTrouble());
    ReplayThree(Progress(gone, []), a, b, c, base, NoTrouble());
    assert Recreated(Holding(0, 2), 0, was, map[]) == Holding(0, 2) by { AlreadyThere(Holding(0, 2), 0, was); }
    assert UndoEntry(Progress(gone, []), c, base, NoTrouble()) == Progress(Holding(0, 2), [true]);
    assert UndoEntry(Progress(Holding(0, 2), [true]), a, base, NoTrouble()) == Progress(Holding(0, 2), [true, true]);
  }

  lemma AlreadyThere(d: Daemon, c: Name, was: Container)
    requires c in d.containers
    ensures Recreated(d, c, was, map[]) == d
  {
  }

  const FIRST := Volume(1, map["a" := 7])
  const SECOND := Volume(2, map[])

  function OneVolume(volumes: map<Name, Volume>): Daemon {
    Daemon(map[], volumes, map[], 1)
  }

  function PutsBackOne(backup: Volume): Entry {
    Entry(Some(PutBackVolume(0, backup)), false)
  }

  lemma RemovedMadeRemovedVolume()
    ensures var rm := Change(RemoveVolume(0), true);
            WorldAfter(OneVolume(map[0 := FIRST]), [rm, Change(CreateVolume(0, 2), true), rm]) ==
            World(OneVolume(map[]), [PutsBackOne(FIRST), Entry(None, false), PutsBackOne(SECOND)])
  {
    var rm, make := Change(RemoveVolume(0), true), Change(CreateVolume(0, 2), true);
    var was, gone, made := OneVolume(map[0 := FIRST]), OneVolume(map[]), OneVolume(map[0 := SECOND]);
    var a, b := PutsBackOne(FIRST), Entry(None, false);
    AfterThree(World(was, []), rm, make, rm);
    assert Happen(World(was, []), rm) == World(gone, [a]);
    assert Happen(World(gone, [a]), make) == World(made, [a, b]);
    assert Happen(World(made, [a, b]), rm) == World(gone, [a, b, PutsBackOne(SECOND)]);
  }

  lemma PutBackTwice()
    ensures Replay(Progress(OneVolume(map[]), []), [PutsBackOne(FIRST), Entry(None, false), PutsBackOne(SECOND)],
                   Take(OneVolume(map[0 := FIRST])), NoTrouble()) ==
            Progress(OneVolume(map[0 := Volume(2, map["a" := 7])]), [true, true])
  {
    var gone, made, base := OneVolume(map[]), OneVolume(map[0 := SECOND]), Take(OneVolume(map[0 := FIRST]));
    var a, b, c := PutsBackOne(FIRST), Entry(None, false), PutsBackOne(SECOND);
    ReplayThree(Progress(gone, []), a, b, c, base, NoTrouble());
    assert PutBack(gone, 0, SECOND) == made;
    assert PutBack(made, 0, FIRST) == OneVolume(map[0 := Volume(2, map["a" := 7])]);
  }

  /**
   A volume removed, made anew with another driver and removed again has its first contents but the new driver:
   the oldest backup is written last, into the volume that the newest record made.
   */
  lemma PutBackVolumeKeepsNewDriver()
    ensures var d0 := OneVolume(map[0 := FIRST]);
            var rm := Change(RemoveVolume(0), true);
            var w := WorldAfter(d0, [rm, Change(CreateVolume(0, 2), true), rm]);
            var r := Rollback(w.d, w.journal, Take(d0), NoTrouble());
            AllDone(r.steps) && r.d.volumes == map[0 := Volume(2, map["a" := 7])]
  {
    hide WorldAfter, Rollback, Replay;
    RemovedMadeRemovedVolume();
    PutBackTwice();
    OnlyReplay(OneVolume(map[]), [PutsBackOne(FIRST), Entry(None, false), PutsBackOne(SECOND)],
               Take(OneVolume(map[0 := FIRST])), NoTrouble());
  }

  // --- sessions that lose or gain a volume ----------------------------------------------------------------------

  const FULL := Volume(PLAIN, map["a" := 7])

  /** Container 0 with its anonymous volume 0. */
  function WithAnonymous(): Daemon {
    Daemon(map[0 := Alone(Spec(1, {}, 1), {0})], map[0 := FULL], map[], 1)
  }

  lemma AfterOneOrTwo(w: World, a: Event, b: Event)
    ensures After(w, [a]) == Happen(w, a) && After(w, [a, b]) == Happen(Happen(w, a), b)
  {
    assert [a, b][1..] == [b] && [b][1..] == [] && [a][1..] == [];
    assert After(Happen(w, a), [b]) == Happen(Happen(w, a), b);
  }

  lemma ReplayOneOrTwo(p: Progress, a: Entry, b: Entry, base: Snapshot, trouble: Trouble)
    ensures Replay(p, [a], base, trouble) == UndoEntry(p, a, base, trouble)
    ensures Replay(p, [a, b], base, trouble) == UndoEntry(UndoEntry(p, b, base, trouble), a, base, trouble)
  {
    hide Undo;
    assert [a, b][..1] == [a] && [a][..0] == [];
    var p1 := UndoEntry(p, b, base, trouble);
    assert Replay(p, [a, b], base, trouble) == Replay(p1, [a], base, trouble);
    assert Replay(p1, [a], base, trouble) == Replay(UndoEntry(p1, a, base, trouble), [], base, trouble);
  }

  /**
   A container removed without its anonymous volume comes back with a new empty one: every step is done, the old
   volume is still there and nothing mounts it, and there is one volume more than in the baseline.
   */
  lemma RecreationGainsAVolume()
    ensures var w := WorldAfter(WithAnonymous(), [Change(RemoveContainer(0, false), true)]);
            var r := Rollback(w.d, w.journal, Take(WithAnonymous()), NoTrouble());
            && AllDone(r.steps) && !VolumesRestorable(w.d, w.journal, Take(WithAnonymous()))
            && r.d.volumes == map[0 := FULL, 1 := Volume(PLAIN, map[])] && !InUse(r.d, 0)
  {
    hide CreateContainer;
    var d0, rm := WithAnonymous(), Change(RemoveContainer(0, false), true);
    var was := Alone(Spec(1, {}, 1), {0});
    var gone := Daemon(map[], map[0 := FULL], map[], 1);
    var a := Entry(Some(RecreateContainer(0, was, map[])), false);
    AfterOneOrTwo(World(d0, []), rm, rm);
    assert WorldAfter(d0, [rm]) == World(gone, [a]);
    OnlyReplay(gone, [a], Take(d0), NoTrouble());
    ReplayOneOrTwo(Progress(gone, []), a, a, Take(d0), NoTrouble());
    CreatedWithOneVolume(gone, 0, 1);
    assert gone.(volumes := gone.volumes + map[]) == gone;
    var r := Rollback(gone, [a], Take(d0), NoTrouble());
    assert r == Progress(Daemon(map[0 := Alone(Spec(1, {}, 1), {1})], map[0 := FULL, 1 := Volume(PLAIN, map[])], map[],
        2), [true]);
    NotRestored(d0, [rm], NoTrouble());
  }

  lemma CreatedWithOneVolume(d: Daemon, c: Name, image: int)
    requires d.nextId !in d.volumes
    ensures CreateContainer(d, c, Spec(image, {}, 1), false, {}) ==
              Daemon(d.containers[c := Alone(Spec(image, {}, 1), {d.nextId})],
                     d.volumes[d.nextId := Volume(PLAIN, map[])], d.networks, d.nextId + 1)
  {
    assert NamesFrom(d.nextId, 1) == {d.nextId};
  }

  /** Where names differ after a rollback with all steps done, `VolumesRestorable` did not hold. */
  lemma NotRestored(d0: Daemon, events: seq<Event>, trouble: Trouble)
    requires WellFormed(d0)
    requires var w := WorldAfter(d0, events);
             var r := Rollback(w.d, w.journal, Take(d0), trouble);
             AllDone(r.steps) && r.d.volumes.Keys != d0.volumes.Keys
    ensures var w := WorldAfter(d0, events); !VolumesRestorable(w.d, w.journal, Take(d0))
  {
    hide AllDone, Rollback, VolumesRestorable, WorldAfter;
    RollbackRestoresNames(d0, events, trouble);
  }

  lemma RemovedWithVolume()
    ensures Happen(World(WithAnonymous(), []), Change(RemoveContainer(0, true), true)) ==
              World(Daemon(map[], map[], map[], 1),
                    [Entry(Some(RecreateContainer(0, Alone(Spec(1, {}, 1), {0}), map[0 := FULL])), false)])
  {
    var d0 := WithAnonymous();
    var was := d0.containers[0];
    assert was.Mounts() == {0};
    var captured := map v | v in was.Mounts() && v in d0.volumes :: d0.volumes[v];
    assert captured == map[0 := FULL];
    assert Capture(d0, RemoveContainer(0, true)) == Some(RecreateContainer(0, was, captured));
    assert DeleteContainer(d0, 0, true) == Daemon(map[], map[], map[], 1);
  }

  function Remade(): Daemon {
    Daemon(map[0 := Alone(Spec(1, {}, 0), {})], map[], map[], 1)
  }

  function RemadeJournal(): seq<Entry> {
    [Entry(Some(RecreateContainer(0, Alone(Spec(1, {}, 1), {0}), map[0 := FULL])), false), Entry(None, false)]
  }

  lemma RemadeHistory()
    ensures WorldAfter(WithAnonymous(), [Change(RemoveContainer(0, true), true),
                                         Change(RunContainer(0, Spec(1, {}, 0), false, {}), true)]) ==
            World(Remade(), RemadeJournal())
  {
    hide CreateContainer;
    AfterOneOrTwo(World(WithAnonymous(), []), Change(RemoveContainer(0, true), true),
                  Change(RunContainer(0, Spec(1, {}, 0), false, {}), true));
    RemovedWithVolume();
    CreatedMountFree(Daemon(map[], map[], map[], 1), 0, Spec(1, {}, 0), false, {});
  }

  lemma RemadeRollback()
    ensures Rollback(Remade(), RemadeJournal(), Take(WithAnonymous()), NoTrouble()) == Progress(Remade(), [true])
  {
    hide CreateContainer;
    var a, b := RemadeJournal()[0], RemadeJournal()[1];
    OnlyReplay(Remade(), [a, b], Take(WithAnonymous()), NoTrouble());
    ReplayOneOrTwo(Progress(Remade(), []), a, b, Take(WithAnonymous()), NoTrouble());
  }

  /**
   A container removed together with its volume, and made anew without one, is there when the rollback looks for it,
   so the volume captured with it is not put back: every step is done and a baseline volume is lost.
   */
  lemma RemadeContainerLosesAVolume()
    ensures var events := [Change(RemoveContainer(0, true), true),
                           Change(RunContainer(0, Spec(1, {}, 0), false, {}), true)];
            var w := WorldAfter(WithAnonymous(), events);
            var r := Rollback(w.d, w.journal, Take(WithAnonymous()), NoTrouble());
            && AllDone(r.steps) && !VolumesRestorable(w.d, w.journal, Take(WithAnonymous()))
            && WithAnonymous().volumes == map[0 := FULL] && r.d.volumes == map[]
  {
    hide Rollback, WorldAfter, VolumesRestorable;
    RemadeHistory();
    RemadeRollback();
    var events := [Change(RemoveContainer(0, true), true), Change(RunContainer(0, Spec(1, {}, 0), false, {}), true)];
    assert WorldAfter(WithAnonymous(), events) == World(Remade(), RemadeJournal());
    assert 0 in WithAnonymous().volumes.Keys;
    NotRestored(WithAnonymous(), events, NoTrouble());
  }
}
