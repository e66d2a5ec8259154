/**
 What the objects that a rollback brings back are: networks and volumes with the driver they had, whole volumes, also
 those that went with a container.
 */
module SessionValues {
  import opened Wrappers
  import opened Session
  import opened SessionNames
  import opened SessionContents
  import opened SessionBounds

  // --- networks ----------------------------------------------------------------------------------------------------

  /** What the network was when it was last there, `held` before the events. */
  function LastNetwork(w: World, events: seq<Event>, n: Name, held: Network): Network
    decreases |events|
  {
    if events == [] then held
    else
      var w' := Happen(w, events[0]);
      LastNetwork(w', events[1..], n, if n in w'.d.networks then w'.d.networks[n] else held)
  }

  /** The network in the newest record of its removal. */
  function NewestNetwork(journal: seq<Entry>, n: Name): Option<Network> {
    if journal == [] then None
    else
      var e := journal[|journal| - 1];
      if RecreatesNetwork(e, n) then Some(e.inverse.value.network) else NewestNetwork(journal[..|journal| - 1], n)
  }

  predicate NetworkHeld(w: World, n: Name, held: Network) {
    if n in w.d.networks then w.d.networks[n] == held else NewestNetwork(w.journal, n) == Some(held)
  }

  lemma HappenHoldsNetwork(w: World, e: Event, n: Name, held: Network)
    requires NetworkHeld(w, n, held)
    ensures var w' := Happen(w, e); NetworkHeld(w', n, if n in w'.d.networks then w'.d.networks[n] else held)
  {
    hide CreateContainer, DeleteContainer, DeleteVolume, RestoreFiles, EnsureVolume;
    if e.Change? {
      var entry := Entry(Capture(w.d, e.op), false);
      assert (w.journal + [entry])[..|w.journal|] == w.journal;
      VolumeOpsKeepNetworks(w.d, e.op);
    }
  }

  lemma VolumeOpsKeepNetworks(d: Daemon, op: Op)
    ensures !op.CreateNetwork? && !op.RemoveNetwork? ==> Apply(d, op).networks == d.networks
  {
  }

  lemma {:induction false} NetworkStaysHeld(w: World, events: seq<Event>, n: Name, held: Network)
    requires NetworkHeld(w, n, held)
    ensures NetworkHeld(After(w, events), n, LastNetwork(w, events, n, held))
    decreases |events|
  {
    hide Happen, NetworkHeld;
    if events != [] {
      var w' := Happen(w, events[0]);
      HappenHoldsNetwork(w, events[0], n, held);
      NetworkStaysHeld(w', events[1..], n, if n in w'.d.networks then w'.d.networks[n] else held);
    }
  }

  lemma {:induction false} ReplayedNetwork(p: Progress, journal: seq<Entry>, n: Name, held: Network, base: Snapshot,
                                           trouble: Trouble)
    requires Pending(journal) && AllDone(Replay(p, journal, base, trouble).steps)
    requires n in base.networks && NetworkHeld(World(p.d, journal), n, held)
    ensures var d := Replay(p, journal, base, trouble).d; n in d.networks && d.networks[n] == held
    decreases |journal|
  {
    hide AllDone, Undo;
    if journal != [] {
      var e, older := journal[|journal| - 1], journal[..|journal| - 1];
      var p' := UndoEntry(p, e, base, trouble);
      ReplayDone(p', older, base, trouble);
      UndoneNetwork(p, e, n, base, trouble);
      ReplayedNetwork(p', older, n, held, base, trouble);
    }
  }

  lemma UndoneNetwork(p: Progress, e: Entry, n: Name, base: Snapshot, trouble: Trouble)
    requires !e.done && AllDone(UndoEntry(p, e, base, trouble).steps) && n in base.networks
    ensures var d := UndoEntry(p, e, base, trouble).d;
            && (n in p.d.networks ==> n in d.networks && d.networks[n] == p.d.networks[n])
            && (n !in p.d.networks ==> (n in d.networks <==> RecreatesNetwork(e, n)))
            && (n !in p.d.networks && RecreatesNetwork(e, n) ==> d.networks[n] == e.inverse.value.network)
  {
    hide AllDone, Step, UndoEntry;
    UndoCases(p, e, base, trouble);
  }

  /** Over every history, a baseline network is after the rollback what it was when it was last there. */
  lemma NetworksComeBack(d0: Daemon, events: seq<Event>, n: Name, trouble: Trouble)
    requires WellFormed(d0) && n in d0.networks
    requires var w := WorldAfter(d0, events); AllDone(Rollback(w.d, w.journal, Take(d0), trouble).steps)
    ensures var w := WorldAfter(d0, events);
            var r := Rollback(w.d, w.journal, Take(d0), trouble).d;
            n in r.networks && r.networks[n] == LastNetwork(World(d0, []), events, n, d0.networks[n])
  {
    hide AllDone, Rollback, Replay, SomeRecreates, SomeRecreatesNetwork, OwnVolumesOnly, Dropped, InUse, LastNetwork;
    var w, base := WorldAfter(d0, events), Take(d0);
    var last := LastNetwork(World(d0, []), events, n, d0.networks[n]);
    SessionRecorded(d0, events);
    NetworkStaysHeld(World(d0, []), events, n, d0.networks[n]);
    var d1, p1, p2 := RollbackPhases(w.d, w.journal, base, trouble);
    ReplayedNetwork(p1, w.journal, n, last, base, trouble);
  }

  predicate CreatesNetwork(e: Event, n: Name) {
    e.Change? && e.carriedOut && e.op.CreateNetwork? && e.op.n == n
  }

  /** Whenever the network is created anew in its absence, it is created as `network`. */
  ghost predicate OnlyMadeAs(w: World, events: seq<Event>, n: Name, network: Network)
    decreases |events|
  {
    events == [] ||
    (&& (CreatesNetwork(events[0], n) && n !in w.d.networks ==> events[0].op.network == network)
     && OnlyMadeAs(Happen(w, events[0]), events[1..], n, network))
  }

  lemma {:induction false} LastIsTheSame(w: World, events: seq<Event>, n: Name, network: Network)
    requires OnlyMadeAs(w, events, n, network) && (n in w.d.networks ==> w.d.networks[n] == network)
    ensures LastNetwork(w, events, n, network) == network
    decreases |events|
  {
    hide CreateContainer, DeleteContainer, DeleteVolume, RestoreFiles, EnsureVolume;
    if events != [] {
      if events[0].Change? {
        VolumeOpsKeepNetworks(w.d, events[0].op);
      }
      LastIsTheSame(Happen(w, events[0]), events[1..], n, network);
    }
  }

  /** So a baseline network that no event remade otherwise has its baseline driver again. */
  lemma NetworksKeepTheirDriver(d0: Daemon, events: seq<Event>, n: Name, trouble: Trouble)
    requires WellFormed(d0) && n in d0.networks && OnlyMadeAs(World(d0, []), events, n, d0.networks[n])
    requires var w := WorldAfter(d0, events); AllDone(Rollback(w.d, w.journal, Take(d0), trouble).steps)
    ensures var w := WorldAfter(d0, events);
            var r := Rollback(w.d, w.journal, Take(d0), trouble).d;
            n in r.networks && r.networks[n] == d0.networks[n]
  {
    hide AllDone, Rollback, LastNetwork, OnlyMadeAs;
    NetworksComeBack(d0, events, n, trouble);
    LastIsTheSame(World(d0, []), events, n, d0.networks[n]);
  }

  function OneNetwork(networks: map<Name, Network>): Daemon {
    Daemon(map[], map[], networks, 0)
  }

  lemma RemadeNetwork()
    ensures var rm := Change(RemoveNetwork(0), true);
            var w := WorldAfter(OneNetwork(map[0 := Network(1)]), [rm, Change(CreateNetwork(0, Network(2)), true), rm]);
            && w == World(OneNetwork(map[]), [Entry(Some(RecreateNetwork(0, Network(1))), false), Entry(None, false),
                                              Entry(Some(RecreateNetwork(0, Network(2))), false)])
  {
    var rm, make := Change(RemoveNetwork(0), true), Change(CreateNetwork(0, Network(2)), true);
    var d0, gone, made := OneNetwork(map[0 := Network(1)]), OneNetwork(map[]), OneNetwork(map[0 := Network(2)]);
    var a := Entry(Some(RecreateNetwork(0, Network(1))), false);
    var b := Entry(None, false);
    AfterThree(World(d0, []), rm, make, rm);
    assert Happen(World(d0, []), rm) == World(gone, [a]);
    assert Happen(World(gone, [a]), make) == World(made, [a, b]);
  }

  /** A network removed, made anew with another driver and removed again comes back with the new one, every step done:
      its newest record is replayed first. */
  lemma RecreatedNetworkKeepsNewDriver()
    ensures var d0, rm := OneNetwork(map[0 := Network(1)]), Change(RemoveNetwork(0), true);
            var w := WorldAfter(d0, [rm, Change(CreateNetwork(0, Network(2)), true), rm]);
            Rollback(w.d, w.journal, Take(d0), NoTrouble()) == Progress(OneNetwork(map[0 := Network(2)]), [true, true])
  {
    hide WorldAfter, Rollback, Replay;
    RemadeNetwork();
    var d0, gone := OneNetwork(map[0 := Network(1)]), OneNetwork(map[]);
    var a, c := Entry(Some(RecreateNetwork(0, Network(1))), false), Entry(Some(RecreateNetwork(0, Network(2))), false);
    OnlyReplay(gone, [a, Entry(None, false), c], Take(d0), NoTrouble());
    ReplayThree(Progress(gone, []), a, Entry(None, false), c, Take(d0), NoTrouble());
    assert UndoEntry(Progress(gone, []), c, Take(d0), NoTrouble()) ==
        Progress(OneNetwork(map[0 := Network(2)]), [true]);
  }

  // --- drivers of named volumes ------------------------------------------------------------------------------------

  predicate BringsVolume(e: Entry, v: Name) {
    e.inverse.Some? && e.inverse.value.RecreateContainer? && v in Brought(e.inverse.value)
  }

  function MetaIn(d: Daemon, v: Name): Option<int> {
    if v in d.volumes then Some(d.volumes[v].meta) else None
  }

  /** The driver of the volume after the journal, while recreated containers find it there. */
  function MetaReplayed(journal: seq<Entry>, v: Name, meta: Option<int>): Option<int> {
    if journal == [] then meta
    else
      var e := journal[|journal| - 1];
      MetaReplayed(journal[..|journal| - 1], v,
                   if PutsBack(e, v) && meta.None? then Some(e.inverse.value.backup.meta)
                   else if Drops(e, v) then None else meta)
  }

  /** Whenever a record brings the volume with a container, it is there. */
  ghost predicate Steady(journal: seq<Entry>, v: Name, present: bool) {
    journal == [] ||
    (var e := journal[|journal| - 1];
     && (BringsVolume(e, v) ==> present)
     && Steady(journal[..|journal| - 1], v, PutsBack(e, v) || (!Drops(e, v) && present)))
  }

  /** What recreating a container does to a volume that is no new one. */
  lemma RecreatedVolume(d: Daemon, c: Name, was: Container, volumes: map<Name, Volume>, v: Name)
    requires v < d.nextId
    ensures var d' := Recreated(d, c, was, volumes);
            && d'.nextId >= d.nextId
            && if c in d.containers then d' == d
               else if v in d.volumes then
                 v in d'.volumes &&
                 d'.volumes[v] == d.volumes[v].(files := if v in volumes then d.volumes[v].files + volumes[v].files
                                                         else d.volumes[v].files)
               else if v in volumes then v in d'.volumes && d'.volumes[v] == volumes[v]
               else (v in d'.volumes <==> v in was.spec.binds)
    ensures Recreated(d, c, was, volumes).containers.Keys == d.containers.Keys + {c}
  {
  }

  lemma UndoneMeta(p: Progress, e: Entry, v: Name, base: Snapshot, trouble: Trouble)
    requires !e.done && AllDone(UndoEntry(p, e, base, trouble).steps)
    requires v in base.volumes && v < p.d.nextId && (BringsVolume(e, v) ==> v in p.d.volumes)
    ensures var d := UndoEntry(p, e, base, trouble).d;
            && MetaIn(d, v) == (if PutsBack(e, v) && v !in p.d.volumes then Some(e.inverse.value.backup.meta)
                                else if Drops(e, v) then None else MetaIn(p.d, v))
            && d.nextId >= p.d.nextId
  {
    hide AllDone, Step, UndoEntry, Recreated;
    UndoCases(p, e, base, trouble);
    if e.inverse.Some? && e.inverse.value.RecreateContainer? {
      var i := e.inverse.value;
      RecreatedVolume(p.d, i.c, i.container, i.volumes, v);
    }
  }

  lemma {:induction false} ReplayedMeta(p: Progress, journal: seq<Entry>, v: Name, base: Snapshot, trouble: Trouble)
    requires Pending(journal) && AllDone(Replay(p, journal, base, trouble).steps)
    requires v in base.volumes && v < p.d.nextId && Steady(journal, v, v in p.d.volumes)
    ensures MetaIn(Replay(p, journal, base, trouble).d, v) == MetaReplayed(journal, v, MetaIn(p.d, v))
    decreases |journal|
  {
    hide AllDone, Undo, BringsVolume;
    if journal != [] {
      var e, older := journal[|journal| - 1], journal[..|journal| - 1];
      var p' := UndoEntry(p, e, base, trouble);
      ReplayDone(p', older, base, trouble);
      UndoneMeta(p, e, v, base, trouble);
      ReplayedMeta(p', older, v, base, trouble);
    }
  }

  /** The volume's removal or restoring is asked for while it is missing. */
  predicate AsksInAbsence(w: World, e: Event, v: Name) {
    CapturesVolume(e, v) && v !in w.d.volumes
  }

  /** The driver that the volume last had, until somebody first asks for its removal or restoring in its absence. */
  function LastMeta(w: World, events: seq<Event>, v: Name, held: int): int
    decreases |events|
  {
    if events == [] || AsksInAbsence(w, events[0], v) then held
    else
      var w' := Happen(w, events[0]);
      LastMeta(w', events[1..], v, if v in w'.d.volumes then w'.d.volumes[v].meta else held)
  }

  /** No container owns the volume as an anonymous one, and none mounts it when it is missing. */
  ghost predicate Named(d: Daemon, v: Name) {
    && v < d.nextId && (forall c :: c in d.containers ==> v !in d.containers[c].anonymous)
    && (forall c :: c in d.containers && v in d.containers[c].spec.binds ==> v in d.volumes)
  }

  /** The journal gives back the driver `held`: while the volume is missing, or, once it was asked for in its absence,
      in any case. */
  ghost predicate MetaHeld(w: World, v: Name, held: int, asked: bool) {
    && Named(w.d, v) && Steady(w.journal, v, true) && (v in w.d.volumes || Steady(w.journal, v, false))
    && (if asked then forall m :: MetaReplayed(w.journal, v, m) == Some(held)
        else
          && (forall m :: MetaReplayed(w.journal, v, Some(m)) == Some(m))
          && (if v in w.d.volumes then w.d.volumes[v].meta == held
              else MetaReplayed(w.journal, v, None) == Some(held)))
  }

  lemma MoreMeta(journal: seq<Entry>, e: Entry, v: Name)
    ensures forall m :: MetaReplayed(journal + [e], v, m) ==
                        MetaReplayed(journal, v,
                                     if PutsBack(e, v) && m.None? then Some(e.inverse.value.backup.meta)
                                     else if Drops(e, v) then None else m)
    ensures forall present :: Steady(journal + [e], v, present) <==>
              (BringsVolume(e, v) ==> present) && Steady(journal, v, PutsBack(e, v) || (!Drops(e, v) && present))
  {
    hide BringsVolume, PutsBack, Drops;
    assert (journal + [e])[..|journal|] == journal;
  }

  /** What one op does to a named volume, and what it records about it. */
  lemma ChangeOfNamed(d: Daemon, op: Op, v: Name)
    requires Named(d, v)
    ensures Named(Apply(d, op), v)
    ensures v in d.volumes && v in Apply(d, op).volumes ==> Apply(d, op).volumes[v].meta == d.volumes[v].meta
    ensures v in d.volumes && v !in Apply(d, op).volumes ==> op == RemoveVolume(v)
  {
  }

  lemma RecordOfNamed(d: Daemon, op: Op, v: Name)
    requires Named(d, v)
    ensures var e := Entry(Capture(d, op), false);
            && (PutsBack(e, v) ==> v in d.volumes && e.inverse.value.backup.meta == d.volumes[v].meta)
            && (op == RemoveVolume(v) && v in d.volumes ==> PutsBack(e, v))
            && (BringsVolume(e, v) ==> v in d.volumes && op.RemoveContainer?)
            && (Drops(e, v) <==> AsksInAbsence(World(d, []), Change(op, true), v))
  {
  }

  lemma HappenHoldsMeta(w: World, e: Event, v: Name, held: int, asked: bool)
    requires MetaHeld(w, v, held, asked)
    ensures var w' := Happen(w, e);
            var asked' := asked || AsksInAbsence(w, e, v);
            MetaHeld(w', v, if v in w'.d.volumes && !asked' then w'.d.volumes[v].meta else held, asked')
  {
    hide Apply, Capture, BringsVolume, PutsBack, Drops, MetaReplayed, Steady;
    if e.Change? {
      MoreMeta(w.journal, Entry(Capture(w.d, e.op), false), v);
      RecordOfNamed(w.d, e.op, v);
      ChangeOfNamed(w.d, e.op, v);
    }
  }

  lemma {:induction false} MetaStaysHeld(w: World, events: seq<Event>, v: Name, held: int, asked: bool)
    returns (asked': bool)
    requires MetaHeld(w, v, held, asked)
    ensures MetaHeld(After(w, events), v, if asked then held else LastMeta(w, events, v, held), asked')
    decreases |events|
  {
    hide Happen, MetaHeld, AsksInAbsence;
    if events == [] {
      asked' := asked;
    } else {
      var w', e := Happen(w, events[0]), events[0];
      HappenHoldsMeta(w, e, v, held, asked);
      asked' := MetaStaysHeld(w', events[1..], v,
                              if v in w'.d.volumes && !(asked || AsksInAbsence(w, e, v)) then w'.d.volumes[v].meta
                              else held, asked || AsksInAbsence(w, e, v));
    }
  }

  /** Over every history: a baseline volume that no container owns comes back, with the driver it last had before
      anybody asked for it in its absence. */
  lemma NamedVolumesComeBack(d0: Daemon, events: seq<Event>, v: Name, trouble: Trouble)
    requires WellFormed(d0) && v in d0.volumes
    requires forall c :: c in d0.containers ==> v !in d0.containers[c].anonymous
    requires var w := WorldAfter(d0, events); AllDone(Rollback(w.d, w.journal, Take(d0), trouble).steps)
    ensures var w := WorldAfter(d0, events);
            var r := Rollback(w.d, w.journal, Take(d0), trouble).d;
            v in r.volumes && r.volumes[v].meta == LastMeta(World(d0, []), events, v, d0.volumes[v].meta)
  {
    hide AllDone, Rollback, Replay, SomeRecreates, SomeRecreatesNetwork, OwnVolumesOnly, Dropped, InUse, LastMeta,
         MetaReplayed, Steady;
    var w, base := WorldAfter(d0, events), Take(d0);
    SessionRecorded(d0, events);
    NothingToReplayMeta(v);
    var asked := MetaStaysHeld(World(d0, []), events, v, d0.volumes[v].meta, false);
    var d1, p1, p2 := RollbackPhases(w.d, w.journal, base, trouble);
    ReplayedMeta(p1, w.journal, v, base, trouble);
  }

  lemma NothingToReplayMeta(v: Name)
    ensures forall m :: MetaReplayed([], v, m) == m
    ensures Steady([], v, true)
  {
  }

  // --- volumes that are not made anew, also those of containers ----------------------------------------------------

  /** The driver of `was`, and with `whole` its files. */
  predicate Like(x: Volume, was: Volume, whole: bool) {
    x.meta == was.meta && (whole ==> x.files == was.files)
  }

  /** The volume, once it is gone, is not made anew; with `whole` its files stay as they are while it is there. */
  ghost predicate NotMadeAnew(w: World, events: seq<Event>, v: Name, whole: bool)
    decreases |events|
  {
    events == [] ||
    (var w' := Happen(w, events[0]);
     && (v in w'.d.volumes ==> v in w.d.volumes && (whole ==> w'.d.volumes[v].files == w.d.volumes[v].files))
     && NotMadeAnew(w', events[1..], v, whole))
  }

  predicate Owns(d: Daemon, c: Name, v: Name) {
    c in d.containers && v in d.containers[c].anonymous
  }

  /** What the record holds of the volume is like `was`. */
  predicate RecordsLike(e: Entry, v: Name, was: Volume, whole: bool) {
    e.inverse.Some? ==>
      match e.inverse.value
      case PutBackVolume(x, backup) => x == v ==> Like(backup, was, whole)
      case DropVolume(x) => x != v
      case RecreateContainer(_, _, volumes) => v in volumes ==> Like(volumes[v], was, whole)
      case _ => true
  }

  ghost predicate AllRecordLike(journal: seq<Entry>, v: Name, was: Volume, whole: bool) {
    forall j :: 0 <= j < |journal| ==> RecordsLike(journal[j], v, was, whole)
  }

  /** The record brings the volume back: by itself, or with its owner. */
  predicate BringsBack(e: Entry, v: Name, owner: Option<Name>) {
    || PutsBack(e, v)
    || (owner.Some? && Recreates(e, owner.value) && v in e.inverse.value.volumes)
  }

  /** The newest record that speaks of the volume or of its owner brings the volume back, and all older ones hold it as
      it was. */
  ghost predicate Returns(journal: seq<Entry>, v: Name, owner: Option<Name>, was: Volume, whole: bool) {
    journal != [] &&
    (var e, older := journal[|journal| - 1], journal[..|journal| - 1];
     if BringsBack(e, v, owner) then AllRecordLike(journal, v, was, whole)
     else !BringsVolume(e, v) && (owner.Some? ==> !Recreates(e, owner.value)) && Returns(older, v, owner, was, whole))
  }

  lemma UndoneLike(p: Progress, e: Entry, v: Name, was: Volume, whole: bool, owner: Option<Name>, base: Snapshot,
                   trouble: Trouble)
    requires !e.done && AllDone(UndoEntry(p, e, base, trouble).steps)
    requires v in base.volumes && v < p.d.nextId && RecordsLike(e, v, was, whole)
    requires if v in p.d.volumes then Like(p.d.volumes[v], was, whole)
             else BringsBack(e, v, owner) &&
                  (owner.Some? ==> owner.value in base.containers && owner.value !in p.d.containers)
    ensures var d := UndoEntry(p, e, base, trouble).d; v in d.volumes && Like(d.volumes[v], was, whole)
    ensures p.d.nextId <= UndoEntry(p, e, base, trouble).d.nextId
  {
    hide AllDone, Step, UndoEntry, Recreated;
    UndoCases(p, e, base, trouble);
    if e.inverse.Some? && e.inverse.value.RecreateContainer? {
      var i := e.inverse.value;
      RecreatedVolume(p.d, i.c, i.container, i.volumes, v);
    }
    assert was.files + was.files == was.files;
  }

  lemma {:induction false} ReplayedLike(p: Progress, journal: seq<Entry>, v: Name, was: Volume, whole: bool,
                                        base: Snapshot, trouble: Trouble)
    requires Pending(journal) && AllDone(Replay(p, journal, base, trouble).steps)
    requires v in base.volumes && v < p.d.nextId && AllRecordLike(journal, v, was, whole)
    requires v in p.d.volumes && Like(p.d.volumes[v], was, whole)
    ensures var d := Replay(p, journal, base, trouble).d; v in d.volumes && Like(d.volumes[v], was, whole)
    decreases |journal|
  {
    hide AllDone, Undo, RecordsLike, Like;
    if journal != [] {
      var e, older := journal[|journal| - 1], journal[..|journal| - 1];
      var p' := UndoEntry(p, e, base, trouble);
      ReplayDone(p', older, base, trouble);
      UndoneLike(p, e, v, was, whole, None, base, trouble);
      ReplayedLike(p', older, v, was, whole, base, trouble);
    }
  }

  /** A record that does not bring the missing volume leaves it missing, and its owner too. */
  lemma UndoneStillMissing(p: Progress, e: Entry, v: Name, owner: Option<Name>, base: Snapshot, trouble: Trouble)
    requires !e.done && AllDone(UndoEntry(p, e, base, trouble).steps)
    requires v !in p.d.volumes && v < p.d.nextId && !PutsBack(e, v) && !BringsVolume(e, v)
    requires owner.Some? ==> owner.value !in p.d.containers && !Recreates(e, owner.value)
    ensures var d := UndoEntry(p, e, base, trouble).d;
            && v !in d.volumes && v < d.nextId
            && (owner.Some? ==> owner.value !in d.containers)
  {
    hide AllDone, Step, UndoEntry, Recreated;
    UndoCases(p, e, base, trouble);
    if e.inverse.Some? && e.inverse.value.RecreateContainer? {
      var i := e.inverse.value;
      RecreatedVolume(p.d, i.c, i.container, i.volumes, v);
    }
  }

  lemma {:induction false} ReplayedReturns(p: Progress, journal: seq<Entry>, v: Name, owner: Option<Name>, was: Volume,
                                           whole: bool, base: Snapshot, trouble: Trouble)
    requires Pending(journal) && AllDone(Replay(p, journal, base, trouble).steps)
    requires v in base.volumes && v < p.d.nextId && v !in p.d.volumes && Returns(journal, v, owner, was, whole)
    requires owner.Some? ==> owner.value in base.containers && owner.value !in p.d.containers
    ensures var d := Replay(p, journal, base, trouble).d; v in d.volumes && Like(d.volumes[v], was, whole)
    decreases |journal|
  {
    hide AllDone, Undo, RecordsLike, Like, BringsVolume, BringsBack, Recreates, PutsBack;
    var e, older := journal[|journal| - 1], journal[..|journal| - 1];
    var p' := UndoEntry(p, e, base, trouble);
    ReplayDone(p', older, base, trouble);
    if BringsBack(e, v, owner) {
      UndoneLike(p, e, v, was, whole, owner, base, trouble);
      ReplayedLike(p', older, v, was, whole, base, trouble);
    } else {
      assert !PutsBack(e, v) by { BringsByItself(e, v, owner); }
      UndoneStillMissing(p, e, v, owner, base, trouble);
      ReplayedReturns(p', older, v, owner, was, whole, base, trouble);
    }
  }

  lemma BringsByItself(e: Entry, v: Name, owner: Option<Name>)
    ensures PutsBack(e, v) ==> BringsBack(e, v, owner)
  {
  }

  /** Every owner of the volume was one from the beginning and is not run anew; a missing volume is mounted nowhere. */
  ghost predicate Kept(w: World, events: seq<Event>, v: Name, owners: set<Name>) {
    && v < w.d.nextId
    && (forall c :: Owns(w.d, c, v) ==> c in owners)
    && (forall c :: c in owners ==> NeverRunAnew(w, events, c))
    && (v !in w.d.volumes ==> !InUse(w.d, v))
  }

  /** The volume is there as it was, or the journal brings it back. */
  ghost predicate VolumeHeld(w: World, v: Name, owners: set<Name>, was: Volume, whole: bool) {
    if v in w.d.volumes then Like(w.d.volumes[v], was, whole) && AllRecordLike(w.journal, v, was, whole)
    else exists owner: Option<Name> ::
           && (owner.Some? ==> owner.value in owners && owner.value !in w.d.containers)
           && Returns(w.journal, v, owner, was, whole)
  }

  lemma MoreLike(journal: seq<Entry>, e: Entry, v: Name, was: Volume, whole: bool)
    ensures AllRecordLike(journal + [e], v, was, whole) <==>
              AllRecordLike(journal, v, was, whole) && RecordsLike(e, v, was, whole)
    ensures forall owner :: Returns(journal + [e], v, owner, was, whole) <==>
              if BringsBack(e, v, owner) then AllRecordLike(journal + [e], v, was, whole)
              else !BringsVolume(e, v) && (owner.Some? ==> !Recreates(e, owner.value)) &&
                   Returns(journal, v, owner, was, whole)
  {
    hide RecordsLike, BringsBack, BringsVolume, Recreates;
    var more := journal + [e];
    assert more[..|journal|] == journal && more[|journal|] == e;
    assert forall j :: 0 <= j < |journal| ==> more[j] == journal[j];
  }

  /** What one op records of a volume that is there, and how the volume can go. */
  lemma ChangeOfPresent(d: Daemon, op: Op, v: Name, was: Volume, whole: bool)
    requires v in d.volumes && Like(d.volumes[v], was, whole) && v < d.nextId
    ensures RecordsLike(Entry(Capture(d, op), false), v, was, whole)
    ensures v in Apply(d, op).volumes ==> Apply(d, op).volumes[v].meta == was.meta
    ensures v !in Apply(d, op).volumes ==>
              && !InUse(Apply(d, op), v)
              && (op == RemoveVolume(v) ||
                  (op.RemoveContainer? && op.volumes && Owns(d, op.c, v) && op.c !in Apply(d, op).containers))
  {
  }

  lemma RemovalIsRecorded(d: Daemon, op: Op, v: Name)
    requires v in d.volumes
    ensures op == RemoveVolume(v) ==> BringsBack(Entry(Capture(d, op), false), v, None)
    ensures op.RemoveContainer? && op.volumes && Owns(d, op.c, v) ==>
              BringsBack(Entry(Capture(d, op), false), v, Some(op.c))
  {
  }

  /** What one op does to a volume that is missing, and records about it. */
  lemma ChangeOfMissing(d: Daemon, op: Op, v: Name)
    requires v !in d.volumes && !InUse(d, v) && v < d.nextId
    ensures var e := Entry(Capture(d, op), false); !PutsBack(e, v) && !BringsVolume(e, v)
    ensures forall c :: c !in d.containers ==> !Recreates(Entry(Capture(d, op), false), c)
    ensures v !in Apply(d, op).volumes ==> !InUse(Apply(d, op), v)
  {
    if op.RemoveContainer? && op.c in d.containers {
      assert v !in d.containers[op.c].Mounts();
    }
  }

  lemma OwnersStay(d: Daemon, op: Op, v: Name)
    requires v < d.nextId
    ensures v < Apply(d, op).nextId
    ensures forall c :: Owns(Apply(d, op), c, v) ==> Owns(d, c, v)
    ensures forall c :: c in Apply(d, op).containers && c !in d.containers ==>
              RunsAnew(World(d, []), Change(op, true), c)
  {
  }

  lemma HappenKeepsOwners(w: World, events: seq<Event>, v: Name, owners: set<Name>, was: Volume, whole: bool)
    requires events != [] && Kept(w, events, v, owners)
    requires v in w.d.volumes ==> Like(w.d.volumes[v], was, whole)
    ensures Kept(Happen(w, events[0]), events[1..], v, owners)
  {
    hide Apply, InUse, Capture, Like, NamesFrom;
    var e := events[0];
    if e.Change? {
      OwnersStay(w.d, e.op, v);
      if v in w.d.volumes {
        ChangeOfPresent(w.d, e.op, v, was, whole);
      } else {
        ChangeOfMissing(w.d, e.op, v);
      }
    } else {
      SameContainersSameUse(w.d, Happen(w, e).d, v);
    }
  }

  lemma HappenHoldsVolume(w: World, events: seq<Event>, v: Name, owners: set<Name>, was: Volume, whole: bool)
    requires events != [] && Kept(w, events, v, owners) && VolumeHeld(w, v, owners, was, whole)
    requires NotMadeAnew(w, events, v, whole)
    ensures VolumeHeld(Happen(w, events[0]), v, owners, was, whole)
  {
    hide Apply, InUse, Capture, BringsBack, BringsVolume, Returns, AllRecordLike, RecordsLike, Recreates, PutsBack;
    var e, w' := events[0], Happen(w, events[0]);
    if e.Change? {
      var entry := Entry(Capture(w.d, e.op), false);
      MoreLike(w.journal, entry, v, was, whole);
      if v in w.d.volumes {
        ChangeOfPresent(w.d, e.op, v, was, whole);
        RemovalIsRecorded(w.d, e.op, v);
        if v !in w'.d.volumes {
          var owner := if e.op == RemoveVolume(v) then None else Some(e.op.c);
          assert Returns(w'.journal, v, owner, was, whole);
        }
      } else {
        var owner: Option<Name> :| (owner.Some? ==> owner.value in owners && owner.value !in w.d.containers) &&
                                   Returns(w.journal, v, owner, was, whole);
        ChangeOfMissing(w.d, e.op, v);
        OwnersStay(w.d, e.op, v);
        assert Returns(w'.journal, v, owner, was, whole) by {
          if BringsBack(entry, v, owner) {
            NothingBroughtBack(entry, v, owner);
          }
        }
        assert owner.Some? ==> owner.value !in w'.d.containers;
      }
    }
  }

  lemma NothingBroughtBack(e: Entry, v: Name, owner: Option<Name>)
    requires BringsBack(e, v, owner)
    ensures PutsBack(e, v) || (owner.Some? && Recreates(e, owner.value))
  {
  }

  lemma {:induction false} VolumeStaysHeld(w: World, events: seq<Event>, v: Name, owners: set<Name>, was: Volume,
                                           whole: bool)
    requires Kept(w, events, v, owners) && VolumeHeld(w, v, owners, was, whole) && NotMadeAnew(w, events, v, whole)
    ensures VolumeHeld(After(w, events), v, owners, was, whole)
    decreases |events|
  {
    hide Happen, Kept, VolumeHeld;
    if events != [] {
      HappenKeepsOwners(w, events, v, owners, was, whole) by { HeldIsLike(w, v, owners, was, whole); }
      HappenHoldsVolume(w, events, v, owners, was, whole);
      VolumeStaysHeld(Happen(w, events[0]), events[1..], v, owners, was, whole);
    }
  }

  lemma HeldIsLike(w: World, v: Name, owners: set<Name>, was: Volume, whole: bool)
    requires VolumeHeld(w, v, owners, was, whole)
    ensures v in w.d.volumes ==> Like(w.d.volumes[v], was, whole)
  {
  }

  /**
   Over every history in which a baseline volume, once gone, is not made anew, nor a container that owned it run anew
   after it was gone, the volume comes back with its baseline driver; and whole, if its files stayed as they were. So do
   the anonymous volumes that go with a removed container.
   */
  lemma VolumesComeBack(d0: Daemon, events: seq<Event>, v: Name, whole: bool, trouble: Trouble)
    requires WellFormed(d0) && v in d0.volumes && NotMadeAnew(World(d0, []), events, v, whole)
    requires forall c :: Owns(d0, c, v) ==> NeverRunAnew(World(d0, []), events, c)
    requires var w := WorldAfter(d0, events); AllDone(Rollback(w.d, w.journal, Take(d0), trouble).steps)
    ensures var w := WorldAfter(d0, events);
            var r := Rollback(w.d, w.journal, Take(d0), trouble).d;
            && v in r.volumes && r.volumes[v].meta == d0.volumes[v].meta
            && (whole ==> r.volumes[v] == d0.volumes[v])
  {
    hide AllDone, Rollback, Replay, SomeRecreates, SomeRecreatesNetwork, OwnVolumesOnly, Dropped, InUse, Returns,
         AllRecordLike, NotMadeAnew, NeverRunAnew;
    var w, base, was := WorldAfter(d0, events), Take(d0), d0.volumes[v];
    var owners := set c | c in d0.containers && v in d0.containers[c].anonymous;
    SessionRecorded(d0, events);
    NothingRecorded(v, was, whole);
    VolumeStaysHeld(World(d0, []), events, v, owners, was, whole);
    var d1, p1, p2 := RollbackPhases(w.d, w.journal, base, trouble);
    if v in w.d.volumes {
      ReplayedLike(p1, w.journal, v, was, whole, base, trouble);
    } else {
      var owner: Option<Name> :| (owner.Some? ==> owner.value in owners && owner.value !in w.d.containers) &&
                                 Returns(w.journal, v, owner, was, whole);
      ReplayedReturns(p1, w.journal, v, owner, was, whole, base, trouble);
    }
  }

  lemma NothingRecorded(v: Name, was: Volume, whole: bool)
    ensures AllRecordLike([], v, was, whole)
  {
  }

  // --- what a removed container is recreated from --------------------------------------------------------------------

  function GoingWith(d: Daemon, c: Name, volumes: bool): set<Name>
    requires c in d.containers
  {
    if volumes then set v | v in d.containers[c].Mounts() && v in d.volumes else {}
  }

  /** The volumes there when the container's removal was last asked for, if they were to go with it. */
  function MountedAtRemoval(w: World, events: seq<Event>, c: Name, mounted: set<Name>): set<Name>
    decreases |events|
  {
    if events == [] then mounted
    else
      var e := events[0];
      MountedAtRemoval(Happen(w, e), events[1..], c,
                       if e.Change? && e.op.RemoveContainer? && e.op.c == c && c in w.d.containers
                       then GoingWith(w.d, c, e.op.volumes) else mounted)
  }

  /** The volumes in the newest record of the container. */
  function NewestVolumes(journal: seq<Entry>, c: Name): set<Name> {
    if journal == [] then {}
    else
      var e := journal[|journal| - 1];
      if Recreates(e, c) then e.inverse.value.volumes.Keys else NewestVolumes(journal[..|journal| - 1], c)
  }

  lemma {:induction false} MountedIsRecorded(w: World, events: seq<Event>, c: Name)
    ensures NewestVolumes(After(w, events).journal, c) ==
              MountedAtRemoval(w, events, c, NewestVolumes(w.journal, c))
    decreases |events|
  {
    hide Apply, Capture;
    if events != [] {
      var e := events[0];
      if e.Change? {
        RemovalRecord(w.d, e.op, c);
        assert (w.journal + [Entry(Capture(w.d, e.op), false)])[..|w.journal|] == w.journal;
      }
      var w' := Happen(w, e);
      assert After(w, events) == After(w', events[1..]);
      MountedIsRecorded(w', events[1..], c);
    }
  }

  lemma RemovalRecord(d: Daemon, op: Op, c: Name)
    ensures var e := Entry(Capture(d, op), false);
            && (Recreates(e, c) <==> op.RemoveContainer? && op.c == c && c in d.containers)
            && (Recreates(e, c) ==> e.inverse.value.volumes.Keys == GoingWith(d, c, op.volumes))
  {
  }

  lemma {:induction false} NewestIsTheRecord(journal: seq<Entry>, j: nat, c: Name)
    requires IsNewest(journal, j, c)
    ensures NewestVolumes(journal, c) == journal[j].inverse.value.volumes.Keys
    decreases |journal|
  {
    if j < |journal| - 1 {
      NewestIsOlder(journal, j, c);
      NewestIsTheRecord(journal[..|journal| - 1], j, c);
    }
  }

  /** A baseline container removed and never run anew is recreated from its image, with the volumes that went with it
      mounted by name; with none, it has as many new anonymous volumes as it had. */
  lemma RecreatedAsItWas(d0: Daemon, events: seq<Event>, c: Name, trouble: Trouble)
    requires WellFormed(d0) && c in d0.containers && NeverRunAnew(World(d0, []), events, c)
    requires var w := WorldAfter(d0, events);
             c !in w.d.containers && AllDone(Rollback(w.d, w.journal, Take(d0), trouble).steps)
    ensures var w := WorldAfter(d0, events);
            var r, was := Rollback(w.d, w.journal, Take(d0), trouble).d, d0.containers[c];
            var gone := MountedAtRemoval(World(d0, []), events, c, {});
            && c in r.containers && r.containers[c].spec.image == was.spec.image
            && r.containers[c].spec.binds == was.spec.binds + gone
            && r.containers[c].spec.bare == if gone == {} then was.spec.bare else 0
  {
    hide AllDone, Rollback, NeverRunAnew, MountedAtRemoval, NewestVolumes;
    var j := RemovedContainerComesBack(d0, events, c, trouble);
    NewestIsTheRecord(WorldAfter(d0, events).journal, j, c);
    MountedIsRecorded(World(d0, []), events, c);
    NothingMounted(c);
  }

  lemma NothingMounted(c: Name)
    ensures NewestVolumes([], c) == {}
  {
  }
}
