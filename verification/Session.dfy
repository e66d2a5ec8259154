/**
 The undo journal of `api/session.py`: what each change records before it happens, and what a rollback does
 with the records. The Docker daemon is a value; each API call is a function on it.
 */
module Session {
  import opened Wrappers

  /** Names of containers, volumes and networks, in the order `sorted` puts them. */
  type Name = nat

  // --- the daemon ------------------------------------------------------------------------------------------

  /** `meta` stands for driver, options and labels. */
  datatype Volume = Volume(meta: int, files: map<string, int>)

  const PLAIN := 0

  /** What a container is created from: its image and the rest of its configuration, the volumes it mounts by
      name, and the number of destinations without a volume, each of which gets an anonymous one. */
  datatype Spec = Spec(image: int, binds: set<Name>, bare: nat)

  datatype Container = Container(spec: Spec, anonymous: set<Name>, running: bool, networks: set<Name>) {
    function Mounts(): set<Name> {
      spec.binds + anonymous
    }
  }

  datatype Network = Network(driver: int)

  /** Volume names from `nextId` on are random ids that the daemon has not given out yet. */
  datatype Daemon = Daemon(containers: map<Name, Container>, volumes: map<Name, Volume>,
                           networks: map<Name, Network>, nextId: nat)

  /** The `n` names from `first` on. */
  function NamesFrom(first: nat, n: nat): (r: set<Name>)
    ensures forall v :: v in r <==> first <= v < first + n
  {
    if n == 0 then {} else NamesFrom(first, n - 1) + {first + n - 1}
  }

  /** `POST /containers/create` (and start): missing named volumes and anonymous volumes come with it. */
  function CreateContainer(d: Daemon, c: Name, spec: Spec, running: bool, networks: set<Name>): Daemon {
    var anonymous := NamesFrom(d.nextId, spec.bare);
    var created := map v | v in (spec.binds - d.volumes.Keys) + anonymous :: Volume(PLAIN, map[]);
    d.(containers := d.containers[c := Container(spec, anonymous, running, networks)],
       volumes := d.volumes + created,
       nextId := d.nextId + spec.bare)
  }

  predicate InUse(d: Daemon, v: Name) {
    exists c :: c in d.containers && v in d.containers[c].Mounts()
  }

  /** `DELETE /containers/C`; with `v` its anonymous volumes go too, unless another container mounts them. */
  function DeleteContainer(d: Daemon, c: Name, v: bool): Daemon
    requires c in d.containers
  {
    var d' := d.(containers := d.containers - {c});
    if v then d'.(volumes := d.volumes - (set x | x in d.containers[c].anonymous && !InUse(d', x))) else d'
  }

  /** `DELETE /volumes/V`: 404 when it is missing, 409 when a container mounts it. */
  function DeleteVolume(d: Daemon, v: Name): Option<Daemon> {
    if v !in d.volumes || InUse(d, v) then None else Some(d.(volumes := d.volumes - {v}))
  }

  /** `volumes restore`: the volume is created when missing, emptied first with `clear`. */
  function RestoreFiles(d: Daemon, v: Name, files: map<string, int>, clear: bool): Daemon {
    var was := if v in d.volumes then d.volumes[v] else Volume(PLAIN, map[]);
    d.(volumes := d.volumes[v := was.(files := if clear then files else was.files + files)])
  }

  /** `_ensure_volume`: a missing volume is made with its old driver, options and labels. */
  function EnsureVolume(d: Daemon, v: Name, meta: int): Daemon {
    if v in d.volumes then d else d.(volumes := d.volumes[v := Volume(meta, map[])])
  }

  // --- changes and what they record ----------------------------------------------------------------------

  datatype Op =
    | RunContainer(c: Name, spec: Spec, running: bool, networks: set<Name>)
    | RemoveContainer(c: Name, volumes: bool)
    | StartStop(c: Name, running: bool)
    | CreateVolume(v: Name, meta: int)
    | RemoveVolume(v: Name)
    | RestoreVolume(v: Name, files: map<string, int>, clear: bool)
    | CreateNetwork(n: Name, network: Network)
    | RemoveNetwork(n: Name)

  datatype Inverse =
    | RecreateContainer(c: Name, container: Container, volumes: map<Name, Volume>)
    | RecreateNetwork(n: Name, network: Network)
    | PutBackVolume(v: Name, backup: Volume)
    | DropVolume(v: Name)
    | SetRunning(c: Name, running: bool)
    | CaptureFailed

  datatype Entry = Entry(inverse: Option<Inverse>, done: bool)

  /** `capture`: how to undo the op, taken from the daemon before the op runs. */
  function Capture(d: Daemon, op: Op): Option<Inverse> {
    match op
    case RemoveContainer(c, withVolumes) =>
      if c !in d.containers then Some(CaptureFailed)
      else
        var mounts := d.containers[c].Mounts();
        Some(RecreateContainer(c, d.containers[c],
                               if withVolumes then map v | v in mounts && v in d.volumes :: d.volumes[v] else map[]))
    case RemoveVolume(v) =>
      Some(if v in d.volumes then PutBackVolume(v, d.volumes[v]) else DropVolume(v))
    case RestoreVolume(v, _, _) =>
      Some(if v in d.volumes then PutBackVolume(v, d.volumes[v]) else DropVolume(v))
    case RemoveNetwork(n) =>
      Some(if n in d.networks then RecreateNetwork(n, d.networks[n]) else CaptureFailed)
    case StartStop(c, _) =>
      Some(if c in d.containers then SetRunning(c, d.containers[c].running) else CaptureFailed)
    case _ => None
  }

  /** What the op does when the daemon carries it out; an op on something missing or in use changes nothing. */
  function Apply(d: Daemon, op: Op): Daemon {
    match op
    case RunContainer(c, spec, running, networks) =>
      if c in d.containers then d else CreateContainer(d, c, spec, running, networks)
    case RemoveContainer(c, withVolumes) => if c in d.containers then DeleteContainer(d, c, withVolumes) else d
    case StartStop(c, running) =>
      if c in d.containers then d.(containers := d.containers[c := d.containers[c].(running := running)]) else d
    case CreateVolume(v, meta) => EnsureVolume(d, v, meta)
    case RemoveVolume(v) => if DeleteVolume(d, v).Some? then DeleteVolume(d, v).value else d
    case RestoreVolume(v, files, clear) => RestoreFiles(d, v, files, clear)
    case CreateNetwork(n, network) => if n in d.networks then d else d.(networks := d.networks[n := network])
    case RemoveNetwork(n) => d.(networks := d.networks - {n})
  }

  /** What happens between `session begin` and the rollback: ops, of which the daemon may refuse some after they
      were captured, and writes by the containers themselves, which nothing records. */
  datatype Event =
    | Change(op: Op, carriedOut: bool)
    | Write(v: Name, files: map<string, int>)

  datatype World = World(d: Daemon, journal: seq<Entry>)

  function Happen(w: World, e: Event): World {
    match e
    case Change(op, carriedOut) =>
      World(if carriedOut then Apply(w.d, op) else w.d, w.journal + [Entry(Capture(w.d, op), false)])
    case Write(v, files) =>
      if v in w.d.volumes then w.(d := w.d.(volumes := w.d.volumes[v := w.d.volumes[v].(files := files)])) else w
  }

  function After(w: World, events: seq<Event>): World
    decreases |events|
  {
    if events == [] then w else After(Happen(w, events[0]), events[1..])
  }

  // --- rollback --------------------------------------------------------------------------------------------

  /** The names in a snapshot, which is all of it that a rollback looks at. */
  datatype Snapshot = Snapshot(containers: set<Name>, volumes: set<Name>, networks: set<Name>)

  function Take(d: Daemon): Snapshot {
    Snapshot(d.containers.Keys, d.volumes.Keys, d.networks.Keys)
  }

  lemma LeastExists(s: set<Name>)
    requires s != {}
    ensures exists x :: IsLeast(x, s)
  {
    var x :| x in s;
    if s == {x} {
      assert IsLeast(x, s);
    } else {
      LeastExists(s - {x});
      var m :| IsLeast(m, s - {x});
      assert forall y :: y in s ==> y == x || y in s - {x};
      assert IsLeast(if x <= m then x else m, s);
    }
  }

  predicate IsLeast(x: Name, s: set<Name>) {
    x in s && forall y :: y in s ==> x <= y
  }

  /** `sorted(s)` */
  function Sorted(s: set<Name>): (r: seq<Name>)
    ensures forall x :: x in r <==> x in s
    ensures forall i, j :: 0 <= i < j < |r| ==> r[i] < r[j]
  {
    if s == {} then []
    else
      LeastExists(s);
      var x :| IsLeast(x, s);
      var rest := Sorted(s - {x});
      assert forall i :: 0 <= i < |rest| ==> rest[i] in s - {x};
      [x] + rest
  }

  /** The daemon while a rollback runs, and for each step so far whether it was done (or failed). */
  datatype Progress = Progress(d: Daemon, steps: seq<bool>)

  /** Outside trouble: the steps that fail for it, and whatever such a step leaves behind. */
  type Trouble = nat -> Option<Daemon>

  /** `step`: a failure is noted and the rollback goes on. */
  function Step(p: Progress, result: Option<Daemon>, trouble: Trouble): Progress {
    match trouble(|p.steps|)
    case Some(d) => Progress(d, p.steps + [false])
    case None =>
      match result
      case Some(d) => Progress(d, p.steps + [true])
      case None => Progress(p.d, p.steps + [false])
  }

  /** `recreate`: a container that is there stays as it is; captured volumes come back before it, and it mounts
      them by name. */
  function Recreated(d: Daemon, c: Name, was: Container, volumes: map<Name, Volume>): Daemon {
    if c in d.containers then d
    else
      var filled := map v | v in volumes ::
                      if v in d.volumes then d.volumes[v].(files := d.volumes[v].files + volumes[v].files)
                      else volumes[v];
      CreateContainer(d.(volumes := d.volumes + filled), c, SpecBack(was.spec, volumes), was.running, was.networks)
  }

  /** What a container is recreated from: with captured volumes, every destination gets one of them by name. */
  function SpecBack(spec: Spec, volumes: map<Name, Volume>): Spec {
    if volumes == map[] then spec else Spec(spec.image, spec.binds + volumes.Keys, 0)
  }

  /** `restore_volume` */
  function PutBack(d: Daemon, v: Name, backup: Volume): Daemon {
    RestoreFiles(EnsureVolume(d, v, backup.meta), v, backup.files, true)
  }

  /** The filter of `_scope` and then `_undo`: one inverse replayed. */
  function Undo(p: Progress, inverse: Inverse, base: Snapshot, trouble: Trouble): Progress {
    match inverse
    case RecreateContainer(c, was, volumes) =>
      if c in base.containers then Step(p, Some(Recreated(p.d, c, was, volumes)), trouble) else p
    case RecreateNetwork(n, network) =>
      if n !in base.networks then p
      else
        Step(p, Some(if n in p.d.networks then p.d else p.d.(networks := p.d.networks[n := network])), trouble)
    case PutBackVolume(v, backup) =>
      if v in base.volumes then Step(p, Some(PutBack(p.d, v, backup)), trouble) else p
    case DropVolume(v) => Step(p, DeleteVolume(p.d, v), trouble)
    case SetRunning(c, running) =>
      if c !in base.containers then p
      else
        Step(p, if c in p.d.containers
                then Some(p.d.(containers := p.d.containers[c := p.d.containers[c].(running := running)]))
                else None, trouble)
    case CaptureFailed => p
  }

  /** The journal replayed newest first. */
  function Replay(p: Progress, journal: seq<Entry>, base: Snapshot, trouble: Trouble): Progress
    decreases |journal|
  {
    if journal == [] then p
    else
      var e := journal[|journal| - 1];
      var p' := if e.done || e.inverse.None? then p else Undo(p, e.inverse.value, base, trouble);
      Replay(p', journal[..|journal| - 1], base, trouble)
  }

  function RemoveContainers(p: Progress, names: seq<Name>, trouble: Trouble): Progress
    decreases |names|
  {
    if names == [] then p
    else
      var removed := if names[0] in p.d.containers then Some(DeleteContainer(p.d, names[0], true)) else None;
      RemoveContainers(Step(p, removed, trouble), names[1..], trouble)
  }

  /** `_remove_volume`: an already missing volume is fine. */
  function RemoveVolumes(p: Progress, names: seq<Name>, dropped: set<Name>, trouble: Trouble): Progress
    decreases |names|
  {
    if names == [] then p
    else if names[0] in dropped then RemoveVolumes(p, names[1..], dropped, trouble)
    else
      var removed := if names[0] in p.d.volumes then DeleteVolume(p.d, names[0]) else Some(p.d);
      RemoveVolumes(Step(p, removed, trouble), names[1..], dropped, trouble)
  }

  function RemoveNetworks(p: Progress, names: seq<Name>, trouble: Trouble): Progress
    decreases |names|
  {
    if names == [] then p
    else
      var removed := if names[0] in p.d.networks then Some(p.d.(networks := p.d.networks - {names[0]})) else None;
      RemoveNetworks(Step(p, removed, trouble), names[1..], trouble)
  }

  /** The volumes that some record of the journal takes away. */
  function Dropped(journal: seq<Entry>): set<Name> {
    set e | e in journal && e.inverse.Some? && e.inverse.value.DropVolume? :: e.inverse.value.v
  }

  function MarkDone(journal: seq<Entry>): (r: seq<Entry>)
    ensures |r| == |journal|
    ensures forall i :: 0 <= i < |r| ==> r[i] == journal[i].(done := journal[i].done || journal[i].inverse.Some?)
  {
    seq(|journal|, i requires 0 <= i < |journal| => journal[i].(done := journal[i].done || journal[i].inverse.Some?))
  }

  /** `_scope`: added containers go first, then the journal, then added volumes and networks. */
  function Rollback(d: Daemon, journal: seq<Entry>, base: Snapshot, trouble: Trouble): Progress {
    var p1 := RemoveContainers(Progress(d, []), Sorted(d.containers.Keys - base.containers), trouble);
    var p2 := Replay(p1, journal, base, trouble);
    var p3 := RemoveVolumes(p2, Sorted(d.volumes.Keys - base.volumes), Dropped(journal), trouble);
    RemoveNetworks(p3, Sorted(d.networks.Keys - base.networks), trouble)
  }

  predicate AllDone(steps: seq<bool>) {
    forall i :: 0 <= i < |steps| ==> steps[i]
  }
}
