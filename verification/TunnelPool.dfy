/**
 The pool of SSH tunnels (`Pool` in `fleet/runner.py`), with any number of threads getting tunnels at once: a lock per
 host key, a guard over the table of locks, and tunnels that can die at any moment.
 */
module TunnelPool {
  import opened Wrappers

  type Thread = nat
  type Key = string
  type Tunnel = nat

  /** Where a thread is in `get` or `close`. */
  datatype Place =
    | Idle
    | Wants(key: Key)                      // knows its lock, does not hold it
    | Has(key: Key)                        // holds the lock of the key
    | MustOpen(key: Key)                   // found no live tunnel, closed a dead one
    | Opened(key: Key, tunnel: Tunnel)     // has a new tunnel, not stored yet
    | Closing(left: set<Key>)              // holds the guard in `close`

  datatype Pool = Pool(
    places: map<Thread, Place>,
    guard: Option<Thread>,
    holders: map<Key, Thread>,
    conns: map<Key, Tunnel>,
    live: set<Tunnel>,
    owner: map<Tunnel, Key>,
    next: Tunnel)

  datatype Step =
    | Ask(th: Thread, key: Key) | Lock(th: Thread) | Look(th: Thread)
    | Open(th: Thread) | OpenFails(th: Thread) | Store(th: Thread)
    | Die(tunnel: Tunnel)
    | CloseStart(th: Thread) | CloseOne(th: Thread, key: Key) | CloseEnd(th: Thread)

  function PlaceOf(p: Pool, th: Thread): Place {
    if th in p.places then p.places[th] else Idle
  }

  function Go(p: Pool, th: Thread, place: Place): Pool {
    p.(places := p.places[th := place])
  }

  function Unlock(p: Pool, th: Thread, k: Key): Pool {
    Go(p, th, Idle).(holders := p.holders - {k})
  }

  /** One step; a step that is not possible where the thread is, or has to wait, changes nothing. */
  function Do(p: Pool, s: Step): Pool {
    match s
    case Ask(th, key) => if PlaceOf(p, th).Idle? && p.guard.None? then Go(p, th, Wants(key)) else p
    case Lock(th) =>
      var at := PlaceOf(p, th);
      if at.Wants? && at.key !in p.holders then Go(p, th, Has(at.key)).(holders := p.holders[at.key := th]) else p
    case Look(th) =>
      var at := PlaceOf(p, th);
      if !at.Has? then p
      else if at.key in p.conns && p.conns[at.key] in p.live then Unlock(p, th, at.key)
      else Go(p, th, MustOpen(at.key))
    case Open(th) =>
      var at := PlaceOf(p, th);
      if !at.MustOpen? then p
      else Go(p, th, Opened(at.key, p.next)).(live := p.live + {p.next}, owner := p.owner[p.next := at.key], next :=
          p.next + 1)
    case OpenFails(th) =>
      var at := PlaceOf(p, th);
      if !at.MustOpen? then p else Unlock(p, th, at.key)
    case Store(th) =>
      var at := PlaceOf(p, th);
      if !at.Opened? then p else Unlock(p, th, at.key).(conns := p.conns[at.key := at.tunnel])
    case Die(t) => p.(live := p.live - {t})
    case CloseStart(th) =>
      if PlaceOf(p, th).Idle? && p.guard.None? then Go(p, th, Closing(p.conns.Keys)).(guard := Some(th)) else p
    case CloseOne(th, key) =>
      var at := PlaceOf(p, th);
      if !at.Closing? || key !in at.left then p
      else Go(p, th, Closing(at.left - {key})).(live := if key in p.conns then p.live - {p.conns[key]} else p.live)
    case CloseEnd(th) =>
      var at := PlaceOf(p, th);
      if !at.Closing? || at.left != {} then p else Go(p, th, Idle).(guard := None, conns := map[])
  }

  function Run(p: Pool, steps: seq<Step>): Pool
    decreases |steps|
  {
    if steps == [] then p else Run(Do(p, steps[0]), steps[1..])
  }

  const FRESH := Pool(map[], None, map[], map[], {}, map[], 0)

  // --- what is safe ------------------------------------------------------------------------------------------------

  predicate Holds(place: Place, k: Key) {
    (place.Has? || place.MustOpen? || place.Opened?) && place.key == k
  }

  /** Locks are held by the threads they say, and by no other. */
  ghost predicate LocksFit(p: Pool) {
    && (forall th: Thread, k :: Holds(PlaceOf(p, th), k) <==> k in p.holders && p.holders[k] == th)
    && (forall th: Thread :: PlaceOf(p, th).Closing? <==> p.guard == Some(th))
  }

  ghost predicate TunnelsFit(p: Pool) {
    && (forall t :: t in p.live ==> t in p.owner)
    && (forall t :: t in p.owner ==> t < p.next)
    && (forall k :: k in p.conns ==> p.conns[k] in p.owner && p.owner[p.conns[k]] == k)
    && (forall th: Thread :: PlaceOf(p, th).Opened? ==>
          PlaceOf(p, th).tunnel in p.owner && p.owner[PlaceOf(p, th).tunnel] == PlaceOf(p, th).key)
    && (forall th: Thread, k :: PlaceOf(p, th).Opened? && k in p.conns ==> p.conns[k] != PlaceOf(p, th).tunnel)
  }

  /** The live tunnel of a key is the one stored, or the one the holder of its lock is about to store. */
  ghost predicate OneEach(p: Pool) {
    && (forall t :: t in p.live && t in p.owner ==> Accounted(p, t))
    && (forall th: Thread, t :: PlaceOf(p, th).MustOpen? && t in p.live && t in p.owner ==>
        p.owner[t] != PlaceOf(p, th).key)
    && (forall th: Thread, t ::
          PlaceOf(p, th).Opened? && t in p.live && t in p.owner && p.owner[t] == PlaceOf(p, th).key ==>
            t == PlaceOf(p, th).tunnel)
  }

  ghost predicate Accounted(p: Pool, t: Tunnel)
    requires t in p.owner
  {
    var k := p.owner[t];
    || (k in p.conns && p.conns[k] == t)
    || (k in p.holders && PlaceOf(p, p.holders[k]) == Opened(k, t))
  }

  /** The thread leaves no live tunnel behind: it is not inside, or about to store a tunnel that has died. */
  predicate IsHarmless(p: Pool, th: Thread) {
    var at := PlaceOf(p, th);
    at.Idle? || (at.Opened? && at.tunnel !in p.live)
  }

  /** While a thread closes, all others are harmless, and what it has closed already is not live. */
  ghost predicate CloseAlone(p: Pool) {
    p.guard.Some? ==>
      && PlaceOf(p, p.guard.value).Closing?
      && (forall th: Thread :: th != p.guard.value ==> IsHarmless(p, th))
      && (forall k :: k in p.conns && p.conns[k] in p.live ==> k in PlaceOf(p, p.guard.value).left)
  }

  ghost predicate Safe(p: Pool) {
    LocksFit(p) && TunnelsFit(p) && OneEach(p) && CloseAlone(p)
  }

  /** Nobody starts to close while somebody gets (and nobody can start to get while somebody closes). */
  predicate Polite(p: Pool, s: Step) {
    match s
    case CloseStart(th) => forall other :: other in p.places ==> other == th || IsHarmless(p, other)
    case _ => true
  }

  ghost predicate AllPolite(p: Pool, steps: seq<Step>)
    decreases |steps|
  {
    steps == [] || (Polite(p, steps[0]) && AllPolite(Do(p, steps[0]), steps[1..]))
  }

  // --- each kind of step -------------------------------------------------------------------------------------------

  lemma PlacesAfter(p: Pool, q: Pool, th: Thread, place: Place)
    requires q.places == p.places[th := place]
    ensures forall other: Thread :: PlaceOf(q, other) == if other == th then place else PlaceOf(p, other)
  {
  }

  lemma UnlockFits(p: Pool, q: Pool, th: Thread, k: Key)
    requires LocksFit(p) && Holds(PlaceOf(p, th), k) && q.guard == p.guard
    requires q.places == p.places[th := Idle] && q.holders == p.holders - {k}
    ensures LocksFit(q)
  {
    PlacesAfter(p, q, th, Idle);
    forall o: Thread, j ensures Holds(PlaceOf(q, o), j) <==> j in q.holders && q.holders[j] == o {
      assert j in p.holders && p.holders[j] == th ==> Holds(PlaceOf(p, th), j) && j == k;
      assert Holds(PlaceOf(p, o), j) <==> j in p.holders && p.holders[j] == o;
    }
  }

  /** A step of a thread that neither was about to store a tunnel, nor goes on to open one, and that brings no tunnel to
      life. */
  lemma QuietFits(p: Pool, q: Pool, th: Thread, place: Place)
    requires TunnelsFit(p) && OneEach(p) && !PlaceOf(p, th).Opened? && !place.Opened? && !place.MustOpen?
    requires q.places == p.places[th := place] && q.owner == p.owner && q.conns == p.conns && q.next == p.next
    requires q.live <= p.live
    requires forall k :: k in p.holders && PlaceOf(p, p.holders[k]).Opened? ==>
               k in q.holders && q.holders[k] == p.holders[k]
    ensures TunnelsFit(q) && OneEach(q)
  {
    PlacesAfter(p, q, th, place);
    AccountedKept(p, q);
  }

  lemma NoGuardNoClose(p: Pool)
    requires p.guard.None?
    ensures CloseAlone(p)
  {
  }

  lemma AskFits(p: Pool, th: Thread, key: Key)
    requires LocksFit(p) && PlaceOf(p, th).Idle? && p.guard.None?
    ensures LocksFit(Go(p, th, Wants(key)))
  {
    PlacesAfter(p, Go(p, th, Wants(key)), th, Wants(key));
  }

  lemma AskKeeps(p: Pool, th: Thread, key: Key)
    requires Safe(p)
    ensures Safe(Do(p, Ask(th, key)))
  {
    hide LocksFit, TunnelsFit, OneEach, CloseAlone;
    var q := Do(p, Ask(th, key));
    if q != p {
      AskFits(p, th, key);
      QuietFits(p, q, th, Wants(key));
      NoGuardNoClose(q);
    }
  }

  /** While a thread closes nobody is inside `get` but to store a dead tunnel. */
  lemma NobodyGetsWhileClosing(p: Pool, th: Thread)
    requires CloseAlone(p) && (PlaceOf(p, th).Wants? || PlaceOf(p, th).Has? || PlaceOf(p, th).MustOpen?)
    ensures p.guard.None?
  {
    assert !IsHarmless(p, th);
  }

  /** With places kept or left, and no tunnel brought to life, the close stays alone. */
  lemma AloneKept(p: Pool, q: Pool)
    requires CloseAlone(p) && q.guard == p.guard && q.live <= p.live
    requires forall o: Thread :: PlaceOf(q, o) == PlaceOf(p, o) || (PlaceOf(q, o).Idle? && p.guard != Some(o))
    requires forall k :: k in q.conns && q.conns[k] in q.live ==> k in p.conns && p.conns[k] == q.conns[k]
    ensures CloseAlone(q)
  {
    forall o: Thread | p.guard.Some? && o != p.guard.value ensures IsHarmless(q, o) {
      assert IsHarmless(p, o);
    }
  }

  lemma LockFits(p: Pool, th: Thread)
    requires LocksFit(p) && PlaceOf(p, th).Wants? && PlaceOf(p, th).key !in p.holders
    ensures LocksFit(Do(p, Lock(th)))
  {
    PlacesAfter(p, Do(p, Lock(th)), th, Has(PlaceOf(p, th).key));
  }

  lemma LockKeeps(p: Pool, th: Thread)
    requires Safe(p)
    ensures Safe(Do(p, Lock(th)))
  {
    hide LocksFit, TunnelsFit, OneEach, CloseAlone;
    var at := PlaceOf(p, th);
    if at.Wants? && at.key !in p.holders {
      NobodyGetsWhileClosing(p, th);
      LockFits(p, th);
      QuietFits(p, Do(p, Lock(th)), th, Has(at.key));
      NoGuardNoClose(Do(p, Lock(th)));
    }
  }

  /** Whoever was about to store a tunnel still is. */
  lemma AccountedKept(p: Pool, q: Pool)
    requires q.owner == p.owner && q.conns == p.conns && q.live <= p.live
    requires forall k, t :: k in p.holders && PlaceOf(p, p.holders[k]) == Opened(k, t) ==>
               k in q.holders && PlaceOf(q, q.holders[k]) == Opened(k, t)
    requires forall t :: t in p.live && t in p.owner ==> Accounted(p, t)
    ensures forall t :: t in q.live && t in q.owner ==> Accounted(q, t)
  {
    forall t | t in q.live && t in q.owner ensures Accounted(q, t) {
      assert Accounted(p, t);
    }
  }

  lemma HoldersOpened(p: Pool, th: Thread, k: Key)
    requires LocksFit(p) && Holds(PlaceOf(p, th), k) && !PlaceOf(p, th).Opened?
    ensures forall j :: j in p.holders && PlaceOf(p, p.holders[j]).Opened? ==> j != k
  {
    assert k in p.holders && p.holders[k] == th;
  }

  /** A thread that gives its lock back without a tunnel to store. */
  lemma UnlockKeeps(p: Pool, th: Thread, k: Key)
    requires Safe(p) && (PlaceOf(p, th) == Has(k) || PlaceOf(p, th) == MustOpen(k))
    ensures Safe(Unlock(p, th, k))
  {
    hide LocksFit, TunnelsFit, OneEach, CloseAlone;
    var q := Unlock(p, th, k);
    NobodyGetsWhileClosing(p, th);
    UnlockFits(p, q, th, k);
    HoldersOpened(p, th, k);
    QuietFits(p, q, th, Idle);
    NoGuardNoClose(q);
  }

  lemma MustOpenFits(p: Pool, th: Thread, k: Key)
    requires LocksFit(p) && PlaceOf(p, th) == Has(k)
    ensures LocksFit(Go(p, th, MustOpen(k)))
  {
    PlacesAfter(p, Go(p, th, MustOpen(k)), th, MustOpen(k));
  }

  lemma MustOpenTunnels(p: Pool, th: Thread, k: Key)
    requires TunnelsFit(p) && OneEach(p) && PlaceOf(p, th) == Has(k)
    requires forall t :: t in p.live && t in p.owner ==> p.owner[t] != k
    ensures TunnelsFit(Go(p, th, MustOpen(k))) && OneEach(Go(p, th, MustOpen(k)))
  {
    var q := Go(p, th, MustOpen(k));
    PlacesAfter(p, q, th, MustOpen(k));
    AccountedKept(p, q);
  }

  lemma LookKeeps(p: Pool, th: Thread)
    requires Safe(p)
    ensures Safe(Do(p, Look(th)))
  {
    hide LocksFit, TunnelsFit, OneEach, CloseAlone;
    var at := PlaceOf(p, th);
    if at.Has? {
      if at.key in p.conns && p.conns[at.key] in p.live {
        UnlockKeeps(p, th, at.key);
      } else {
        NobodyGetsWhileClosing(p, th);
        MustOpenFits(p, th, at.key);
        NoneLive(p, th, at.key);
        MustOpenTunnels(p, th, at.key);
        NoGuardNoClose(Go(p, th, MustOpen(at.key)));
      }
    }
  }

  /** With the lock of a key and no live tunnel stored for it, there is none. */
  lemma NoneLive(p: Pool, th: Thread, k: Key)
    requires Safe(p) && PlaceOf(p, th) == Has(k) && !(k in p.conns && p.conns[k] in p.live)
    ensures forall t :: t in p.live && t in p.owner ==> p.owner[t] != k
  {
    forall t | t in p.live && t in p.owner ensures p.owner[t] != k {
      assert Accounted(p, t);
      assert Holds(PlaceOf(p, th), k);
    }
  }

  lemma OpenFits(p: Pool, th: Thread)
    requires LocksFit(p) && PlaceOf(p, th).MustOpen?
    ensures LocksFit(Do(p, Open(th)))
  {
    var k := PlaceOf(p, th).key;
    PlacesAfter(p, Do(p, Open(th)), th, Opened(k, p.next));
    assert Holds(PlaceOf(p, th), k);
  }

  lemma OpenTunnels(p: Pool, th: Thread)
    requires TunnelsFit(p) && PlaceOf(p, th).MustOpen?
    ensures TunnelsFit(Do(p, Open(th)))
  {
    PlacesAfter(p, Do(p, Open(th)), th, Opened(PlaceOf(p, th).key, p.next));
  }

  lemma OpenAccounted(p: Pool, th: Thread)
    requires LocksFit(p) && TunnelsFit(p) && OneEach(p) && PlaceOf(p, th).MustOpen?
    ensures var q := Do(p, Open(th)); forall t :: t in q.live && t in q.owner ==> Accounted(q, t)
  {
    var q, k := Do(p, Open(th)), PlaceOf(p, th).key;
    PlacesAfter(p, q, th, Opened(k, p.next));
    assert Holds(PlaceOf(p, th), k);
    forall t | t in q.live && t in q.owner ensures Accounted(q, t) {
      if t != p.next {
        assert Accounted(p, t);
      }
    }
  }

  lemma OpenKeeps(p: Pool, th: Thread)
    requires Safe(p)
    ensures Safe(Do(p, Open(th)))
  {
    hide LocksFit, TunnelsFit, CloseAlone, Accounted;
    if PlaceOf(p, th).MustOpen? {
      NobodyGetsWhileClosing(p, th);
      OpenFits(p, th);
      OpenTunnels(p, th);
      OpenAccounted(p, th);
      OpenedAlone(p, Do(p, Open(th)), th);
      NoGuardNoClose(Do(p, Open(th)));
    }
  }

  lemma OpenedAlone(p: Pool, q: Pool, th: Thread)
    requires Safe(p) && PlaceOf(p, th).MustOpen? && q == Do(p, Open(th))
    ensures forall o: Thread, t :: PlaceOf(q, o).MustOpen? && t in q.live && t in q.owner ==>
        q.owner[t] != PlaceOf(q, o).key
    ensures forall o: Thread, t ::
              PlaceOf(q, o).Opened? && t in q.live && t in q.owner && q.owner[t] == PlaceOf(q, o).key ==>
                t == PlaceOf(q, o).tunnel
  {
    var k := PlaceOf(p, th).key;
    PlacesAfter(p, q, th, Opened(k, p.next));
    assert Holds(PlaceOf(p, th), k);
    forall o: Thread | o != th && (PlaceOf(p, o).MustOpen? || PlaceOf(p, o).Opened?) ensures PlaceOf(p, o).key != k {
      var key := PlaceOf(p, o).key;
      assert Holds(PlaceOf(p, o), key) && p.holders[key] == o && p.holders[k] == th;
    }
  }

  lemma OpenFailsKeeps(p: Pool, th: Thread)
    requires Safe(p)
    ensures Safe(Do(p, OpenFails(th)))
  {
    hide LocksFit, TunnelsFit, OneEach, CloseAlone;
    if PlaceOf(p, th).MustOpen? {
      UnlockKeeps(p, th, PlaceOf(p, th).key);
    }
  }

  /** No two threads are about to store a tunnel for one key. */
  lemma OpenedForOthers(p: Pool, th: Thread)
    requires LocksFit(p) && PlaceOf(p, th).Opened?
    ensures forall o: Thread :: PlaceOf(p, o).Opened? && o != th ==> PlaceOf(p, o).key != PlaceOf(p, th).key
  {
    forall o: Thread | PlaceOf(p, o).Opened? && o != th ensures PlaceOf(p, o).key != PlaceOf(p, th).key {
      var j, k := PlaceOf(p, o).key, PlaceOf(p, th).key;
      assert Holds(PlaceOf(p, o), j) && Holds(PlaceOf(p, th), k);
      assert j in p.holders && p.holders[j] == o && k in p.holders && p.holders[k] == th;
    }
  }

  lemma StoreFits(p: Pool, th: Thread)
    requires LocksFit(p) && TunnelsFit(p) && PlaceOf(p, th).Opened?
    ensures LocksFit(Do(p, Store(th))) && TunnelsFit(Do(p, Store(th)))
  {
    var q := Do(p, Store(th));
    PlacesAfter(p, q, th, Idle);
    assert LocksFit(q) by { UnlockFits(p, q, th, PlaceOf(p, th).key); }
    hide LocksFit;
    OpenedForOthers(p, th);
  }

  lemma StoreAlone(p: Pool, th: Thread)
    requires CloseAlone(p) && PlaceOf(p, th).Opened?
    ensures CloseAlone(Do(p, Store(th)))
  {
    PlacesAfter(p, Do(p, Store(th)), th, Idle);
    if p.guard.Some? {
      assert IsHarmless(p, th);
      AloneKept(p, Do(p, Store(th)));
    }
  }

  lemma StoreOneEach(p: Pool, th: Thread)
    requires LocksFit(p) && OneEach(p) && PlaceOf(p, th).Opened?
    ensures OneEach(Do(p, Store(th)))
  {
    var q := Do(p, Store(th));
    var k := PlaceOf(p, th).key;
    PlacesAfter(p, q, th, Idle);
    assert Holds(PlaceOf(p, th), k);
    forall t | t in q.live && t in q.owner ensures Accounted(q, t) {
      assert Accounted(p, t);
    }
  }

  lemma StoreKeeps(p: Pool, th: Thread)
    requires Safe(p)
    ensures Safe(Do(p, Store(th)))
  {
    hide LocksFit, TunnelsFit, OneEach, CloseAlone;
    if PlaceOf(p, th).Opened? {
      StoreFits(p, th);
      StoreOneEach(p, th);
      StoreAlone(p, th);
    }
  }

  lemma DieKeeps(p: Pool, t: Tunnel)
    requires Safe(p)
    ensures Safe(Do(p, Die(t)))
  {
    var q := Do(p, Die(t));
    assert forall th: Thread :: PlaceOf(q, th) == PlaceOf(p, th);
    AccountedKept(p, q);
    assert CloseAlone(q) by { AloneKept(p, q); }
  }

  lemma CloseStartAlone(p: Pool, th: Thread)
    requires Polite(p, CloseStart(th)) && PlaceOf(p, th).Idle? && p.guard.None?
    ensures CloseAlone(Do(p, CloseStart(th)))
  {
    var q := Do(p, CloseStart(th));
    PlacesAfter(p, q, th, Closing(p.conns.Keys));
    forall o: Thread | o != th ensures IsHarmless(q, o) {
      assert o in p.places ==> IsHarmless(p, o);
    }
  }

  lemma CloseStartKeeps(p: Pool, th: Thread)
    requires Safe(p) && Polite(p, CloseStart(th))
    ensures Safe(Do(p, CloseStart(th)))
  {
    hide CloseAlone, Polite;
    if PlaceOf(p, th).Idle? && p.guard.None? {
      var q := Do(p, CloseStart(th));
      CloseStartAlone(p, th);
      PlacesAfter(p, q, th, Closing(p.conns.Keys));
      AccountedKept(p, q);
    }
  }

  lemma CloseOneAlone(p: Pool, th: Thread, key: Key)
    requires LocksFit(p) && TunnelsFit(p) && CloseAlone(p) && PlaceOf(p, th).Closing? && key in PlaceOf(p, th).left
    ensures CloseAlone(Do(p, CloseOne(th, key)))
  {
    var q := Do(p, CloseOne(th, key));
    PlacesAfter(p, q, th, Closing(PlaceOf(p, th).left - {key}));
    assert p.guard == Some(th);
    forall o: Thread | o != th ensures IsHarmless(q, o) {
      assert IsHarmless(p, o);
    }
  }

  lemma CloseOneKeeps(p: Pool, th: Thread, key: Key)
    requires Safe(p)
    ensures Safe(Do(p, CloseOne(th, key)))
  {
    hide CloseAlone;
    var at := PlaceOf(p, th);
    if at.Closing? && key in at.left {
      var q := Do(p, CloseOne(th, key));
      CloseOneAlone(p, th, key);
      PlacesAfter(p, q, th, Closing(at.left - {key}));
      AccountedKept(p, q);
    }
  }

  /** At the end of a close that had the pool to itself no tunnel is live. */
  lemma CloseEndClosesAll(p: Pool, th: Thread)
    requires Safe(p) && PlaceOf(p, th) == Closing({})
    ensures Do(p, CloseEnd(th)).live == {} && Safe(Do(p, CloseEnd(th)))
  {
    assert p.guard == Some(th);
    forall t | t in p.owner ensures t !in p.live {
      NoneLeft(p, th, t);
    }
    PlacesAfter(p, Do(p, CloseEnd(th)), th, Idle);
  }

  lemma NoneLeft(p: Pool, th: Thread, t: Tunnel)
    requires Safe(p) && PlaceOf(p, th) == Closing({}) && t in p.owner
    ensures t !in p.live
  {
    var k := p.owner[t];
    assert p.guard == Some(th);
    assert k in p.holders && p.holders[k] != th ==> IsHarmless(p, p.holders[k]);
    assert k in p.conns && p.conns[k] == t ==> t !in p.live;
    assert t in p.live ==> Accounted(p, t);
  }

  lemma StepKeeps(p: Pool, s: Step)
    requires Safe(p) && Polite(p, s)
    ensures Safe(Do(p, s))
  {
    hide Safe, Polite, Do;
    match s {
      case Ask(th, key) => AskKeeps(p, th, key);
      case Lock(th) => LockKeeps(p, th);
      case Look(th) => LookKeeps(p, th);
      case Open(th) => OpenKeeps(p, th);
      case OpenFails(th) => OpenFailsKeeps(p, th);
      case Store(th) => StoreKeeps(p, th);
      case Die(t) => DieKeeps(p, t);
      case CloseStart(th) => CloseStartKeeps(p, th);
      case CloseOne(th, key) => CloseOneKeeps(p, th, key);
      case CloseEnd(th) =>
        if PlaceOf(p, th) == Closing({}) {
          CloseEndClosesAll(p, th);
        } else {
          NoCloseEnd(p, th);
        }
    }
  }

  lemma NoCloseEnd(p: Pool, th: Thread)
    requires PlaceOf(p, th) != Closing({})
    ensures Do(p, CloseEnd(th)) == p
  {
  }

  // --- the main results --------------------------------------------------------------------------------------------

  lemma {:induction false} RunKeeps(p: Pool, steps: seq<Step>)
    requires Safe(p) && AllPolite(p, steps)
    ensures Safe(Run(p, steps))
    decreases |steps|
  {
    hide Safe, Do, Polite;
    if steps != [] {
      StepKeeps(p, steps[0]);
      RunKeeps(Do(p, steps[0]), steps[1..]);
    }
  }

  lemma FreshIsSafe()
    ensures Safe(FRESH)
  {
  }

  /** At most one live tunnel a key, and it is the one stored unless the holder of the key's lock is just storing it. */
  lemma OneTunnelEach(steps: seq<Step>, t: Tunnel, u: Tunnel)
    requires AllPolite(FRESH, steps)
    requires var p := Run(FRESH, steps); t in p.live && u in p.live
    ensures var p := Run(FRESH, steps);
            t in p.owner && u in p.owner && Accounted(p, t) && (p.owner[t] == p.owner[u] ==> t == u)
  {
    hide Do;
    assert Safe(FRESH) by { FreshIsSafe(); }
    RunKeeps(FRESH, steps);
    var p := Run(FRESH, steps);
    assert Accounted(p, t) && Accounted(p, u);
  }

  /** When nobody is in `get`, the live tunnels are stored ones. */
  lemma AtRestLiveTunnelsAreStored(steps: seq<Step>, t: Tunnel)
    requires AllPolite(FRESH, steps)
    requires var p := Run(FRESH, steps); t in p.live && forall th: Thread :: !PlaceOf(p, th).Opened?
    ensures var p := Run(FRESH, steps); t in p.owner && p.owner[t] in p.conns && p.conns[p.owner[t]] == t
  {
    hide Do;
    assert Safe(FRESH) by { FreshIsSafe(); }
    RunKeeps(FRESH, steps);
    var p := Run(FRESH, steps);
    assert Accounted(p, t);
  }

  /** After a close that nobody disturbed, no tunnel is live. */
  lemma ClosedPoolsAreEmpty(steps: seq<Step>, th: Thread)
    requires AllPolite(FRESH, steps) && PlaceOf(Run(FRESH, steps), th) == Closing({})
    ensures Do(Run(FRESH, steps), CloseEnd(th)).live == {}
  {
    hide Do, Safe;
    assert Safe(FRESH) by { FreshIsSafe(); }
    RunKeeps(FRESH, steps);
    CloseEndClosesAll(Run(FRESH, steps), th);
  }

  // --- a close that is not alone -----------------------------------------------------------------------------------

  predicate EndsClose(s: Step, closer: Thread) {
    s == CloseEnd(closer)
  }

  /** The steps of everybody between the start and the end of a close. */
  ghost predicate DuringClose(p: Pool, closer: Thread, steps: seq<Step>) {
    && (forall i :: 0 <= i < |steps| ==> !EndsClose(steps[i], closer))
    && PlaceOf(Run(Do(p, CloseStart(closer)), steps), closer) == Closing({})
  }

  /** The pool when the close is over. */
  function AfterClose(p: Pool, closer: Thread, steps: seq<Step>): Pool {
    Do(Run(Do(p, CloseStart(closer)), steps), CloseEnd(closer))
  }

  lemma {:induction false} RunMore(p: Pool, a: seq<Step>, b: seq<Step>)
    ensures Run(p, a + b) == Run(Run(p, a), b)
    decreases |a|
  {
    hide Do;
    if a == [] {
      assert a + b == b;
    } else {
      assert (a + b)[1..] == a[1..] + b;
      RunMore(Do(p, a[0]), a[1..], b);
    }
  }

  lemma OneStep(p: Pool, s: Step)
    ensures Run(p, [s]) == Do(p, s)
  {
    hide Do;
    assert [s][1..] == [];
  }

  /** The closer closes all that is left, and meanwhile nobody else moves. */
  lemma {:induction false} CloseAllLeft(p: Pool, closer: Thread, left: set<Key>) returns (steps: seq<Step>)
    requires PlaceOf(p, closer) == Closing(left)
    ensures forall i :: 0 <= i < |steps| ==> !EndsClose(steps[i], closer)
    ensures var q := Run(p, steps);
            && q == Go(p, closer, Closing({})).(live := q.live)
            && (forall k :: k in left && k in p.conns ==> p.conns[k] !in q.live)
            && (forall t :: t in q.live ==> t in p.live)
            && (forall t :: t in p.live && (forall k :: k in p.conns ==> p.conns[k] != t) ==> t in q.live)
    decreases left
  {
    if left == {} {
      steps := [];
      assert Go(p, closer, Closing({})) == p by { StaysPut(p, closer); }
    } else {
      var k :| k in left;
      var p' := Do(p, CloseOne(closer, k));
      var rest := CloseAllLeft(p', closer, left - {k});
      steps := [CloseOne(closer, k)] + rest;
      assert steps[1..] == rest;
      var q := Run(p, steps);
      assert q == Run(p', rest);
      assert Go(p', closer, Closing({})).(live := q.live) == Go(p, closer, Closing({})).(live := q.live);
    }
  }

  lemma StaysPut(p: Pool, closer: Thread)
    requires PlaceOf(p, closer) == Closing({})
    ensures Go(p, closer, Closing({})) == p
  {
    assert p.places[closer := Closing({})] == p.places;
  }

  /** A thread that is not harmless gets, while the close goes on, a tunnel that the close does not see. */
  lemma GetDuringClose(p: Pool, th: Thread) returns (steps: seq<Step>)
    requires LocksFit(p) && TunnelsFit(p) && !IsHarmless(p, th) && !PlaceOf(p, th).Closing?
    requires forall k :: k in p.conns ==> p.conns[k] !in p.live
    requires forall o: Thread, k :: PlaceOf(p, th) == Wants(k) && Holds(PlaceOf(p, o), k) ==> IsHarmless(p, o)
    ensures forall i, closer :: 0 <= i < |steps| ==> !EndsClose(steps[i], closer)
    ensures var q := Run(p, steps);
            q.live != {} && forall o: Thread :: PlaceOf(p, o).Closing? ==> PlaceOf(q, o) == PlaceOf(p, o)
  {
    var at := PlaceOf(p, th);
    if at.Opened? {
      steps := [];
      assert at.tunnel in p.live;
    } else if at.MustOpen? {
      steps := OpenNow(p, th);
    } else if at.Has? {
      steps := LookAndOpen(p, th);
    } else if at.key in p.holders {
      var o := p.holders[at.key];
      assert Holds(PlaceOf(p, o), at.key);
      var p1 := Do(p, Store(o));
      PlacesAfter(p, p1, o, Idle);
      var more := LockAndOpen(p1, th);
      steps := [Store(o)] + more;
      RunMore(p, [Store(o)], more);
      OneStep(p, Store(o));
    } else {
      steps := LockAndOpen(p, th);
    }
  }

  lemma OpenNow(p: Pool, th: Thread) returns (steps: seq<Step>)
    requires PlaceOf(p, th).MustOpen?
    ensures forall i, closer :: 0 <= i < |steps| ==> !EndsClose(steps[i], closer)
    ensures var q := Run(p, steps);
            q.live != {} && forall o: Thread :: PlaceOf(p, o).Closing? ==> PlaceOf(q, o) == PlaceOf(p, o)
  {
    steps := [Open(th)];
    OneStep(p, Open(th));
    assert p.next in Do(p, Open(th)).live;
    PlacesAfter(p, Do(p, Open(th)), th, Opened(PlaceOf(p, th).key, p.next));
  }

  lemma LookAndOpen(p: Pool, th: Thread) returns (steps: seq<Step>)
    requires PlaceOf(p, th).Has? && forall k :: k in p.conns ==> p.conns[k] !in p.live
    ensures forall i, closer :: 0 <= i < |steps| ==> !EndsClose(steps[i], closer)
    ensures var q := Run(p, steps);
            q.live != {} && forall o: Thread :: PlaceOf(p, o).Closing? ==> PlaceOf(q, o) == PlaceOf(p, o)
  {
    var p1 := Do(p, Look(th));
    PlacesAfter(p, p1, th, MustOpen(PlaceOf(p, th).key));
    var more := OpenNow(p1, th);
    steps := [Look(th)] + more;
    RunMore(p, [Look(th)], more);
    OneStep(p, Look(th));
  }

  lemma LockAndOpen(p: Pool, th: Thread) returns (steps: seq<Step>)
    requires PlaceOf(p, th).Wants? && PlaceOf(p, th).key !in p.holders
    requires forall k :: k in p.conns ==> p.conns[k] !in p.live
    ensures forall i, closer :: 0 <= i < |steps| ==> !EndsClose(steps[i], closer)
    ensures var q := Run(p, steps);
            q.live != {} && forall o: Thread :: PlaceOf(p, o).Closing? ==> PlaceOf(q, o) == PlaceOf(p, o)
  {
    var p1 := Do(p, Lock(th));
    PlacesAfter(p, p1, th, Has(PlaceOf(p, th).key));
    var more := LookAndOpen(p1, th);
    steps := [Lock(th)] + more;
    RunMore(p, [Lock(th)], more);
    OneStep(p, Lock(th));
  }

  /** A close that begins while another thread is inside `get`, and not just about to store a dead tunnel, can end with
      a live tunnel. */
  lemma CloseCanMissATunnel(p: Pool, closer: Thread, th: Thread) returns (steps: seq<Step>)
    requires Safe(p) && p.guard.None? && PlaceOf(p, closer).Idle? && !IsHarmless(p, th)
    ensures DuringClose(p, closer, steps) && AfterClose(p, closer, steps).live != {}
  {
    hide Safe, LocksFit, TunnelsFit, IsHarmless, Run;
    var p1 := Do(p, CloseStart(closer));
    PlacesAfter(p, p1, closer, Closing(p.conns.Keys));
    var closing := CloseAllLeft(p1, closer, p.conns.Keys);
    var p2 := Run(p1, closing);
    PlacesAfter(p1, p2, closer, Closing({}));
    ClosedBesides(p, p1, p2, closer);
    var getter := WhoGets(p, th);
    var getting := GetDuringClose(p2, getter);
    steps := closing + getting;
    RunMore(p1, closing, getting);
  }

  /** While the stored tunnels are closed, everybody else stays as they are. */
  lemma ClosedBesides(p: Pool, p1: Pool, p2: Pool, closer: Thread)
    requires Safe(p) && p.guard.None? && PlaceOf(p, closer).Idle? && p1 == Do(p, CloseStart(closer))
    requires p2 == Go(p1, closer, Closing({})).(live := p2.live)
    requires forall t :: t in p2.live ==> t in p1.live
    requires forall t :: t in p1.live && (forall k :: k in p1.conns ==> p1.conns[k] != t) ==> t in p2.live
    ensures LocksFit(p2) && TunnelsFit(p2)
    ensures forall o: Thread :: o != closer ==> PlaceOf(p2, o) == PlaceOf(p, o) && IsHarmless(p2, o) == IsHarmless(p, o)
  {
    PlacesAfter(p, p1, closer, Closing(p.conns.Keys));
    PlacesAfter(p1, p2, closer, Closing({}));
    assert LocksFit(p2) by { ClosingFits(p, p2, closer); }
    hide LocksFit, OneEach, CloseAlone;
  }

  lemma ClosingFits(p: Pool, p2: Pool, closer: Thread)
    requires LocksFit(p) && p.guard.None? && PlaceOf(p, closer).Idle?
    requires p2.guard == Some(closer) && p2.holders == p.holders
    requires forall o: Thread :: PlaceOf(p2, o) == if o == closer then Closing({}) else PlaceOf(p, o)
    ensures LocksFit(p2)
  {
  }

  /** The thread itself, or who holds the lock it waits for, if that one is not harmless. */
  lemma WhoGets(p: Pool, th: Thread) returns (getter: Thread)
    requires Safe(p) && p.guard.None? && !IsHarmless(p, th)
    ensures !IsHarmless(p, getter) && !PlaceOf(p, getter).Closing? && !PlaceOf(p, getter).Idle?
    ensures forall o: Thread, k :: PlaceOf(p, getter) == Wants(k) && Holds(PlaceOf(p, o), k) ==> IsHarmless(p, o)
  {
    var at := PlaceOf(p, th);
    getter := th;
    if at.Wants? && at.key in p.holders {
      var o := p.holders[at.key];
      assert Holds(PlaceOf(p, o), at.key);
      if !IsHarmless(p, o) {
        getter := o;
      }
    }
  }

  lemma {:induction false} CloseStaysAlone(p: Pool, closer: Thread, steps: seq<Step>)
    requires Safe(p) && p.guard == Some(closer) && forall i :: 0 <= i < |steps| ==> !EndsClose(steps[i], closer)
    ensures Safe(Run(p, steps)) && Run(p, steps).guard == Some(closer)
    decreases |steps|
  {
    hide Safe, Do;
    if steps != [] {
      GuardStays(p, closer, steps[0]);
      if !steps[0].CloseStart? {
        StepKeeps(p, steps[0]);
      }
      CloseStaysAlone(Do(p, steps[0]), closer, steps[1..]);
    }
  }

  lemma GuardStays(p: Pool, closer: Thread, s: Step)
    requires Safe(p) && p.guard == Some(closer) && !EndsClose(s, closer)
    ensures Do(p, s).guard == Some(closer) && (s.CloseStart? ==> Do(p, s) == p)
  {
    assert s.CloseEnd? ==> !PlaceOf(p, s.th).Closing?;
  }

  /** A close that the pool begins in any safe state can leave a live tunnel, by some steps of the others meanwhile, if
      and only if a thread is inside `get` then, and not just about to store a tunnel that has died. */
  lemma CloseMissesExactly(p: Pool, closer: Thread)
    requires Safe(p) && p.guard.None? && PlaceOf(p, closer).Idle?
    ensures (exists steps :: DuringClose(p, closer, steps) && AfterClose(p, closer, steps).live != {}) <==>
              exists th: Thread :: !IsHarmless(p, th)
  {
    hide Safe, Do, IsHarmless;
    if th: Thread :| !IsHarmless(p, th) {
      var steps := CloseCanMissATunnel(p, closer, th);
    }
    if steps :| DuringClose(p, closer, steps) && AfterClose(p, closer, steps).live != {} {
      if forall th: Thread :: IsHarmless(p, th) {
        assert Polite(p, CloseStart(closer));
        CloseStartKeeps(p, closer);
        CloseTakesGuard(p, closer);
        var p1 := Do(p, CloseStart(closer));
        CloseStaysAlone(p1, closer, steps);
        CloseEndClosesAll(Run(p1, steps), closer);
        assert false;
      }
    }
  }

  lemma CloseTakesGuard(p: Pool, closer: Thread)
    requires p.guard.None? && PlaceOf(p, closer).Idle?
    ensures Do(p, CloseStart(closer)).guard == Some(closer)
  {
  }
}
