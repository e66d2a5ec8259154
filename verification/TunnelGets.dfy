/**
 What a `get` of the tunnel pool comes to: a live tunnel of the host, opened only if there was none; and no interleaving
 in which everybody inside has to wait.
 */
module TunnelGets {
  import opened Wrappers
  import opened TunnelPool

  /** The steps of one `get` that opens a tunnel if it has to. */
  function GetSteps(th: Thread, key: Key): seq<Step> {
    [Ask(th, key), Lock(th), Look(th), Open(th), Store(th)]
  }

  lemma RunFive(p: Pool, a: Step, b: Step, c: Step, d: Step, e: Step)
    ensures Run(p, [a, b, c, d, e]) == Do(Do(Do(Do(Do(p, a), b), c), d), e)
  {
    hide Do;
    assert [a, b, c, d, e][1..] == [b, c, d, e] && [b, c, d, e][1..] == [c, d, e];
    assert [c, d, e][1..] == [d, e] && [d, e][1..] == [e] && [e][1..] == [];
    var q := Do(Do(p, a), b);
    assert Run(p, [a, b, c, d, e]) == Run(q, [c, d, e]);
    assert Run(q, [c, d, e]) == Run(Do(Do(q, c), d), [e]);
  }

  /** What matters of the pool to somebody who wants a tunnel: the locks and the tunnels. */
  predicate SameTunnels(p: Pool, q: Pool) {
    p.conns == q.conns && p.live == q.live && p.owner == q.owner && p.next == q.next
  }

  lemma LockIsTaken(p: Pool, th: Thread, key: Key)
    requires PlaceOf(p, th).Idle? && p.guard.None? && key !in p.holders
    ensures var b := Do(Do(p, Ask(th, key)), Lock(th));
            PlaceOf(b, th) == Has(key) && b.holders == p.holders[key := th] && SameTunnels(p, b)
  {
  }

  lemma LookOpenStore(b: Pool, th: Thread, key: Key)
    requires PlaceOf(b, th) == Has(key)
    ensures var q := Do(Do(Do(b, Look(th)), Open(th)), Store(th));
            && PlaceOf(q, th).Idle? && q.holders == b.holders - {key}
            && (if key in b.conns && b.conns[key] in b.live then SameTunnels(b, q)
                else
                  && q.conns == b.conns[key := b.next] && q.live == b.live + {b.next}
                  && q.owner == b.owner[b.next := key] && q.next == b.next + 1)
  {
    var c := Do(b, Look(th));
    if !(key in b.conns && b.conns[key] in b.live) {
      assert PlaceOf(c, th) == MustOpen(key) && SameTunnels(b, c) && c.holders == b.holders;
      var d := Do(c, Open(th));
      assert PlaceOf(d, th) == TunnelPool.Opened(key, b.next) && d.holders == b.holders && d.conns == b.conns;
    }
  }

  /**
   A `get` with nobody in its way, from any safe state: a live stored tunnel is kept and none is opened; otherwise a new
   one is opened and stored, and every other tunnel is left as it was.
   */
  lemma GetGivesALiveTunnel(p: Pool, th: Thread, key: Key)
    requires Safe(p) && PlaceOf(p, th).Idle? && p.guard.None? && key !in p.holders
    ensures var q := Run(p, GetSteps(th, key));
            && PlaceOf(q, th).Idle? && q.holders == p.holders
            && key in q.conns && q.conns[key] in q.live && q.conns[key] in q.owner && q.owner[q.conns[key]] == key
            && (if key in p.conns && p.conns[key] in p.live
                then q.conns == p.conns && q.live == p.live && q.next == p.next
                else q.conns == p.conns[key := p.next] && q.live == p.live + {p.next} && p.next !in p.live)
  {
    hide LocksFit, OneEach, CloseAlone, Do;
    RunFive(p, Ask(th, key), Lock(th), Look(th), Open(th), Store(th));
    LockIsTaken(p, th, key);
    LookOpenStore(Do(Do(p, Ask(th, key)), Lock(th)), th, key);
    assert p.holders[key := th] - {key} == p.holders;
  }

  /** The steps of threads that do their work: all but asking, closing anew, and tunnels dying. */
  predicate IsWork(s: Step) {
    s.Lock? || s.Look? || s.Open? || s.Store? || s.CloseOne? || s.CloseEnd?
  }

  /** In every safe state with a thread inside `get` or `close` some thread inside can take a step: no deadlock. */
  lemma SomebodyCanWork(p: Pool, th: Thread) returns (s: Step)
    requires Safe(p) && !PlaceOf(p, th).Idle?
    ensures IsWork(s) && Do(p, s) != p
  {
    hide TunnelsFit, OneEach, CloseAlone;
    var at := PlaceOf(p, th);
    match at
    case Wants(k) =>
      if k in p.holders {
        var other := p.holders[k];
        assert Holds(PlaceOf(p, other), k);
        s := HolderMoves(p, other, k);
      } else {
        s := Lock(th);
        assert PlaceOf(Do(p, s), th) == Has(k);
      }
    case Closing(left) =>
      if left == {} {
        s := CloseEnd(th);
        assert PlaceOf(Do(p, s), th).Idle?;
      } else {
        var k :| k in left;
        s := CloseOne(th, k);
        assert PlaceOf(Do(p, s), th) == Closing(left - {k});
        assert left - {k} != left;
      }
    case Has(k) =>
      s := HolderMoves(p, th, k);
    case MustOpen(k) =>
      s := HolderMoves(p, th, k);
    case Opened(k, t) =>
      s := HolderMoves(p, th, k);
  }

  lemma HolderMoves(p: Pool, th: Thread, k: Key) returns (s: Step)
    requires Holds(PlaceOf(p, th), k)
    ensures IsWork(s) && Do(p, s) != p
  {
    var at := PlaceOf(p, th);
    s := if at.Has? then Look(th) else if at.MustOpen? then Open(th) else Store(th);
    assert PlaceOf(Do(p, s), th) != at;
  }
}
