/**
 When reassembly gives back the stream: exactly when no 2^32 boundary lies between the kept segments.
 */
module ReassemblyExact {
  import opened Wrappers
  import opened Reassembly

  // --- the same on positions of the stream -------------------------------------------------------------------------

  /** Appending by position instead of by a number modulo 2^32. */
  function AppendAt(j: Joined, p: nat, payload: seq<Byte>): Joined {
    if j.end.None? || p >= j.end.value then Joined(j.data + payload, Some(p + |payload|))
    else if j.end.value - p < |payload| then Joined(j.data + payload[j.end.value - p..], Some(p + |payload|))
    else j
  }

  function JoinAt(kept: map<nat, seq<Byte>>, ps: seq<nat>): Joined
    requires forall p :: p in ps ==> p in kept
  {
    if ps == [] then Joined([], None)
    else AppendAt(JoinAt(kept, ps[..|ps| - 1]), ps[|ps| - 1], kept[ps[|ps| - 1]])
  }

  ghost predicate Close(kept: map<nat, seq<Byte>>) {
    && (forall p :: p in kept ==> kept[p] != [])
    && forall p, q :: p in kept && q in kept ==> p + |kept[p]| - q <= HALF
  }

  /** The parts are the kept segments under their reduced numbers. */
  ghost predicate Numbered(parts: map<nat, seq<Byte>>, kept: map<nat, seq<Byte>>) {
    && (forall p :: p in kept ==> p % WRAP in parts && parts[p % WRAP] == kept[p])
    && (forall s :: s in parts ==> exists p :: p in kept && p % WRAP == s)
  }

  lemma ComparedModulo(n: int, end: int, p: int, e: int)
    requires n % WRAP == p % WRAP && end % WRAP == e % WRAP && -HALF <= p - e < HALF
    ensures (n - end) % WRAP < HALF <==> p >= e
    ensures p < e ==> (end - n) % WRAP == e - p
  {
    var a, b := n / WRAP - p / WRAP, end / WRAP - e / WRAP;
    assert n == p + WRAP * a && end == e + WRAP * b;
    Reduced(p - e, a - b);
    Reduced(e - p, b - a);
  }

  lemma Reduced(d: int, k: int)
    requires -HALF <= d <= HALF
    ensures (d + WRAP * k) % WRAP == if d >= 0 then d else d + WRAP
  {
    var r := if d >= 0 then d else d + WRAP;
    var m := if d >= 0 then k else k - 1;
    assert d + WRAP * k == r + WRAP * m;
    Unique(r, m);
  }

  lemma Unique(r: int, m: int)
    requires 0 <= r < WRAP
    ensures (r + WRAP * m) % WRAP == r
  {
  }

  /** Numbers modulo 2^32 serve as well as positions. */
  lemma {:induction false} SameJoin(parts: map<nat, seq<Byte>>, kept: map<nat, seq<Byte>>, order: seq<nat>,
                                    ps: seq<nat>)
    requires Close(kept) && |order| == |ps| && forall p :: p in ps ==> p in kept
    requires forall s :: s in order ==> s in parts
    requires forall i :: 0 <= i < |ps| ==> order[i] == ps[i] % WRAP && parts[order[i]] == kept[ps[i]]
    ensures var a, b := JoinAll(parts, order), JoinAt(kept, ps);
            && a.data == b.data && a.end.Some? == b.end.Some? == (ps != [])
            && (b.end.Some? ==> a.end.value % WRAP == b.end.value % WRAP && exists q ::
                q in kept && b.end.value == q + |kept[q]|)
    decreases |ps|
  {
    hide Append, AppendAt;
    if ps != [] {
      var n := |ps| - 1;
      SameJoin(parts, kept, order[..n], ps[..n]);
      var a, b := JoinAll(parts, order[..n]), JoinAt(kept, ps[..n]);
      SameAppend(kept, a, b, order[n], ps[n]);
    }
  }

  lemma SameAppend(kept: map<nat, seq<Byte>>, a: Joined, b: Joined, s: nat, p: nat)
    requires Close(kept) && p in kept && s == p % WRAP && a.data == b.data && a.end.Some? == b.end.Some?
    requires b.end.Some? ==> a.end.value % WRAP == b.end.value % WRAP && exists q ::
        q in kept && b.end.value == q + |kept[q]|
    ensures var c, d := Append(a, s, kept[p]), AppendAt(b, p, kept[p]);
            && c.data == d.data && c.end.Some? && d.end.Some? && c.end.value % WRAP == d.end.value % WRAP
            && exists q :: q in kept && d.end.value == q + |kept[q]|
  {
    if b.end.Some? {
      var q: nat :| q in kept && b.end.value == q + |kept[q]|;
      assert p + |kept[p]| - q <= HALF && q + |kept[q]| - p <= HALF;
      ComparedModulo(s, a.end.value, p, b.end.value);
    }
    hide Close;
    SameSum(s, p, |kept[p]|);
  }

  lemma SameSum(s: nat, p: nat, n: nat)
    requires s == p % WRAP
    ensures (s + n) % WRAP == (p + n) % WRAP
  {
    var k := p / WRAP;
    assert p + n == (s + n) + WRAP * k;
  }

  /** Segments within 2^31 bytes with one number have one position. */
  lemma OnePosition(p: nat, q: nat)
    requires p % WRAP == q % WRAP && p - q < WRAP && q - p < WRAP
    ensures p == q
  {
  }

  lemma {:induction false} PartsAreKept(stream: int -> Byte, segs: seq<Segment>, at: seq<nat>)
    requires AreCuts(stream, segs, at)
    ensures Numbered(Parts(segs), Kept(segs, at)) && Close(Kept(segs, at))
  {
    hide Numbered, Close, IsCut;
    KeptIsClose(stream, segs, at);
    if segs == [] {
      NothingNumbered();
    } else {
      var n := |segs| - 1;
      PartsAreKept(stream, segs[..n], at[..n]);
      if segs[n].payload != [] {
        SameNumbers(stream, segs, at, n);
      }
    }
  }

  lemma NothingNumbered()
    ensures Numbered(map[], map[])
  {
  }

  lemma SameNumbers(stream: int -> Byte, segs: seq<Segment>, at: seq<nat>, n: nat)
    requires AreCuts(stream, segs, at) && n == |segs| - 1 && segs[n].payload != []
    requires Numbered(Parts(segs[..n]), Kept(segs[..n], at[..n]))
    ensures segs[n].number in Parts(segs[..n]) <==> at[n] in Kept(segs[..n], at[..n])
    ensures Numbered(Parts(segs[..n])[segs[n].number := segs[n].payload],
        Kept(segs[..n], at[..n])[at[n] := segs[n].payload])
  {
    hide Parts, Kept;
    var parts, kept := Parts(segs[..n]), Kept(segs[..n], at[..n]);
    assert IsCut(stream, segs[n], at[n]);
    forall p | p in kept && p % WRAP == at[n] % WRAP ensures p == at[n] {
      KeptIsNear(stream, segs, at, n, p);
      OnePosition(p, at[n]);
    }
    OneMoreNumbered(parts, kept, at[n], segs[n].payload);
  }

  lemma KeptIsNear(stream: int -> Byte, segs: seq<Segment>, at: seq<nat>, n: nat, p: nat)
    requires AreCuts(stream, segs, at) && n == |segs| - 1 && p in Kept(segs[..n], at[..n])
    ensures p - at[n] < WRAP && at[n] - p < WRAP
  {
    hide Kept, IsCut;
    var kept := Kept(segs[..n], at[..n]);
    var i :| 0 <= i < n && at[..n][i] == p && segs[..n][i].payload == kept[p] != [];
    assert at[i] == p && segs[i].payload == kept[p];
    assert at[i] + |segs[i].payload| - at[n] <= HALF && at[n] + |segs[n].payload| - at[i] <= HALF;
  }

  lemma OneMoreNumbered(parts: map<nat, seq<Byte>>, kept: map<nat, seq<Byte>>, at: nat, payload: seq<Byte>)
    requires Numbered(parts, kept) && forall p :: p in kept && p % WRAP == at % WRAP ==> p == at
    ensures Numbered(parts[at % WRAP := payload], kept[at := payload])
  {
    var more, after := parts[at % WRAP := payload], kept[at := payload];
    forall s | s in more ensures exists p :: p in after && p % WRAP == s {
      if s == at % WRAP {
        assert at in after;
      } else {
        var p :| p in kept && p % WRAP == s;
        assert p in after;
      }
    }
  }

  lemma KeptIsClose(stream: int -> Byte, segs: seq<Segment>, at: seq<nat>)
    requires AreCuts(stream, segs, at)
    ensures Close(Kept(segs, at))
  {
    hide Kept, IsCut;
    var kept := Kept(segs, at);
    forall p, q | p in kept && q in kept ensures p + |kept[p]| - q <= HALF {
      var i :| 0 <= i < |segs| && at[i] == p && segs[i].payload == kept[p] != [];
      var j :| 0 <= j < |segs| && at[j] == q && segs[j].payload == kept[q] != [];
    }
  }

  // --- covered bytes -------------------------------------------------------------------------------------------------

  ghost predicate HoldsStream(stream: int -> Byte, kept: map<nat, seq<Byte>>) {
    forall p, k :: p in kept && 0 <= k < |kept[p]| ==> kept[p][k] == stream(p + k)
  }

  lemma {:induction false} CoveredSplit(stream: int -> Byte, kept: map<nat, seq<Byte>>, lo: int, mid: int, hi: int)
    requires lo <= mid <= hi
    ensures CoveredBytes(stream, kept, lo, hi) ==
        CoveredBytes(stream, kept, lo, mid) + CoveredBytes(stream, kept, mid, hi)
    decreases hi - lo
  {
    hide Covered;
    if mid < hi {
      CoveredSplit(stream, kept, lo, mid, hi - 1);
    }
  }

  lemma {:induction false} CoveredSame(stream: int -> Byte, a: map<nat, seq<Byte>>, b: map<nat, seq<Byte>>, lo: int,
                                       hi: int)
    requires lo <= hi && forall x :: lo <= x < hi ==> Covered(a, x) == Covered(b, x)
    ensures CoveredBytes(stream, a, lo, hi) == CoveredBytes(stream, b, lo, hi)
    decreases hi - lo
  {
    hide Covered;
    if lo < hi {
      CoveredSame(stream, a, b, lo, hi - 1);
    }
  }

  lemma {:induction false} CoveredNowhere(stream: int -> Byte, kept: map<nat, seq<Byte>>, lo: int, hi: int)
    requires lo <= hi && forall x :: lo <= x < hi ==> !Covered(kept, x)
    ensures CoveredBytes(stream, kept, lo, hi) == []
    decreases hi - lo
  {
    hide Covered;
    if lo < hi {
      CoveredNowhere(stream, kept, lo, hi - 1);
    }
  }

  /** Where everything is covered, the covered bytes are the stream. */
  lemma {:induction false} CoveredThroughout(stream: int -> Byte, kept: map<nat, seq<Byte>>, lo: int, hi: int)
    requires lo <= hi && forall x :: lo <= x < hi ==> Covered(kept, x)
    ensures CoveredBytes(stream, kept, lo, hi) == seq(hi - lo, i => stream(lo + i))
    decreases hi - lo
  {
    hide Covered;
    if lo < hi {
      CoveredThroughout(stream, kept, lo, hi - 1);
    }
  }

  lemma InSegment(stream: int -> Byte, kept: map<nat, seq<Byte>>, p: nat, from: int)
    requires HoldsStream(stream, kept) && p in kept && p <= from <= p + |kept[p]|
    ensures CoveredBytes(stream, kept, from, p + |kept[p]|) == kept[p][from - p..]
  {
    hide CoveredBytes;
    var hi := p + |kept[p]|;
    assert forall x :: from <= x < hi ==> Covered(kept, x);
    CoveredThroughout(stream, kept, from, hi);
  }

  // --- in order ----------------------------------------------------------------------------------------------------

  function Only(kept: map<nat, seq<Byte>>, ps: seq<nat>): map<nat, seq<Byte>>
    requires forall p :: p in ps ==> p in kept
  {
    map p | p in ps :: kept[p]
  }

  ghost predicate Ascending(ps: seq<nat>) {
    forall i, j :: 0 <= i < j < |ps| ==> ps[i] < ps[j]
  }

  /** Segments joined in the order of their positions give the bytes they cover. */
  lemma {:induction false} AscendingJoin(stream: int -> Byte, kept: map<nat, seq<Byte>>, ps: seq<nat>)
    requires HoldsStream(stream, kept) && Close(kept) && ps != [] && Ascending(ps) && forall p :: p in ps ==> p in kept
    ensures var j, only := JoinAt(kept, ps), Only(kept, ps);
            && j.end.Some? && ps[0] <= j.end.value
            && j.data == CoveredBytes(stream, only, ps[0], j.end.value)
            && (forall p :: p in ps ==> p + |kept[p]| <= j.end.value)
            && exists q :: q in ps && q + |kept[q]| == j.end.value
    decreases |ps|
  {
    hide AppendAt, CoveredBytes, Only, Close, HoldsStream;
    var n := |ps| - 1;
    var p := ps[n];
    if n == 0 {
      assert JoinAt(kept, ps) == AppendAt(Joined([], None), p, kept[p]) by { assert ps[..0] == []; }
      OneSegment(stream, kept, p);
      assert ps == [p];
    } else {
      AscendingJoin(stream, kept, ps[..n]);
      var j := JoinAt(kept, ps[..n]);
      assert ps == ps[..n] + [p];
      assert kept[p] != [] by { KeptIsFilled(kept, p); }
      AppendNext(stream, kept, ps[..n], p, j);
    }
  }

  lemma KeptIsFilled(kept: map<nat, seq<Byte>>, p: nat)
    requires Close(kept) && p in kept
    ensures kept[p] != []
  {
  }

  lemma OneSegment(stream: int -> Byte, kept: map<nat, seq<Byte>>, p: nat)
    requires HoldsStream(stream, kept) && p in kept
    ensures var j := AppendAt(Joined([], None), p, kept[p]);
            j.end == Some(p + |kept[p]|) && j.data == CoveredBytes(stream, Only(kept, [p]), p, p + |kept[p]|)
  {
    hide CoveredBytes;
    InSegment(stream, Only(kept, [p]), p, p);
    assert kept[p][0..] == kept[p];
  }

  /** Up to the end of `q`, which starts before `p`, the segment `p` covers nothing new. */
  lemma CoveredBefore(kept: map<nat, seq<Byte>>, ps: seq<nat>, p: nat, q: nat)
    requires (forall r :: r in ps ==> r in kept) && p in kept && q in ps && q < p
    ensures forall x :: x < q + |kept[q]| ==> Covered(Only(kept, ps), x) == Covered(Only(kept, ps + [p]), x)
  {
    OneMoreCovers(kept, ps, p);
    var a := Only(kept, ps);
    forall x | p <= x < q + |kept[q]| ensures Covered(a, x) {
      assert q in a && q <= x < q + |a[q]|;
    }
  }

  lemma NothingBetween(kept: map<nat, seq<Byte>>, ps: seq<nat>, p: nat, e: int)
    requires (forall r :: r in ps ==> r in kept && r + |kept[r]| <= e) && p in kept
    ensures forall x :: e <= x < p ==> !Covered(Only(kept, ps + [p]), x)
  {
    OneMoreCovers(kept, ps, p);
  }

  lemma AppendNext(stream: int -> Byte, kept: map<nat, seq<Byte>>, ps: seq<nat>, p: nat, j: Joined)
    requires HoldsStream(stream, kept) && ps != [] && p in kept && kept[p] != [] && forall q :: q in ps ==>
        q in kept && ps[0] <= q < p
    requires j.end.Some? && ps[0] <= j.end.value && j.data == CoveredBytes(stream, Only(kept, ps), ps[0], j.end.value)
    requires forall q :: q in ps ==> q + |kept[q]| <= j.end.value
    requires exists q :: q in ps && q + |kept[q]| == j.end.value
    ensures var k := AppendAt(j, p, kept[p]);
            && k.end.Some? && ps[0] <= k.end.value &&
                k.data == CoveredBytes(stream, Only(kept, ps + [p]), ps[0], k.end.value)
            && (forall q :: q in ps + [p] ==> q + |kept[q]| <= k.end.value)
            && exists q :: q in ps + [p] && q + |kept[q]| == k.end.value
  {
    hide CoveredBytes, Covered;
    var a, b, e, lo, hi := Only(kept, ps), Only(kept, ps + [p]), j.end.value, ps[0], p + |kept[p]|;
    var q: nat :| q in ps && q + |kept[q]| == e;
    OneMoreCovers(kept, ps, p);
    CoveredBefore(kept, ps, p, q);
    CoveredSame(stream, a, b, lo, e);
    var k := AppendAt(j, p, kept[p]);
    if p >= e {
      CoveredSplit(stream, b, lo, e, hi);
      CoveredSplit(stream, b, e, p, hi);
      NothingBetween(kept, ps, p, e);
      CoveredNowhere(stream, b, e, p);
      InSegment(stream, b, p, p);
      assert b[p][0..] == kept[p];
      assert p in ps + [p];
    } else if e - p < |kept[p]| {
      CoveredSplit(stream, b, lo, e, hi);
      InSegment(stream, b, p, e);
      assert p in ps + [p];
    } else {
      assert q in ps + [p];
    }
  }

  lemma OneMoreCovers(kept: map<nat, seq<Byte>>, ps: seq<nat>, p: nat)
    requires p in kept && forall q :: q in ps ==> q in kept
    ensures forall x :: Covered(Only(kept, ps + [p]), x) <==> Covered(Only(kept, ps), x) || p <= x < p + |kept[p]|
  {
    var a, b := Only(kept, ps), Only(kept, ps + [p]);
    assert forall q :: q in ps + [p] <==> q in ps || q == p;
    forall x ensures Covered(b, x) <==> Covered(a, x) || p <= x < p + |kept[p]| {
      if Covered(b, x) && !(p <= x < p + |kept[p]|) {
        var q :| q in b && q <= x < q + |b[q]|;
        assert q in a;
      }
      if Covered(a, x) {
        var q :| q in a && q <= x < q + |a[q]|;
        assert q in b && b[q] == a[q];
      }
      if p <= x < p + |kept[p]| {
        assert p in b;
      }
    }
  }

  // --- in any order ------------------------------------------------------------------------------------------------

  /** In whatever order they are joined: no more bytes than are covered from the first segment on. */
  lemma {:induction false} JoinIsBounded(stream: int -> Byte, kept: map<nat, seq<Byte>>, ps: seq<nat>)
    requires HoldsStream(stream, kept) && Close(kept) && ps != [] && forall p :: p in ps ==> p in kept
    ensures var j := JoinAt(kept, ps);
            && j.end.Some? && ps[0] <= j.end.value && |j.data| <= |CoveredBytes(stream, kept, ps[0], j.end.value)|
            && exists q :: q in kept && q + |kept[q]| == j.end.value
    decreases |ps|
  {
    hide CoveredBytes;
    var n := |ps| - 1;
    var p: nat := ps[n];
    var hi := p + |kept[p]|;
    if n == 0 {
      assert JoinAt(kept, ps[..0]) == Joined([], None) by { assert ps[..0] == []; }
      InSegment(stream, kept, p, p);
    } else {
      JoinIsBounded(stream, kept, ps[..n]);
      var j := JoinAt(kept, ps[..n]);
      var e := j.end.value;
      if p >= e {
        CoveredSplit(stream, kept, ps[0], e, hi);
        CoveredSplit(stream, kept, e, p, hi);
        InSegment(stream, kept, p, p);
      } else if e - p < |kept[p]| {
        CoveredSplit(stream, kept, ps[0], e, hi);
        InSegment(stream, kept, p, e);
      }
    }
  }

  // --- the main result ---------------------------------------------------------------------------------------------

  /** The positions behind an order of numbers. */
  lemma {:induction false} PositionsOf(parts: map<nat, seq<Byte>>, kept: map<nat, seq<Byte>>, order: seq<nat>)
      returns (ps: seq<nat>)
    requires Numbered(parts, kept) && forall s :: s in order ==> s in parts
    ensures |ps| == |order| && (forall p :: p in ps ==> p in kept)
    ensures forall i :: 0 <= i < |ps| ==> order[i] == ps[i] % WRAP && parts[order[i]] == kept[ps[i]]
  {
    ps := [];
    if order != [] {
      var n := |order| - 1;
      var before := PositionsOf(parts, kept, order[..n]);
      assert order[n] in parts;
      var p: nat :| p in kept && p % WRAP == order[n];
      ps := before + [p];
    }
  }

  lemma PositionsAreAll(parts: map<nat, seq<Byte>>, kept: map<nat, seq<Byte>>, order: seq<nat>, ps: seq<nat>)
    requires Numbered(parts, kept) && Close(kept) && (forall s :: s in order <==> s in parts)
    requires |ps| == |order| && (forall p :: p in ps ==> p in kept) && forall i :: 0 <= i < |ps| ==>
        order[i] == ps[i] % WRAP
    ensures forall p :: p in kept ==> p in ps
  {
    forall p | p in kept ensures p in ps {
      var i :| 0 <= i < |order| && order[i] == p % WRAP;
      assert ps[i] in kept;
      OnePosition(p, ps[i]);
    }
  }

  lemma OrderedNumbers(parts: map<nat, seq<Byte>>, order: seq<nat>, m: nat)
    requires IsOrder(parts, order) && IsLeast(parts.Keys, m) && forall s :: s in parts ==> s < WRAP
    ensures Ascending(order) && order != [] && order[0] == m
  {
    forall i, j | 0 <= i < j < |order| ensures order[i] < order[j] {
      assert order[i] in order && order[j] in order;
      DistancesDiffer(order[i], order[j], m);
    }
    assert m in order;
    var k :| 0 <= k < |order| && order[k] == m;
    assert order[0] in order;
  }

  lemma LeastExists(s: set<nat>) returns (m: nat)
    requires s != {}
    ensures IsLeast(s, m)
  {
    var some :| some in s;
    var below := set n | n in s && n < some;
    assert some !in below;
    if below == {} {
      m := some;
      assert forall n :: n in s && n < m ==> n in below;
    } else {
      m := LeastExists(below);
      assert forall n :: n in s ==> n in below || n >= some;
    }
  }

  lemma NumbersFollowPositions(ps: seq<nat>, order: seq<nat>, kept: map<nat, seq<Byte>>)
    requires |ps| == |order| && Ascending(order) && NoWrap(kept) && forall p :: p in ps ==> p in kept
    requires forall i :: 0 <= i < |ps| ==> order[i] == ps[i] % WRAP
    ensures Ascending(ps)
  {
    forall i, j | 0 <= i < j < |ps| ensures ps[i] < ps[j] {
      assert ps[i] in kept && ps[j] in kept && order[i] < order[j];
    }
  }

  lemma LapAhead(a: nat, b: nat)
    requires a % WRAP <= b % WRAP && a / WRAP < b / WRAP
    ensures b - a >= WRAP
  {
  }

  lemma InOneLap(a: nat, b: nat)
    requires a <= b
    ensures a / WRAP <= b / WRAP
  {
  }

  /** Across a boundary, the segment with the smallest number is not the first of the stream. */
  lemma WrappedStartIsLate(kept: map<nat, seq<Byte>>, first: nat, p: nat, q: nat)
    requires Close(kept) && first in kept && p in kept && q in kept && p / WRAP < q / WRAP
    requires forall r :: r in kept ==> first % WRAP <= r % WRAP
    ensures p < first
  {
    assert q + |kept[q]| - first <= HALF;
    if first <= p {
      InOneLap(first, p);
      LapAhead(first, q);
    }
  }

  lemma OutsideNothing(stream: int -> Byte, kept: map<nat, seq<Byte>>, lo: nat, hi: nat, a: nat, b: nat)
    requires Spans(kept, lo, hi) && lo <= a <= b <= hi && Spans(kept, a, b)
    ensures CoveredBytes(stream, kept, lo, hi) == CoveredBytes(stream, kept, a, b)
  {
    hide CoveredBytes;
    CoveredSplit(stream, kept, lo, a, hi);
    CoveredSplit(stream, kept, a, b, hi);
    CoveredNowhere(stream, kept, lo, a);
    CoveredNowhere(stream, kept, b, hi);
  }

  /**
   Segments cut from one stream within 2^31 bytes, retransmitted, overlapping, in any order of arrival: the result is
   the covered bytes in order, each once, exactly when no 2^32 boundary lies between the starts of the kept segments.
   */
  lemma ReassemblyIsExact(stream: int -> Byte, segs: seq<Segment>, at: seq<nat>, data: seq<Byte>, lo: nat, hi: nat)
    requires AreCuts(stream, segs, at) && IsReassembly(segs, data) && Spans(Kept(segs, at), lo, hi)
    ensures data == CoveredBytes(stream, Kept(segs, at), lo, hi) <==> NoWrap(Kept(segs, at))
    ensures !NoWrap(Kept(segs, at)) ==> |data| < |CoveredBytes(stream, Kept(segs, at), lo, hi)|
  {
    hide CoveredBytes, Kept, Parts, Close, JoinAll, JoinAt, Numbered, IsCut, NoWrap;
    var parts, kept := Parts(segs), Kept(segs, at);
    PartsAreKept(stream, segs, at);
    var order :| IsOrder(parts, order) && data == JoinAll(parts, order).data;
    var ps := PositionsOf(parts, kept, order);
    SameJoin(parts, kept, order, ps);
    PositionsAreAll(parts, kept, order, ps);
    assert HoldsStream(stream, kept) by { KeptHoldsStream(stream, segs, at); }
    if ps == [] {
      CoveredNowhere(stream, kept, lo, hi);
      assert NoWrap(kept) by { NothingWraps(kept); }
      assert data == [] by { JoinNothing(kept); }
    } else {
      NonEmptyIsExact(stream, parts, kept, order, ps, lo, hi);
    }
  }

  lemma KeptHoldsStream(stream: int -> Byte, segs: seq<Segment>, at: seq<nat>)
    requires AreCuts(stream, segs, at)
    ensures HoldsStream(stream, Kept(segs, at))
  {
    hide Kept;
    var kept := Kept(segs, at);
    forall p, k | p in kept && 0 <= k < |kept[p]| ensures kept[p][k] == stream(p + k) {
      var i :| 0 <= i < |segs| && at[i] == p && segs[i].payload == kept[p] != [];
      assert IsCut(stream, segs[i], at[i]);
    }
  }

  lemma NothingWraps(kept: map<nat, seq<Byte>>)
    requires forall p :: p !in kept
    ensures NoWrap(kept)
  {
  }

  lemma JoinNothing(kept: map<nat, seq<Byte>>)
    ensures JoinAt(kept, []).data == []
  {
  }

  lemma NonEmptyIsExact(stream: int -> Byte, parts: map<nat, seq<Byte>>, kept: map<nat, seq<Byte>>, order: seq<nat>,
                        ps: seq<nat>, lo: nat, hi: nat)
    requires HoldsStream(stream, kept) && Close(kept) && Numbered(parts, kept) && IsOrder(parts, order)
    requires ps != [] && |ps| == |order| && (forall p :: p in ps <==> p in kept)
    requires forall i :: 0 <= i < |ps| ==> order[i] == ps[i] % WRAP
    requires Spans(kept, lo, hi)
    ensures JoinAt(kept, ps).data == CoveredBytes(stream, kept, lo, hi) <==> NoWrap(kept)
    ensures !NoWrap(kept) ==> |JoinAt(kept, ps).data| < |CoveredBytes(stream, kept, lo, hi)|
  {
    hide CoveredBytes, IsOrder, JoinAt, HoldsStream, Close, Spans, NoWrap;
    assert ps[0] in kept;
    assert forall s :: s in parts ==> s < WRAP;
    var m := LeastExists(parts.Keys);
    OrderedNumbers(parts, order, m);
    if NoWrap(kept) {
      NumbersFollowPositions(ps, order, kept);
      JoinedInOrder(stream, kept, ps, lo, hi);
    } else {
      assert forall r :: r in kept ==> r % WRAP in parts;
      JoinedAcrossWrap(stream, kept, ps, lo, hi);
    }
  }

  lemma JoinedInOrder(stream: int -> Byte, kept: map<nat, seq<Byte>>, ps: seq<nat>, lo: nat, hi: nat)
    requires HoldsStream(stream, kept) && Close(kept) && ps != [] && Ascending(ps) && forall p :: p in ps <==> p in kept
    requires Spans(kept, lo, hi)
    ensures JoinAt(kept, ps).data == CoveredBytes(stream, kept, lo, hi)
  {
    hide CoveredBytes, JoinAt, Covered, HoldsStream, Close;
    AscendingJoin(stream, kept, ps);
    assert Only(kept, ps) == kept;
    var e := JoinAt(kept, ps).end.value;
    forall p | p in kept ensures ps[0] <= p && p + |kept[p]| <= e {
      assert p in ps;
    }
    assert ps[0] in kept;
    OutsideNothing(stream, kept, lo, hi, ps[0], e);
  }

  lemma JoinedAcrossWrap(stream: int -> Byte, kept: map<nat, seq<Byte>>, ps: seq<nat>, lo: nat, hi: nat)
    requires HoldsStream(stream, kept) && Close(kept) && ps != [] && (forall p :: p in ps <==> p in kept) &&
        !NoWrap(kept)
    requires forall r :: r in kept ==> ps[0] % WRAP <= r % WRAP
    requires Spans(kept, lo, hi)
    ensures |JoinAt(kept, ps).data| < |CoveredBytes(stream, kept, lo, hi)|
  {
    hide CoveredBytes, JoinAt, Covered, HoldsStream;
    var p, q :| p in kept && q in kept && p / WRAP < q / WRAP;
    assert ps[0] in kept;
    WrappedStartIsLate(kept, ps[0], p, q);
    JoinIsBounded(stream, kept, ps);
    FewerBytes(stream, kept, lo, ps[0], JoinAt(kept, ps).end.value, hi, p);
  }

  lemma FewerBytes(stream: int -> Byte, kept: map<nat, seq<Byte>>, lo: nat, mid: nat, end: int, hi: nat, r: nat)
    requires lo <= mid <= end <= hi && r in kept && lo <= r < mid && kept[r] != []
    ensures |CoveredBytes(stream, kept, mid, end)| < |CoveredBytes(stream, kept, lo, hi)|
  {
    hide CoveredBytes;
    CoveredSplit(stream, kept, lo, mid, hi);
    CoveredSplit(stream, kept, mid, end, hi);
    CoveredSplit(stream, kept, lo, r, mid);
    CoveredSplit(stream, kept, r, r + 1, mid);
    assert Covered(kept, r);
    CoveredThroughout(stream, kept, r, r + 1);
  }

  /** Without a gap and without a boundary, the stream itself. */
  lemma GaplessIsTheStream(stream: int -> Byte, segs: seq<Segment>, at: seq<nat>, data: seq<Byte>, lo: nat, hi: nat)
    requires AreCuts(stream, segs, at) && IsReassembly(segs, data) && Spans(Kept(segs, at), lo, hi) &&
        NoWrap(Kept(segs, at))
    requires forall x :: lo <= x < hi ==> Covered(Kept(segs, at), x)
    ensures data == seq(hi - lo, i => stream(lo + i))
  {
    hide CoveredBytes, Kept, Covered, IsReassembly, NoWrap, IsCut;
    ReassemblyIsExact(stream, segs, at, data, lo, hi);
    CoveredThroughout(stream, Kept(segs, at), lo, hi);
  }

  // --- across the boundary -----------------------------------------------------------------------------------------

  /** Two segments of one byte each, on either side of the first 2^32 boundary. */
  function Astride(stream: int -> Byte): seq<Segment> {
    [Segment(WRAP - 1, [stream(WRAP - 1)]), Segment(0, [stream(WRAP)])]
  }

  lemma AstrideParts(stream: int -> Byte)
    ensures Parts(Astride(stream)) == map[WRAP - 1 := [stream(WRAP - 1)], 0 := [stream(WRAP)]]
    ensures Kept(Astride(stream), [WRAP - 1, WRAP]) == map[WRAP - 1 := [stream(WRAP - 1)], WRAP := [stream(WRAP)]]
  {
    var segs, at := Astride(stream), [WRAP - 1, WRAP];
    assert segs[..1] == [segs[0]] && [segs[0]][..0] == [] && at[..1] == [WRAP - 1] && [WRAP - 1][..0] == [];
    assert Parts([segs[0]]) == map[WRAP - 1 := [stream(WRAP - 1)]];
    assert Kept([segs[0]], [WRAP - 1]) == map[WRAP - 1 := [stream(WRAP - 1)]];
  }

  lemma AstrideOrder(parts: map<nat, seq<Byte>>)
    requires parts.Keys == {0, WRAP - 1}
    ensures IsOrder(parts, [0, WRAP - 1])
  {
    assert forall m :: IsLeast(parts.Keys, m) ==> m == 0 by {
      assert 0 in parts.Keys;
    }
  }

  lemma AstrideJoin(parts: map<nat, seq<Byte>>, b: Byte)
    requires parts.Keys == {0, WRAP - 1} && parts[0] == [b] && |parts[WRAP - 1]| == 1
    ensures JoinAll(parts, [0, WRAP - 1]).data == [b]
  {
    assert [0, WRAP - 1][..1] == [0] && [0][..0] == [];
    assert JoinAll(parts, []) == Joined([], None);
    assert JoinAll(parts, [0]) == Joined([b], Some(1));
  }

  lemma AstrideCovers(stream: int -> Byte, kept: map<nat, seq<Byte>>)
    requires kept.Keys == {WRAP - 1, WRAP} && |kept[WRAP - 1]| == |kept[WRAP]| == 1
    ensures CoveredBytes(stream, kept, WRAP - 1, WRAP + 1) == [stream(WRAP - 1), stream(WRAP)] && !NoWrap(kept)
  {
    assert WRAP - 1 in kept && WRAP in kept && (WRAP - 1) / WRAP != WRAP / WRAP;
    assert Covered(kept, WRAP - 1) && Covered(kept, WRAP);
    assert CoveredBytes(stream, kept, WRAP - 1, WRAP) == [] + [stream(WRAP - 1)];
  }

  /** The boundary matters: of two segments on either side of it, one after the other in the stream, the first one is
      lost, though both are cut from one stream. */
  lemma BoundaryLosesAByte(stream: int -> Byte)
    ensures var segs, at := Astride(stream), [WRAP - 1, WRAP];
            && AreCuts(stream, segs, at) && IsReassembly(segs, [stream(WRAP)]) && !NoWrap(Kept(segs, at))
            && CoveredBytes(stream, Kept(segs, at), WRAP - 1, WRAP + 1) == [stream(WRAP - 1), stream(WRAP)]
  {
    hide CoveredBytes, NoWrap, Parts, Kept, JoinAll, IsOrder;
    AstrideParts(stream);
    var parts := Parts(Astride(stream));
    AstrideOrder(parts);
    AstrideJoin(parts, stream(WRAP));
    AstrideCovers(stream, Kept(Astride(stream), [WRAP - 1, WRAP]));
  }
}
