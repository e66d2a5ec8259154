/**
 TCP stream reassembly (`streams` in `insights/traffic.py`): segments keyed by their 32-bit sequence numbers, put in
 order and joined, overlaps dropped.
 */
module Reassembly {
  import opened Wrappers

  type Byte = bv8

  const WRAP := 0x1_0000_0000
  const HALF := 0x8000_0000

  datatype Segment = Segment(number: nat, payload: seq<Byte>)

  /** The first payload seen for each sequence number. */
  function Parts(segs: seq<Segment>): (r: map<nat, seq<Byte>>)
    ensures forall s :: s in r ==> r[s] != []
  {
    if segs == [] then map[]
    else
      var before, last := Parts(segs[..|segs| - 1]), segs[|segs| - 1];
      if last.payload == [] || last.number in before then before else before[last.number := last.payload]
  }

  /** The bytes so far and the sequence number after them, which is not reduced. */
  datatype Joined = Joined(data: seq<Byte>, end: Option<int>)

  function Append(j: Joined, number: nat, payload: seq<Byte>): Joined {
    if j.end.None? then Joined(j.data + payload, Some(number + |payload|))
    else if (number - j.end.value) % WRAP < HALF then Joined(j.data + payload, Some(number + |payload|))
    else
      var overlap := (j.end.value - number) % WRAP;
      if overlap < |payload| then Joined(j.data + payload[overlap..], Some(number + |payload|)) else j
  }

  function JoinAll(parts: map<nat, seq<Byte>>, order: seq<nat>): Joined
    requires forall s :: s in order ==> s in parts
  {
    if order == [] then Joined([], None)
    else Append(JoinAll(parts, order[..|order| - 1]), order[|order| - 1], parts[order[|order| - 1]])
  }

  /** The sequence numbers ordered by their distance from the smallest one. */
  ghost predicate IsOrder(parts: map<nat, seq<Byte>>, order: seq<nat>) {
    && (forall s :: s in order <==> s in parts)
    && forall i, j, m: nat :: 0 <= i < j < |order| && IsLeast(parts.Keys, m) ==>
        (order[i] - m) % WRAP < (order[j] - m) % WRAP
  }

  predicate IsLeast(s: set<nat>, m: nat) {
    m in s && forall n :: n in s ==> m <= n
  }

  ghost predicate IsReassembly(segs: seq<Segment>, data: seq<Byte>) {
    exists order :: IsOrder(Parts(segs), order) && data == JoinAll(Parts(segs), order).data
  }

  method Least(s: set<nat>) returns (m: nat)
    requires s != {}
    ensures IsLeast(s, m)
  {
    m :| m in s;
    var left := s - {m};
    while left != {}
      invariant left <= s && m in s && forall n :: n in s && n !in left ==> m <= n
      decreases left
    {
      var n: nat :| n in left;
      if n < m {
        m := n;
      }
      left := left - {n};
    }
  }

  /** Two numbers of the 32-bit range are at different distances. */
  lemma DistancesDiffer(a: nat, b: nat, m: nat)
    requires m <= a < WRAP && m <= b < WRAP
    ensures (a - m) % WRAP == a - m && (b - m) % WRAP == b - m
  {
  }

  method InOrder(parts: map<nat, seq<Byte>>) returns (order: seq<nat>)
    requires forall s :: s in parts ==> s < WRAP
    ensures IsOrder(parts, order)
  {
    order := [];
    if parts.Keys == {} {
      return;
    }
    var least := Least(parts.Keys);
    var left := parts.Keys;
    while left != {}
      invariant left <= parts.Keys && forall s :: s in order <==> s in parts && s !in left
      invariant forall i, j :: 0 <= i < j < |order| ==> order[i] < order[j]
      invariant forall i, s :: 0 <= i < |order| && s in left ==> order[i] < s
      decreases left
    {
      var next := Least(left);
      order := order + [next];
      left := left - {next};
    }
    AscendingIsOrder(parts, order);
  }

  lemma AscendingIsOrder(parts: map<nat, seq<Byte>>, order: seq<nat>)
    requires forall s :: s in parts ==> s < WRAP
    requires (forall s :: s in order <==> s in parts) && forall i, j :: 0 <= i < j < |order| ==> order[i] < order[j]
    ensures IsOrder(parts, order)
  {
    forall i, j, m: nat | 0 <= i < j < |order| && IsLeast(parts.Keys, m)
      ensures (order[i] - m) % WRAP < (order[j] - m) % WRAP
    {
      assert order[i] in order && order[j] in order;
      DistancesDiffer(order[i], order[j], m);
    }
  }

  /** What one segment adds to the data. */
  method AddSegment(data0: seq<Byte>, end0: Option<int>, number: nat, payload: seq<Byte>) returns (data: seq<Byte>,
                    end: Option<int>)
    ensures Joined(data, end) == Append(Joined(data0, end0), number, payload)
  {
    data, end := data0, end0;
    if end.None? {
      data := data + payload;
      end := Some(number + |payload|);
    } else if (number - end.value) % WRAP < HALF {
      data := data + payload;
      end := Some(number + |payload|);
    } else {
      var overlap := (end.value - number) % WRAP;
      if overlap < |payload| {
        data := data + payload[overlap..];
        end := Some(number + |payload|);
      }
    }
  }

  /** `streams`, for the segments of one direction of one connection. */
  method Reassemble(segs: seq<Segment>) returns (data: seq<Byte>)
    requires forall i :: 0 <= i < |segs| ==> segs[i].number < WRAP
    ensures IsReassembly(segs, data)
  {
    hide Append, IsOrder;
    var parts: map<nat, seq<Byte>> := map[];
    for i := 0 to |segs|
      invariant parts == Parts(segs[..i])
      invariant forall s :: s in parts ==> s < WRAP
    {
      assert segs[..i + 1][..i] == segs[..i];
      if segs[i].payload != [] && segs[i].number !in parts {
        parts := parts[segs[i].number := segs[i].payload];
      }
    }
    assert segs[..|segs|] == segs;
    var order := InOrder(parts);
    data := [];
    var end: Option<int> := None;
    for k := 0 to |order|
      invariant Joined(data, end) == JoinAll(parts, order[..k])
    {
      assert order[..k + 1][..k] == order[..k];
      data, end := AddSegment(data, end, order[k], parts[order[k]]);
    }
    assert order[..|order|] == order;
  }

  // --- segments of one byte stream ---------------------------------------------------------------------------------

  /** The segment holds the stream from position `at` on. */
  ghost predicate IsCut(stream: int -> Byte, seg: Segment, at: nat) {
    && seg.number == at % WRAP
    && forall k :: 0 <= k < |seg.payload| ==> seg.payload[k] == stream(at + k)
  }

  /** Every segment is cut from the stream at its position, and all of them lie within 2^31 bytes. */
  ghost predicate AreCuts(stream: int -> Byte, segs: seq<Segment>, at: seq<nat>) {
    && |at| == |segs| && (forall i :: 0 <= i < |segs| ==> IsCut(stream, segs[i], at[i]))
    && forall i, j :: 0 <= i < |segs| && 0 <= j < |segs| ==> at[i] + |segs[i].payload| - at[j] <= HALF
  }

  /** The segments that are kept, by position: for each position the first that arrived with any data. */
  function Kept(segs: seq<Segment>, at: seq<nat>): (r: map<nat, seq<Byte>>)
    requires |segs| == |at|
    ensures forall p :: p in r ==> exists i :: 0 <= i < |segs| && at[i] == p && segs[i].payload == r[p] != []
  {
    if segs == [] then map[]
    else
      var n := |segs| - 1;
      var before := Kept(segs[..n], at[..n]);
      assert forall p :: p in before ==> exists i ::
          0 <= i < n && at[..n][i] == at[i] == p && segs[..n][i] == segs[i] && segs[i].payload == before[p];
      if segs[n].payload == [] || at[n] in before then before else before[at[n] := segs[n].payload]
  }

  /** The position is in a kept segment. */
  predicate Covered(kept: map<nat, seq<Byte>>, x: int) {
    exists p :: p in kept && p <= x < p + |kept[p]|
  }

  /** The bytes of the stream at covered positions from `lo` to `hi`, in order, each once. */
  function CoveredBytes(stream: int -> Byte, kept: map<nat, seq<Byte>>, lo: int, hi: int): (r: seq<Byte>)
    requires lo <= hi
    ensures |r| <= hi - lo
    decreases hi - lo
  {
    if lo == hi then []
    else CoveredBytes(stream, kept, lo, hi - 1) + if Covered(kept, hi - 1) then [stream(hi - 1)] else []
  }

  /** All kept segments lie between the two positions. */
  ghost predicate Spans(kept: map<nat, seq<Byte>>, lo: nat, hi: nat) {
    lo <= hi && forall p :: p in kept ==> lo <= p && p + |kept[p]| <= hi
  }

  /** No 2^32 boundary lies between the starts of the kept segments. */
  ghost predicate NoWrap(kept: map<nat, seq<Byte>>) {
    forall p, q :: p in kept && q in kept ==> p / WRAP == q / WRAP
  }
}
