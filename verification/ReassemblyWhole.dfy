/**
 When reassembly gives back all that the segments hold, and not only what the kept ones do: of two segments with one
 number the first is kept, so a longer retransmission can lose its end.
 */
module ReassemblyWhole {
  import opened Reassembly
  import opened ReassemblyExact

  /** The position is in some segment, kept or not. */
  predicate InSome(segs: seq<Segment>, at: seq<nat>, x: int)
    requires |segs| == |at|
  {
    exists i :: 0 <= i < |segs| && at[i] <= x < at[i] + |segs[i].payload|
  }

  /** The bytes of the stream that any segment holds, in order, each once. */
  function SegmentBytes(stream: int -> Byte, segs: seq<Segment>, at: seq<nat>, lo: int, hi: int): seq<Byte>
    requires lo <= hi && |segs| == |at|
    decreases hi - lo
  {
    if lo == hi then []
    else SegmentBytes(stream, segs, at, lo, hi - 1) + if InSome(segs, at, hi - 1) then [stream(hi - 1)] else []
  }

  ghost predicate AllWithin(segs: seq<Segment>, at: seq<nat>, lo: nat, hi: nat)
    requires |segs| == |at|
  {
    lo <= hi && forall i :: 0 <= i < |segs| ==> lo <= at[i] && at[i] + |segs[i].payload| <= hi
  }

  /** Every position of a segment is in a kept one too. */
  ghost predicate NothingLost(segs: seq<Segment>, at: seq<nat>)
    requires |segs| == |at|
  {
    forall x :: InSome(segs, at, x) ==> Covered(Kept(segs, at), x)
  }

  lemma CoveredIsInSome(segs: seq<Segment>, at: seq<nat>, x: int)
    requires |segs| == |at| && Covered(Kept(segs, at), x)
    ensures InSome(segs, at, x)
  {
    hide Kept;
    var kept := Kept(segs, at);
    var p :| p in kept && p <= x < p + |kept[p]|;
    var i :| 0 <= i < |segs| && at[i] == p && segs[i].payload == kept[p] != [];
  }

  lemma {:induction false} CoveredAreFewer(stream: int -> Byte, segs: seq<Segment>, at: seq<nat>, lo: int, hi: int)
    requires lo <= hi && |segs| == |at|
    ensures var covered := CoveredBytes(stream, Kept(segs, at), lo, hi);
            var all := SegmentBytes(stream, segs, at, lo, hi);
            && |covered| <= |all|
            && (covered == all <==> forall x :: lo <= x < hi && InSome(segs, at, x) ==> Covered(Kept(segs, at), x))
            && (covered == all <==> |covered| == |all|)
    decreases hi - lo
  {
    hide Kept, Covered, InSome;
    if lo < hi {
      CoveredAreFewer(stream, segs, at, lo, hi - 1);
      if Covered(Kept(segs, at), hi - 1) {
        CoveredIsInSome(segs, at, hi - 1);
      }
    }
  }

  lemma KeptWithin(segs: seq<Segment>, at: seq<nat>, lo: nat, hi: nat)
    requires |segs| == |at| && AllWithin(segs, at, lo, hi)
    ensures Spans(Kept(segs, at), lo, hi)
    ensures forall x :: InSome(segs, at, x) ==> lo <= x < hi
  {
    hide Kept;
    var kept := Kept(segs, at);
    forall p | p in kept ensures lo <= p && p + |kept[p]| <= hi {
      var i :| 0 <= i < |segs| && at[i] == p && segs[i].payload == kept[p] != [];
    }
  }

  /** The result is all that the segments hold, in order, each byte once, if and only if no 2^32 boundary lies between
      the starts of the kept segments and every position of a segment is in a kept one. */
  lemma WholeSegmentsComeBack(stream: int -> Byte, segs: seq<Segment>, at: seq<nat>, data: seq<Byte>, lo: nat, hi: nat)
    requires AreCuts(stream, segs, at) && IsReassembly(segs, data) && AllWithin(segs, at, lo, hi)
    ensures data == SegmentBytes(stream, segs, at, lo, hi) <==> NoWrap(Kept(segs, at)) && NothingLost(segs, at)
  {
    hide Kept, Covered, InSome, CoveredBytes, SegmentBytes, NoWrap, IsReassembly, IsCut, Spans, AllWithin;
    KeptWithin(segs, at, lo, hi);
    ReassemblyIsExact(stream, segs, at, data, lo, hi);
    CoveredAreFewer(stream, segs, at, lo, hi);
  }

  /** Of segments at one position the first that holds any data is the longest. */
  ghost predicate FirstsAreLongest(segs: seq<Segment>, at: seq<nat>)
    requires |segs| == |at|
  {
    forall i, j :: 0 <= i < j < |segs| && at[i] == at[j] && segs[i].payload != [] ==>
      |segs[j].payload| <= |segs[i].payload|
  }

  /** Then nothing is lost. */
  lemma LongestFirstsLoseNothing(segs: seq<Segment>, at: seq<nat>)
    requires |segs| == |at| && FirstsAreLongest(segs, at)
    ensures NothingLost(segs, at)
  {
    hide Kept, FirstsAreLongest;
    var kept := Kept(segs, at);
    forall x | InSome(segs, at, x) ensures Covered(kept, x) {
      var i :| 0 <= i < |segs| && at[i] <= x < at[i] + |segs[i].payload|;
      FirstIsKept(segs, at, i);
      assert at[i] in kept;
    }
  }

  lemma {:induction false} FirstIsKept(segs: seq<Segment>, at: seq<nat>, i: nat)
    requires |segs| == |at| && i < |segs| && segs[i].payload != [] && FirstsAreLongest(segs, at)
    ensures at[i] in Kept(segs, at) && |segs[i].payload| <= |Kept(segs, at)[at[i]]|
    decreases |segs|
  {
    hide Kept, FirstsAreLongest;
    var n := |segs| - 1;
    KeptUnfolds(segs, at);
    if i < n {
      FirstsBefore(segs, at);
      FirstIsKept(segs[..n], at[..n], i);
      assert at[..n][i] == at[i] && segs[..n][i] == segs[i];
    } else if at[n] in Kept(segs[..n], at[..n]) {
      LaterIsShorter(segs, at);
    }
  }

  lemma KeptUnfolds(segs: seq<Segment>, at: seq<nat>)
    requires |segs| == |at| && segs != []
    ensures var n := |segs| - 1;
            var before := Kept(segs[..n], at[..n]);
            Kept(segs, at) == if segs[n].payload == [] || at[n] in before then before
                              else before[at[n] := segs[n].payload]
  {
  }

  lemma FirstsBefore(segs: seq<Segment>, at: seq<nat>)
    requires |segs| == |at| && segs != [] && FirstsAreLongest(segs, at)
    ensures FirstsAreLongest(segs[..|segs| - 1], at[..|at| - 1])
  {
  }

  lemma LaterIsShorter(segs: seq<Segment>, at: seq<nat>)
    requires |segs| == |at| && segs != [] && FirstsAreLongest(segs, at)
    requires at[|at| - 1] in Kept(segs[..|segs| - 1], at[..|at| - 1])
    ensures |segs[|segs| - 1].payload| <= |Kept(segs[..|segs| - 1], at[..|at| - 1])[at[|at| - 1]]|
  {
    hide Kept;
    var n := |segs| - 1;
    var before := Kept(segs[..n], at[..n]);
    var k :| 0 <= k < n && at[..n][k] == at[n] && segs[..n][k].payload == before[at[n]] != [];
    assert at[k] == at[n] && segs[k].payload == before[at[n]];
  }

  /** A retransmission longer than the first segment of its number loses its end. */
  lemma LongerRetransmissionLosesItsEnd(stream: int -> Byte)
    ensures var segs, at := [Segment(0, [stream(0)]), Segment(0, [stream(0), stream(1)])], [0, 0];
            AreCuts(stream, segs, at) && InSome(segs, at, 1) && !NothingLost(segs, at)
  {
    hide Kept;
    var segs, at := [Segment(0, [stream(0)]), Segment(0, [stream(0), stream(1)])], [0, 0];
    KeptOfTwo(segs, at);
    assert at[1] <= 1 < at[1] + |segs[1].payload|;
    assert InSome(segs, at, 1) && !Covered(Kept(segs, at), 1);
  }

  lemma KeptOfTwo(segs: seq<Segment>, at: seq<nat>)
    requires |segs| == 2 && at == [0, 0] && segs[0].payload != []
    ensures Kept(segs, at) == map[0 := segs[0].payload]
  {
    hide Kept;
    assert segs[..1] == [segs[0]] && at[..1] == [0] && [segs[0]][..0] == [] && [0][..0] == [];
    KeptUnfolds(segs, at);
    KeptUnfolds([segs[0]], [0]);
    assert Kept([], []) == map[] by { KeptOfNone(); }
  }

  lemma KeptOfNone()
    ensures Kept([], []) == map[]
  {
  }
}
