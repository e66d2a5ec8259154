/**
 Running a function over many hosts (`_attempt` and `fan_out` in `fleet/runner.py`): retries, rolling batches and
 stopping after a failure. What a host answers, and when its deadline has passed, is the world's to say.
 */
module FanOut {
  import opened Wrappers

  type Name = string

  /** `Transient`: the connection could not be set up, so nothing ran on the host. */
  datatype Answer = Fine | Transient | Failed

  /** The answer of a host at an attempt, and whether its deadline has passed after it. */
  datatype World = World(answer: (Name, nat) -> Answer, late: (Name, nat) -> bool)

  datatype HostResult = HostResult(host: Name, answer: Answer, attempts: nat)

  predicate StopsAt(w: World, h: Name, retries: int, n: nat) {
    w.answer(h, n) != Transient || n > retries || w.late(h, n)
  }

  function Max(a: int, b: int): int {
    if a < b then b else a
  }

  /** The result of a host: its first attempt that was no transient failure, or the last one it was allowed. */
  predicate IsResult(w: World, h: Name, retries: int, r: HostResult) {
    && r.host == h && 1 <= r.attempts <= 1 + Max(0, retries) && r.answer == w.answer(h, r.attempts)
    && StopsAt(w, h, retries, r.attempts)
    && forall k :: 1 <= k < r.attempts ==> w.answer(h, k) == Transient && !w.late(h, k) && k <= retries
  }

  /** `_attempt`: run again only after a transient failure, at most `retries` times. */
  method Attempt(w: World, h: Name, retries: int) returns (r: HostResult)
    ensures IsResult(w, h, retries, r)
  {
    var n := 1;
    while true
      invariant 1 <= n <= 1 + Max(0, retries)
      invariant forall k :: 1 <= k < n ==> w.answer(h, k) == Transient && !w.late(h, k) && k <= retries
      decreases 1 + Max(0, retries) - n
    {
      var a := w.answer(h, n);
      if a != Transient || n > retries || w.late(h, n) {
        return HostResult(h, a, n);
      }
      n := n + 1;
    }
  }

  /** A host has one result. */
  lemma ResultIsUnique(w: World, h: Name, retries: int, a: HostResult, b: HostResult)
    requires IsResult(w, h, retries, a) && IsResult(w, h, retries, b)
    ensures a == b
  {
    assert a.attempts == b.attempts;
  }

  predicate AnyFailed(results: seq<HostResult>) {
    exists i :: 0 <= i < |results| && results[i].answer != Fine
  }

  /** The step from one batch to the next. */
  function BatchSize(hosts: seq<Name>, batch: Option<int>): int {
    if batch.Some? && batch.value != 0 then batch.value else if hosts != [] then |hosts| else 1
  }

  /** The results are those of the first hosts, in order, and the rest was skipped. */
  ghost predicate IsSplit(w: World, hosts: seq<Name>, retries: int, results: seq<HostResult>, skipped: seq<Name>) {
    && |results| <= |hosts| && skipped == hosts[|results|..]
    && forall i :: 0 <= i < |results| ==> IsResult(w, hosts[i], retries, results[i])
  }

  /** Where the last batch of so many results began. */
  function Start(n: nat, size: int): (r: nat)
    requires n > 0 && size > 0
    ensures r < n
  {
    (n - 1) / size * size
  }

  /** With `fail_fast` no batch before the last one run had a failure; hosts are skipped only after a failure, whole
      batches at a time. */
  ghost predicate StopsAfterFailure(size: int, failFast: bool, results: seq<HostResult>, skipped: seq<Name>)
    requires size > 0
  {
    && (failFast && results != [] ==> !AnyFailed(results[..Start(|results|, size)]))
    && (skipped != [] ==> failFast && AnyFailed(results) && |results| % size == 0)
  }

  /** `fan_out`. Without a batch size, or with zero, no host is skipped; a negative one runs nothing and reports
      nothing. */
  method RunAll(w: World, hosts: seq<Name>, batch: Option<int>, failFast: bool, retries: int)
    returns (results: seq<HostResult>, skipped: seq<Name>)
    ensures batch.Some? && batch.value > 0 ==>
              IsSplit(w, hosts, retries, results, skipped) &&
              StopsAfterFailure(batch.value, failFast, results, skipped)
    ensures batch == None || batch == Some(0) ==>
              IsSplit(w, hosts, retries, results, skipped) && |results| == |hosts|
    ensures batch.Some? && batch.value < 0 ==> results == [] && skipped == []
  {
    hide BatchSize;
    var size := BatchSize(hosts, batch);
    BatchSizeIs(hosts, batch);
    results, skipped := [], [];
    if size < 0 {
      return;
    }
    var i := 0;
    while i < |hosts|
      invariant 0 <= i && (i < |hosts| ==> i % size == 0)
      invariant if skipped == [] then |results| == (if i < |hosts| then i else |hosts|)
                else |results| + |skipped| == (if i < |hosts| then i else |hosts|)
      invariant |results| <= |hosts| && skipped == hosts[|results|..|results| + |skipped|]
      invariant forall k :: 0 <= k < |results| ==> IsResult(w, hosts[k], retries, results[k])
      invariant StopsAfterFailure(size, failFast, results, skipped)
      decreases |hosts| - i
    {
      var end := if i + size < |hosts| then i + size else |hosts|;
      NextBatch(i, size);
      if failFast && AnyFailed(results) {
        skipped := skipped + hosts[i..end];
      } else {
        ghost var before := results;
        results := RunBatch(w, hosts, i, end, retries, results);
        LastBatch(i, end, size);
        assert results[..i] == before;
      }
      i := i + size;
    }
    if batch == None || batch == Some(0) {
      OneBatch(hosts, size, failFast, results, skipped);
    }
  }

  lemma BatchSizeIs(hosts: seq<Name>, batch: Option<int>)
    ensures var size := BatchSize(hosts, batch);
            && size != 0
            && (batch.Some? && batch.value != 0 ==> size == batch.value)
            && (batch == None || batch == Some(0) ==> size >= |hosts| && size > 0)
  {
  }

  /** In one batch nothing comes after a failure. */
  lemma OneBatch(hosts: seq<Name>, size: int, failFast: bool, results: seq<HostResult>, skipped: seq<Name>)
    requires size > 0 && |results| <= |hosts| <= size && skipped == hosts[|results|..]
    requires StopsAfterFailure(size, failFast, results, skipped)
    ensures |results| == |hosts|
  {
    if skipped != [] {
      assert 0 < |results| < size;
      Quotient(|results|, 0, size);
    }
  }

  /** `pool.map` over one batch: each host by itself, results in host order. */
  method RunBatch(w: World, hosts: seq<Name>, from: nat, end: nat, retries: int, before: seq<HostResult>)
      returns (results: seq<HostResult>)
    requires from <= end <= |hosts| && |before| == from
    requires forall k :: 0 <= k < |before| ==> IsResult(w, hosts[k], retries, before[k])
    ensures |results| == end && results[..from] == before
    ensures forall k :: 0 <= k < |results| ==> IsResult(w, hosts[k], retries, results[k])
  {
    hide IsResult;
    results := before;
    for j := from to end
      invariant |results| == j && results[..from] == before
      invariant forall k :: 0 <= k < j ==> IsResult(w, hosts[k], retries, results[k])
    {
      var r := Attempt(w, hosts[j], retries);
      results := results + [r];
    }
  }

  lemma NextBatch(i: nat, size: int)
    requires size > 0 && i % size == 0
    ensures (i + size) % size == 0
  {
    var q := i / size;
    assert i + size == (q + 1) * size;
    Multiple(q + 1, size);
  }

  lemma Multiple(q: nat, size: int)
    requires size > 0
    ensures (q * size) % size == 0 && (q * size) / size == q
  {
    assert q * size < (q + 1) * size;
    Quotient(q * size, q, size);
  }

  lemma LastBatch(i: nat, end: nat, size: int)
    requires size > 0 && i % size == 0 && i < end <= i + size
    ensures Start(end, size) == i
  {
    var q := i / size;
    assert q * size == i;
    assert q * size <= end - 1 < (q + 1) * size;
    Quotient(end - 1, q, size);
  }

  lemma Quotient(n: nat, q: nat, size: int)
    requires size > 0 && q * size <= n < (q + 1) * size
    ensures n / size == q
  {
    var p := n / size;
    assert p * size <= n < p * size + size;
    if p < q {
      InOrder(p + 1, q, size);
    } else if q < p {
      InOrder(q + 1, p, size);
    }
  }

  lemma InOrder(a: int, b: int, size: int)
    requires size > 0 && a <= b
    ensures a * size <= b * size
  {
  }
}
