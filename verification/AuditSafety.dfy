/**
 What an accepted log is worth: the prefix an anchor pins, the shape of the signatures, and what appending a record
 does.
 */
module AuditSafety {
  import opened Wrappers
  import opened Audit

  // --- the chain ---------------------------------------------------------------------------------------------------

  lemma AcceptedIsChained(c: Crypto, key: Option<Key>, log: seq<Record>, anchors: seq<Anchor>)
    requires Accepts(c, key, log, anchors)
    ensures Chained(c, log)
  {
    hide FirstAnchorFlaw, AnchorsAt;
    forall i | 0 <= i < |log| ensures Links(c, log, i) {
      assert Flaw(c, key, log, anchors, i).None?;
    }
  }

  ghost predicate SameContents(a: seq<Record>, b: seq<Record>, n: nat)
    requires n <= |a| && n <= |b|
  {
    forall i :: 0 <= i < n ==> a[i].content == b[i].content && a[i].hash == b[i].hash
  }

  /** Two different inputs, both in use at position `i`, on which the digest gives the same value. */
  ghost predicate Collision(c: Crypto, a: seq<Record>, b: seq<Record>, i: nat)
    requires i < |a| && i < |b|
  {
    && (Head(a, i) != Head(b, i) || a[i].content != b[i].content)
    && c.digest(Head(a, i), a[i].content) == c.digest(Head(b, i), b[i].content)
  }

  /** The head of a chain fixes everything before it, unless the digest collides. */
  lemma {:induction false} HeadFixesThePast(c: Crypto, a: seq<Record>, b: seq<Record>, n: nat)
    requires Chained(c, a) && Chained(c, b) && n <= |a| && n <= |b| && Head(a, n) == Head(b, n)
    ensures SameContents(a, b, n) || exists i :: 0 <= i < n && Collision(c, a, b, i)
  {
    if n > 0 {
      assert Links(c, a, n - 1) && Links(c, b, n - 1);
      if Head(a, n - 1) == Head(b, n - 1) && a[n - 1].content == b[n - 1].content {
        HeadFixesThePast(c, a, b, n - 1);
      } else {
        assert Collision(c, a, b, n - 1);
      }
    }
  }

  /**
   An accepted log holds what the anchored log held: if `later` is accepted with an anchor that names the head of the
   first `n` records of `earlier`, then its own first `n` records have the same contents, or the digest collides.
   */
  lemma AnchorPinsThePrefix(c: Crypto, key: Option<Key>, earlier: seq<Record>, n: nat, later: seq<Record>,
                            anchors: seq<Anchor>, a: Anchor)
    requires Chained(c, earlier) && n <= |earlier| && a in anchors && a.records == n && a.head == Some(Head(earlier, n))
    requires Accepts(c, key, later, anchors)
    ensures n <= |later|
    ensures SameContents(earlier, later, n) || exists i :: 0 <= i < n && Collision(c, earlier, later, i)
  {
    hide RecordFlaw, FirstAnchorFlaw, AnchorsAt;
    AcceptedIsChained(c, key, later, anchors);
    assert AnchorFlaw(c, key, a, Head(later, n)).None? by {
      assert a in AnchorsAt(anchors, n);
      if n > 0 {
        assert Flaw(c, key, later, anchors, n - 1).None?;
      }
    }
    HeadFixesThePast(c, earlier, later, n);
  }

  ghost predicate NoCollisions(c: Crypto, a: seq<Record>, b: seq<Record>) {
    forall i :: 0 <= i < |a| && i < |b| ==> !Collision(c, a, b, i)
  }

  /** `anchor`: a checkpoint of the log, signed when there is a key. */
  function MakeAnchor(c: Crypto, key: Option<Key>, log: seq<Record>, ts: string): Anchor {
    var head := Head(log, |log|);
    Anchor(|log|, Some(head), if key.Some? then Some(c.keyId(key.value)) else None,
           if key.Some? then Some(c.mac(key.value, OfAnchor(|log|, head, ts))) else None, ts)
  }

  /** `anchor`: refused on a log that does not verify. */
  method TakeAnchor(c: Crypto, key: Option<Key>, log: seq<Record>, ts: string) returns (r: Result<Anchor, Verdict>)
    ensures r.Ok? <==> Accepts(c, key, log, [])
    ensures r.Ok? ==> r.value == MakeAnchor(c, key, log, ts)
    ensures r.Err? ==> IsVerdict(r.error, c, key, log, []) && r.error.Rejected?
  {
    hide RecordFlaw, AnchorFlaw, FirstAnchorFlaw, AnchorsAt;
    var v := Verify(c, key, log, []);
    if v.Rejected? {
      RejectedIsNotAccepted(v, c, key, log, []);
      return Err(v);
    }
    r := Ok(Anchor(v.records, Some(v.head), if key.Some? then Some(c.keyId(key.value)) else None,
                   if key.Some? then Some(c.mac(key.value, OfAnchor(v.records, v.head, ts))) else None, ts));
  }

  lemma RejectedIsNotAccepted(v: Verdict, c: Crypto, key: Option<Key>, log: seq<Record>, anchors: seq<Anchor>)
    requires IsVerdict(v, c, key, log, anchors) && v.Rejected?
    ensures !Accepts(c, key, log, anchors)
  {
    hide RecordFlaw, FirstAnchorFlaw, AnchorsAt, Flaw;
  }

  /**
   What an honest anchor decides, exactly: a log is accepted with it when the log is accepted at all and still starts
   with the contents of the anchored one. Edits, reorderings, removals and re-chaining before the anchor are refused,
   and nothing else is.
   */
  lemma AnchorDecidesThePrefix(c: Crypto, key: Option<Key>, earlier: seq<Record>, ts: string, later: seq<Record>)
    requires Chained(c, earlier) && NoCollisions(c, earlier, later)
    ensures Accepts(c, key, later, [MakeAnchor(c, key, earlier, ts)]) <==>
            Accepts(c, key, later, []) && |earlier| <= |later| && SameContents(earlier, later, |earlier|)
  {
    hide RecordFlaw, FirstAnchorFlaw, AnchorsAt, AnchorFlaw;
    var a := MakeAnchor(c, key, earlier, ts);
    var n := |earlier|;
    if Accepts(c, key, later, [a]) {
      AnchorPinsThePrefix(c, key, earlier, n, later, [a], a);
      FewerAnchors(c, key, later, [a]);
    }
    if Accepts(c, key, later, []) && n <= |later| && SameContents(earlier, later, n) {
      assert Head(earlier, n) == Head(later, n);
      HonestAnchor(c, key, a, later);
      OneAnchor(c, key, later, a);
    }
  }

  lemma FewerAnchors(c: Crypto, key: Option<Key>, log: seq<Record>, anchors: seq<Anchor>)
    requires Accepts(c, key, log, anchors)
    ensures Accepts(c, key, log, [])
  {
    hide RecordFlaw, AnchorFlaw;
    forall i | 0 <= i < |log| ensures Flaw(c, key, log, [], i).None? {
      assert Flaw(c, key, log, anchors, i).None?;
    }
  }

  lemma HonestAnchor(c: Crypto, key: Option<Key>, a: Anchor, log: seq<Record>)
    requires 0 <= a.records <= |log| && a.head == Some(Head(log, a.records))
    requires key.Some? && a.mac.Some? ==>
               a.kid == Some(c.keyId(key.value)) &&
                   a.mac == Some(c.mac(key.value, OfAnchor(a.records, Head(log, a.records), a.ts)))
    ensures AnchorFlaw(c, key, a, Head(log, a.records)).None?
  {
  }

  lemma OneAnchor(c: Crypto, key: Option<Key>, log: seq<Record>, a: Anchor)
    requires Accepts(c, key, log, []) && 0 <= a.records <= |log| && AnchorFlaw(c, key, a, Head(log, a.records)).None?
    ensures Accepts(c, key, log, [a])
  {
    hide RecordFlaw, AnchorFlaw, AnchorsAt, FirstAnchorFlaw;
    forall i | 0 <= i < |log| ensures Flaw(c, key, log, [a], i).None? {
      assert Flaw(c, key, log, [], i).None?;
      var taken := AnchorsAt([a], i + 1);
      assert forall b :: b in taken ==> b in [a] && b.records == i + 1;
    }
    assert forall b :: b in AnchorsAt([a], 0) ==> b == a && a.records == 0;
  }

  // --- signatures ----------------------------------------------------------------------------------------------------

  /** Unsigned records, then records signed with the key (with any key when none is configured). */
  ghost predicate SignedFrom(c: Crypto, key: Option<Key>, log: seq<Record>, m: nat)
    requires m <= |log|
  {
    && (forall i :: 0 <= i < m ==> log[i].mac.None?)
    && (forall i :: m <= i < |log| ==> log[i].mac.Some? && (key.Some? ==> SignedWith(c, key.value, log[i])))
  }

  /** The first record with a signature. */
  function FirstSigned(log: seq<Record>): (m: nat)
    ensures m <= |log| && (forall i :: 0 <= i < m ==> log[i].mac.None?) && (m < |log| ==> log[m].mac.Some?)
  {
    if log == [] || log[0].mac.Some? then 0 else 1 + FirstSigned(log[1..])
  }

  /** On an intact chain, `verify` accepts exactly the logs that go from unsigned to signed with one key, once. */
  lemma SigningIsOneSwitch(c: Crypto, key: Option<Key>, log: seq<Record>)
    requires Chained(c, log)
    ensures Accepts(c, key, log, []) <==>
            (forall i :: 0 <= i < |log| ==> !MarkedUnsigned(log[i])) && exists m ::
                0 <= m <= |log| && SignedFrom(c, key, log, m)
  {
    hide FirstAnchorFlaw;
    if Accepts(c, key, log, []) {
      var m := FirstSigned(log);
      forall i | 0 <= i < |log|
        ensures !MarkedUnsigned(log[i]) && (i >= m ==>
            log[i].mac.Some? && (key.Some? ==> SignedWith(c, key.value, log[i])))
      {
        assert Flaw(c, key, log, [], i).None?;
        assert Links(c, log, i);
      }
      assert SignedFrom(c, key, log, m);
    }
    if (forall i :: 0 <= i < |log| ==> !MarkedUnsigned(log[i])) && exists m ::
        0 <= m <= |log| && SignedFrom(c, key, log, m) {
      var m :| 0 <= m <= |log| && SignedFrom(c, key, log, m);
      forall i | 0 <= i < |log| ensures Flaw(c, key, log, [], i).None? {
        assert Links(c, log, i);
        assert RecordFlaw(c, key, log, i).None?;
      }
    }
  }

  // --- appending -----------------------------------------------------------------------------------------------------

  /** The record that `record` writes after a record with this hash. Without a usable key it says why. */
  function MakeRecord(c: Crypto, key: Result<Option<Key>, string>, body: string, prev: string): Record {
    var kid := if key.Ok? && key.value.Some? then Some(c.keyId(key.value.value)) else None;
    var content := Content(Some(prev), kid, if key.Err? then Some(key.error) else None, body);
    var hash := c.digest(prev, content);
    Record(content, Some(hash), if key.Ok? && key.value.Some? then Some(c.mac(key.value.value, OfRecord(hash)))
        else None)
  }

  /** The two keys are one as far as signatures show. */
  predicate SignsAlike(c: Crypto, a: Key, b: Key, hash: string) {
    c.keyId(a) == c.keyId(b) && c.mac(a, OfRecord(hash)) == c.mac(b, OfRecord(hash))
  }

  /** When a log that verifies still verifies after one more record, with the same anchors. */
  lemma AppendedRecordVerifies(c: Crypto, key: Option<Key>, log: seq<Record>, anchors: seq<Anchor>,
                               with: Result<Option<Key>, string>, body: string)
    requires Accepts(c, key, log, anchors)
    ensures var r := MakeRecord(c, with, body, Head(log, |log|));
            Accepts(c, key, log + [r], anchors) <==>
            match with {
              case Err(why) => why == "" && SignedIn(log, |log|) == 0
              case Ok(None) => SignedIn(log, |log|) == 0
              case Ok(Some(k)) => key.None? || SignsAlike(c, k, key.value, r.hash.value)
            }
  {
    hide FirstAnchorFlaw, AnchorsAt, Flaw, MakeRecord, RecordFlaw, SignsAlike;
    var r := MakeRecord(c, with, body, Head(log, |log|));
    var more := log + [r];
    SamePrefix(c, key, log, r, anchors);
    NoAnchorsNoFlaw(c, key, more, anchors, |log|);
    AppendedFlaw(c, key, log, with, body);
    OneMoreAccepted(c, key, log, r, anchors);
  }

  lemma OneMoreAccepted(c: Crypto, key: Option<Key>, log: seq<Record>, r: Record, anchors: seq<Anchor>)
    requires Accepts(c, key, log, anchors)
    requires forall i :: 0 <= i < |log| ==> Flaw(c, key, log + [r], anchors, i) == Flaw(c, key, log, anchors, i)
    ensures Accepts(c, key, log + [r], anchors) <==> Flaw(c, key, log + [r], anchors, |log|).None?
  {
    hide FirstAnchorFlaw, AnchorsAt, Flaw;
  }

  lemma AppendedFlaw(c: Crypto, key: Option<Key>, log: seq<Record>, with: Result<Option<Key>, string>, body: string)
    ensures var r := MakeRecord(c, with, body, Head(log, |log|));
            RecordFlaw(c, key, log + [r], |log|).None? <==>
            match with {
              case Err(why) => why == "" && SignedIn(log, |log|) == 0
              case Ok(None) => SignedIn(log, |log|) == 0
              case Ok(Some(k)) => key.None? || SignsAlike(c, k, key.value, r.hash.value)
            }
  {
    var r := MakeRecord(c, with, body, Head(log, |log|));
    SignedPrefix(log, r, |log|);
    assert Head(log + [r], |log|) == Head(log, |log|);
  }

  lemma NoAnchorsNoFlaw(c: Crypto, key: Option<Key>, log: seq<Record>, anchors: seq<Anchor>, i: nat)
    requires i < |log| && forall a :: a in anchors ==> a.records <= i
    ensures Flaw(c, key, log, anchors, i) == RecordFlaw(c, key, log, i)
  {
    hide RecordFlaw;
  }

  lemma {:induction false} SignedPrefix(log: seq<Record>, r: Record, n: nat)
    requires n <= |log|
    ensures SignedIn(log + [r], n) == SignedIn(log, n)
  {
    if n > 0 {
      SignedPrefix(log, r, n - 1);
    }
  }

  lemma SamePrefix(c: Crypto, key: Option<Key>, log: seq<Record>, r: Record, anchors: seq<Anchor>)
    ensures forall i :: 0 <= i < |log| ==> Flaw(c, key, log + [r], anchors, i) == Flaw(c, key, log, anchors, i)
  {
    hide FirstAnchorFlaw, AnchorsAt;
    forall i | 0 <= i < |log| ensures Flaw(c, key, log + [r], anchors, i) == Flaw(c, key, log, anchors, i) {
      SignedPrefix(log, r, i);
      assert (log + [r])[i] == log[i];
      assert Head(log + [r], i) == Head(log, i) && Head(log + [r], i + 1) == Head(log, i + 1);
    }
  }
}
