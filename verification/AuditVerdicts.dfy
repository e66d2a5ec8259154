/**
 What a verdict of the audit log's verification says, about records and anchors themselves: exactly which logs are
 accepted, and what is wrong where one is rejected.
 */
module AuditVerdicts {
  import opened Wrappers
  import opened Audit

  /** The anchor names the log's head after its number of records; if both sides can, it carries the key's signature. */
  ghost predicate AnchorFits(c: Crypto, key: Option<Key>, log: seq<Record>, a: Anchor) {
    && a.records <= |log|
    && (0 <= a.records ==>
          && a.head == Some(Head(log, a.records))
          && (key.Some? && a.mac.Some? ==>
                a.kid == Some(c.keyId(key.value)) &&
                a.mac == Some(c.mac(key.value, OfAnchor(a.records, Head(log, a.records), a.ts)))))
  }

  /** The record is signed with the key, or comes before all signed records; nobody marked it as unsigned. */
  ghost predicate SigningFits(c: Crypto, key: Option<Key>, log: seq<Record>, i: nat)
    requires i < |log|
  {
    && !MarkedUnsigned(log[i])
    && (log[i].mac.None? ==> forall j :: 0 <= j < i ==> log[j].mac.None?)
    && (log[i].mac.Some? && key.Some? ==> SignedWith(c, key.value, log[i]))
  }

  lemma RecordFlawIs(c: Crypto, key: Option<Key>, log: seq<Record>, i: nat)
    requires i < |log|
    ensures RecordFlaw(c, key, log, i).None? <==> Links(c, log, i) && SigningFits(c, key, log, i)
  {
    assert SignedIn(log, i) == 0 <==> forall j :: 0 <= j < i ==> log[j].mac.None?;
  }

  lemma AnchorFlawIs(c: Crypto, key: Option<Key>, log: seq<Record>, a: Anchor)
    requires 0 <= a.records <= |log|
    ensures AnchorFlaw(c, key, a, Head(log, a.records)).None? <==> AnchorFits(c, key, log, a)
  {
  }

  /** The anchors right after record `i`, and before the first for `i == 0`, fit. */
  lemma AnchorsAtFit(c: Crypto, key: Option<Key>, log: seq<Record>, anchors: seq<Anchor>, n: nat)
    requires n <= |log|
    ensures FirstAnchorFlaw(c, key, AnchorsAt(anchors, n), Head(log, n)).None? <==>
              forall a :: a in anchors && a.records == n ==> AnchorFits(c, key, log, a)
  {
    hide AnchorFlaw, AnchorFits;
    forall a | a in anchors && a.records == n
      ensures AnchorFlaw(c, key, a, Head(log, n)).None? <==> AnchorFits(c, key, log, a)
    {
      AnchorFlawIs(c, key, log, a);
    }
  }

  /** A log is accepted with its anchors if and only if every record is linked and signed as it must be and every anchor
      fits. */
  lemma AcceptedExactly(c: Crypto, key: Option<Key>, log: seq<Record>, anchors: seq<Anchor>)
    ensures Accepts(c, key, log, anchors) <==>
              && Chained(c, log) && (forall i :: 0 <= i < |log| ==> SigningFits(c, key, log, i))
              && forall a :: a in anchors ==> AnchorFits(c, key, log, a)
  {
    hide RecordFlaw, FirstAnchorFlaw, AnchorsAt, Links, SigningFits, AnchorFits, Head;
    forall i | 0 <= i < |log|
      ensures Flaw(c, key, log, anchors, i).None? <==>
                && Links(c, log, i) && SigningFits(c, key, log, i)
                && forall a :: a in anchors && a.records == i + 1 ==> AnchorFits(c, key, log, a)
    {
      RecordFlawIs(c, key, log, i);
      AnchorsAtFit(c, key, log, anchors, i + 1);
    }
    assert Head(log, 0) == GENESIS by { HeadOfNothing(log); }
    AnchorsAtFit(c, key, log, anchors, 0);
    forall a | a in anchors ensures AnchorFits(c, key, log, a) ==> a.records <= |log| {
      if AnchorFits(c, key, log, a) {
        FitsInside(c, key, log, a);
      }
    }
    if Accepts(c, key, log, anchors) {
      forall a | a in anchors ensures AnchorFits(c, key, log, a) {
        if a.records < 0 {
          BeforeTheBeginning(c, key, log, a);
        } else if a.records > 0 {
          assert Flaw(c, key, log, anchors, a.records - 1).None?;
        }
      }
    }
  }

  lemma HeadOfNothing(log: seq<Record>)
    ensures Head(log, 0) == GENESIS
  {
  }

  lemma FitsInside(c: Crypto, key: Option<Key>, log: seq<Record>, a: Anchor)
    requires AnchorFits(c, key, log, a)
    ensures a.records <= |log|
  {
  }

  lemma BeforeTheBeginning(c: Crypto, key: Option<Key>, log: seq<Record>, a: Anchor)
    requires a.records < 0
    ensures AnchorFits(c, key, log, a)
  {
  }

  // --- rejections --------------------------------------------------------------------------------------------------

  /** What the reason says of the record `r`, whose predecessor's hash is `prev`. */
  predicate RecordHas(c: Crypto, key: Option<Key>, r: Record, prev: string, signedBefore: bool, why: Reason) {
    match why
    case ChainBroken => r.content.prev != Some(prev)
    case Modified => r.content.prev == Some(prev) && r.hash != Some(c.digest(prev, r.content))
    case NotSigned(text) => r.content.unsigned == Some(text) && text != ""
    case Stripped => r.mac.None? && signedBefore
    case OtherKey(kid) => r.mac.Some? && r.content.kid == kid && key.Some? && kid != Some(c.keyId(key.value))
    case BadSignature =>
      && r.mac.Some? && key.Some? && r.hash.Some?
      && r.content.kid == Some(c.keyId(key.value)) && r.mac != Some(c.mac(key.value, OfRecord(r.hash.value)))
    case _ => false
  }

  /** What the reason says of an anchor whose log has the hash `head` there. */
  predicate AnchorHas(c: Crypto, key: Option<Key>, a: Anchor, head: string, why: Reason) {
    match why
    case AnchorDiffers(n) => a.records == n && a.head != Some(head)
    case AnchorOtherKey(n) =>
      && a.records == n && a.head == Some(head) && a.mac.Some?
      && key.Some? && a.kid != Some(c.keyId(key.value))
    case AnchorAltered(n) =>
      && a.records == n && a.head == Some(head) && a.mac.Some?
      && key.Some? && a.kid == Some(c.keyId(key.value)) && a.mac != Some(c.mac(key.value, OfAnchor(n, head, a.ts)))
    case _ => false
  }

  ghost predicate SignedBefore(log: seq<Record>, i: nat)
    requires i <= |log|
  {
    exists j :: 0 <= j < i && log[j].mac.Some?
  }

  lemma SignedBeforeIs(log: seq<Record>, i: nat)
    requires i <= |log|
    ensures SignedIn(log, i) > 0 <==> SignedBefore(log, i)
  {
  }

  lemma RecordFlawIsTrue(c: Crypto, key: Option<Key>, log: seq<Record>, i: nat)
    requires i < |log|
    ensures var flaw := RecordFlaw(c, key, log, i);
            flaw.Some? ==>
              RecordHas(c, key, log[i], Head(log, i), SignedBefore(log, i), flaw.value)
  {
    hide Head, SignedIn, SignedBefore;
    SignedBeforeIs(log, i);
  }

  lemma {:induction false} AnchorFlawIsTrue(c: Crypto, key: Option<Key>, anchors: seq<Anchor>, head: string)
    ensures var flaw := FirstAnchorFlaw(c, key, anchors, head);
            flaw.Some? ==> exists a :: a in anchors && AnchorHas(c, key, a, head, flaw.value)
  {
    if anchors != [] {
      AnchorFlawIsTrue(c, key, anchors[1..], head);
      var flaw := FirstAnchorFlaw(c, key, anchors, head);
      if AnchorFlaw(c, key, anchors[0], head).Some? {
        assert anchors[0] in anchors && AnchorHas(c, key, anchors[0], head, flaw.value);
      } else if flaw.Some? {
        var a :| a in anchors[1..] && AnchorHas(c, key, a, head, flaw.value);
        assert a in anchors;
      }
    }
  }

  /** Whatever makes a log rejected is there: in the record said to be broken, in an anchor taken right after it (or of
      the empty log), or in an anchor of more records than there are. */
  lemma RejectionsAreTrue(v: Verdict, c: Crypto, key: Option<Key>, log: seq<Record>, anchors: seq<Anchor>)
    requires IsVerdict(v, c, key, log, anchors) && v.Rejected?
    ensures var n, why := v.brokenAt, v.reason;
            || (why.Removed? && why.anchored > |log| == n - 1 && exists a :: a in anchors && a.records == why.anchored)
            || (n <= |log| && exists a :: a in anchors && a.records == n && AnchorHas(c, key, a, Head(log, n), why))
            || (1 <= n <= |log| && RecordHas(c, key, log[n - 1], Head(log, n - 1), SignedBefore(log, n - 1), why))
  {
    hide RecordFlaw, FirstAnchorFlaw, AnchorsAt, FlawlessTo, RecordHas, AnchorHas;
    var n := v.brokenAt;
    if !v.reason.Removed? {
      if n == 0 {
        HeadOfNothing(log);
        AnchorFlawIsTrue(c, key, AnchorsAt(anchors, 0), GENESIS);
      } else {
        RecordFlawIsTrue(c, key, log, n - 1);
        AnchorFlawIsTrue(c, key, AnchorsAt(anchors, n), Head(log, n));
      }
    }
  }
}
