/**
 The hash-chained audit log of `audit.py`: what one record carries, how `verify` walks a log, and what an accepted log
 and an anchor say about the records. The digest, the signature and the key id are parameters.
 */
module Audit {
  import opened Wrappers

  type Key = string

  const GENESIS: string := "0000000000000000000000000000000000000000000000000000000000000000"

  /** All that the digest of a record covers: every field but `hash` and `mac`. `body` is the rest of the fields. */
  datatype Content = Content(prev: Option<string>, kid: Option<string>, unsigned: Option<string>, body: string)

  datatype Record = Record(content: Content, hash: Option<string>, mac: Option<string>)

  datatype Message = OfRecord(hash: string) | OfAnchor(records: int, head: string, ts: string)

  datatype Crypto = Crypto(digest: (string, Content) -> string, mac: (Key, Message) -> string, keyId: Key -> string)

  datatype Anchor = Anchor(records: int, head: Option<string>, kid: Option<string>, mac: Option<string>, ts: string)

  datatype Reason =
    | ChainBroken | Modified | NotSigned(why: string) | Stripped | OtherKey(kid: Option<string>) | BadSignature
    | AnchorDiffers(records: int) | AnchorOtherKey(records: int) | AnchorAltered(records: int) | Removed(anchored: int)

  datatype Verdict =
    | Accepted(records: nat, head: string, signed: nat, anchors: nat)
    | Rejected(records: nat, brokenAt: nat, reason: Reason)

  // --- the chain ---------------------------------------------------------------------------------------------------

  /** The hash that record `n` must name as its predecessor's. */
  function Head(log: seq<Record>, n: nat): string
    requires n <= |log|
  {
    if n == 0 then GENESIS else if log[n - 1].hash.Some? then log[n - 1].hash.value else GENESIS
  }

  function SignedIn(log: seq<Record>, n: nat): (r: nat)
    requires n <= |log|
    ensures r <= n && (r == 0 <==> forall i :: 0 <= i < n ==> log[i].mac.None?)
  {
    if n == 0 then 0 else SignedIn(log, n - 1) + if log[n - 1].mac.Some? then 1 else 0
  }

  predicate Links(c: Crypto, log: seq<Record>, i: nat)
    requires i < |log|
  {
    && log[i].content.prev == Some(Head(log, i))
    && log[i].hash == Some(c.digest(Head(log, i), log[i].content))
  }

  ghost predicate Chained(c: Crypto, log: seq<Record>) {
    forall i :: 0 <= i < |log| ==> Links(c, log, i)
  }

  predicate MarkedUnsigned(r: Record) {
    r.content.unsigned.Some? && r.content.unsigned.value != ""
  }

  /** The record carries the signature of this key. */
  predicate SignedWith(c: Crypto, k: Key, r: Record) {
    r.hash.Some? && r.content.kid == Some(c.keyId(k)) && r.mac == Some(c.mac(k, OfRecord(r.hash.value)))
  }

  // --- what verify looks for ---------------------------------------------------------------------------------------

  /** The first thing wrong with record `i` itself, given the records before it. */
  function RecordFlaw(c: Crypto, key: Option<Key>, log: seq<Record>, i: nat): Option<Reason>
    requires i < |log|
  {
    var r, prev := log[i], Head(log, i);
    if r.content.prev != Some(prev) then Some(ChainBroken)
    else if r.hash != Some(c.digest(prev, r.content)) then Some(Modified)
    else if MarkedUnsigned(r) then Some(NotSigned(r.content.unsigned.value))
    else if r.mac.None? then if SignedIn(log, i) > 0 then Some(Stripped) else None
    else if key.Some? && r.content.kid != Some(c.keyId(key.value)) then Some(OtherKey(r.content.kid))
    else if key.Some? && r.mac != Some(c.mac(key.value, OfRecord(r.hash.value))) then Some(BadSignature)
    else None
  }

  function AnchorFlaw(c: Crypto, key: Option<Key>, a: Anchor, head: string): Option<Reason> {
    if a.head != Some(head) then Some(AnchorDiffers(a.records))
    else if key.None? || a.mac.None? then None
    else if a.kid != Some(c.keyId(key.value)) then Some(AnchorOtherKey(a.records))
    else if a.mac != Some(c.mac(key.value, OfAnchor(a.records, head, a.ts))) then Some(AnchorAltered(a.records))
    else None
  }

  /** The anchors taken of a log with so many records, in the order given. */
  function AnchorsAt(anchors: seq<Anchor>, records: int): (r: seq<Anchor>)
    ensures forall a :: a in r <==> a in anchors && a.records == records
  {
    if anchors == [] then []
    else
      var last := |anchors| - 1;
      AnchorsAt(anchors[..last], records) + if anchors[last].records == records then [anchors[last]] else []
  }

  function FirstAnchorFlaw(c: Crypto, key: Option<Key>, anchors: seq<Anchor>, head: string): (r: Option<Reason>)
    ensures r.None? <==> forall a :: a in anchors ==> AnchorFlaw(c, key, a, head).None?
  {
    if anchors == [] then None
    else
      var first := AnchorFlaw(c, key, anchors[0], head);
      if first.Some? then first
      else
        assert forall a :: a in anchors <==> a == anchors[0] || a in anchors[1..];
        FirstAnchorFlaw(c, key, anchors[1..], head)
  }

  /** The first thing wrong at record `i`: with the record, or with an anchor taken right after it. */
  function Flaw(c: Crypto, key: Option<Key>, log: seq<Record>, anchors: seq<Anchor>, i: nat): Option<Reason>
    requires i < |log|
  {
    var own := RecordFlaw(c, key, log, i);
    if own.Some? then own else FirstAnchorFlaw(c, key, AnchorsAt(anchors, i + 1), Head(log, i + 1))
  }

  ghost predicate FlawlessTo(c: Crypto, key: Option<Key>, log: seq<Record>, anchors: seq<Anchor>, n: nat)
    requires n <= |log|
  {
    forall i :: 0 <= i < n ==> Flaw(c, key, log, anchors, i).None?
  }

  ghost predicate Accepts(c: Crypto, key: Option<Key>, log: seq<Record>, anchors: seq<Anchor>) {
    && FlawlessTo(c, key, log, anchors, |log|)
    && FirstAnchorFlaw(c, key, AnchorsAt(anchors, 0), GENESIS).None?
    && forall a :: a in anchors ==> a.records <= |log|
  }

  /** The verdict is the right one: the first flaw in the order of the log, or none. */
  ghost predicate IsVerdict(v: Verdict, c: Crypto, key: Option<Key>, log: seq<Record>, anchors: seq<Anchor>) {
    if v.Accepted? then
      && Accepts(c, key, log, anchors)
      && v.records == |log| && v.head == Head(log, |log|) && v.signed == SignedIn(log, |log|) && v.anchors == |anchors|
    else if v.reason.Removed? then
      && v.records == |log| && v.brokenAt == |log| + 1 && FlawlessTo(c, key, log, anchors, |log|)
      && FirstAnchorFlaw(c, key, AnchorsAt(anchors, 0), GENESIS).None?
      && v.reason.anchored > |log| && (exists a :: a in anchors && a.records == v.reason.anchored)
      && forall a :: a in anchors ==> a.records <= v.reason.anchored
    else if v.brokenAt == 0 then
      && v.records == |log| && FlawlessTo(c, key, log, anchors, |log|)
      && FirstAnchorFlaw(c, key, AnchorsAt(anchors, 0), GENESIS) == Some(v.reason)
    else
      && v.records == v.brokenAt <= |log| && FlawlessTo(c, key, log, anchors, v.brokenAt - 1)
      && Flaw(c, key, log, anchors, v.brokenAt - 1) == Some(v.reason)
  }

  lemma FirstAnchorFlawIsOne(c: Crypto, key: Option<Key>, anchors: seq<Anchor>, head: string)
    ensures var r := FirstAnchorFlaw(c, key, anchors, head);
            r.Some? ==> r.value.AnchorDiffers? || r.value.AnchorOtherKey? || r.value.AnchorAltered?
  {
  }

  /** `_anchors_mismatch` */
  method AnchorsMismatch(c: Crypto, key: Option<Key>, anchors: seq<Anchor>, head: string) returns (r: Option<Reason>)
    ensures r == FirstAnchorFlaw(c, key, anchors, head)
  {
    assert anchors[0..] == anchors;
    for i := 0 to |anchors|
      invariant FirstAnchorFlaw(c, key, anchors[i..], head) == FirstAnchorFlaw(c, key, anchors, head)
    {
      var a := anchors[i];
      assert anchors[i..][0] == a && anchors[i..][1..] == anchors[i + 1..];
      if a.head != Some(head) {
        return Some(AnchorDiffers(a.records));
      }
      if key.None? || a.mac.None? {
        continue;
      }
      if a.kid != Some(c.keyId(key.value)) {
        return Some(AnchorOtherKey(a.records));
      }
      if a.mac != Some(c.mac(key.value, OfAnchor(a.records, head, a.ts))) {
        return Some(AnchorAltered(a.records));
      }
    }
    r := None;
  }

  function Wanted(want: map<int, seq<Anchor>>, n: int): seq<Anchor> {
    if n in want then want[n] else []
  }

  ghost predicate Groups(want: map<int, seq<Anchor>>, anchors: seq<Anchor>) {
    && (forall n: int :: Wanted(want, n) == AnchorsAt(anchors, n))
    && (forall n :: n in want ==> exists a :: a in anchors && a.records == n)
  }

  method GroupAnchors(anchors: seq<Anchor>) returns (want: map<int, seq<Anchor>>)
    ensures Groups(want, anchors)
  {
    hide Groups;
    want := map[];
    assert Groups(want, anchors[..0]) by { GroupsNothing(); }
    for i := 0 to |anchors|
      invariant Groups(want, anchors[..i])
    {
      var a := anchors[i];
      ghost var before := want;
      want := want[a.records := Wanted(want, a.records) + [a]];
      GroupsOneMore(before, anchors[..i], a);
      assert anchors[..i + 1] == anchors[..i] + [a];
    }
    assert anchors[..|anchors|] == anchors;
  }

  lemma GroupsNothing()
    ensures Groups(map[], [])
  {
  }

  lemma GroupsOneMore(want: map<int, seq<Anchor>>, anchors: seq<Anchor>, a: Anchor)
    requires Groups(want, anchors)
    ensures Groups(want[a.records := Wanted(want, a.records) + [a]], anchors + [a])
  {
    hide AnchorsAt, Wanted;
    var more, all := want[a.records := Wanted(want, a.records) + [a]], anchors + [a];
    forall n: int ensures Wanted(more, n) == AnchorsAt(all, n) {
      OneMoreWanted(want, anchors, a, n);
    }
    GroupsHaveAnchors(want, anchors, a);
  }

  lemma OneMoreWanted(want: map<int, seq<Anchor>>, anchors: seq<Anchor>, a: Anchor, n: int)
    requires Wanted(want, n) == AnchorsAt(anchors, n)
    ensures Wanted(want[a.records := Wanted(want, a.records) + [a]], n) == AnchorsAt(anchors + [a], n)
  {
    assert (anchors + [a])[..|anchors|] == anchors;
  }

  lemma GroupsHaveAnchors(want: map<int, seq<Anchor>>, anchors: seq<Anchor>, a: Anchor)
    requires forall n :: n in want ==> exists b :: b in anchors && b.records == n
    ensures forall n :: n in want || n == a.records ==> exists b :: b in anchors + [a] && b.records == n
  {
    var all := anchors + [a];
    forall n | n in want || n == a.records ensures exists b :: b in all && b.records == n {
      if n == a.records {
        assert a in all;
      } else {
        var b :| b in anchors && b.records == n;
        assert b in all;
      }
    }
  }

  lemma HasElement<T>(s: set<T>) returns (x: T)
    requires s != {}
    ensures x in s
  {
    x :| x in s;
  }

  /** The largest key beyond `n`, if any. */
  method Beyond(want: map<int, seq<Anchor>>, n: nat) returns (r: Option<int>)
    ensures r.None? <==> forall k :: k in want ==> k <= n
    ensures r.Some? ==> r.value in want && r.value > n && forall k :: k in want ==> k <= r.value
  {
    var left := want.Keys;
    r := None;
    while left != {}
      invariant left <= want.Keys
      invariant r.None? ==> forall k :: k in want && k !in left ==> k <= n
      invariant r.Some? ==> r.value in want && r.value > n && forall k :: k in want && k !in left ==> k <= r.value
      decreases left
    {
      ghost var some := HasElement(left);
      var k :| k in left;
      if k > n && (r.None? || r.value < k) {
        r := Some(k);
      }
      left := left - {k};
    }
  }

  /** The checks on one record. */
  method CheckRecord(c: Crypto, key: Option<Key>, log: seq<Record>, n: nat, prev: string, signed: nat)
    returns (r: Option<Reason>)
    requires n < |log| && prev == Head(log, n) && signed == SignedIn(log, n)
    ensures r == RecordFlaw(c, key, log, n)
    ensures r.None? ==> log[n].hash == Some(Head(log, n + 1))
    ensures r.Some? ==> !r.value.Removed?
  {
    var rec := log[n];
    if rec.content.prev != Some(prev) {
      return Some(ChainBroken);
    }
    if Some(c.digest(prev, rec.content)) != rec.hash {
      return Some(Modified);
    }
    if MarkedUnsigned(rec) {
      return Some(NotSigned(rec.content.unsigned.value));
    }
    if rec.mac.None? {
      if signed > 0 {
        return Some(Stripped);
      }
    } else {
      if key.Some? && rec.content.kid != Some(c.keyId(key.value)) {
        return Some(OtherKey(rec.content.kid));
      }
      if key.Some? && rec.mac != Some(c.mac(key.value, OfRecord(rec.hash.value))) {
        return Some(BadSignature);
      }
    }
    r := None;
  }

  /** `verify` */
  method Verify(c: Crypto, key: Option<Key>, log: seq<Record>, anchors: seq<Anchor>) returns (v: Verdict)
    ensures IsVerdict(v, c, key, log, anchors)
  {
    hide AnchorsAt, FirstAnchorFlaw, RecordFlaw, AnchorFlaw, FlawlessTo, IsVerdict, Flaw, Groups;
    var want := GroupAnchors(anchors);
    var prev, n, signed := GENESIS, 0, 0;
    assert FlawlessTo(c, key, log, anchors, 0) by { FlawlessStart(c, key, log, anchors); }
    while n < |log|
      invariant n <= |log| && prev == Head(log, n) && signed == SignedIn(log, n)
      invariant FlawlessTo(c, key, log, anchors, n)
    {
      var bad := CheckRecord(c, key, log, n, prev, signed);
      if bad.Some? {
        FlawIsVerdict(c, key, log, anchors, n, bad.value);
        return Rejected(n + 1, n + 1, bad.value);
      }
      signed := signed + if log[n].mac.Some? then 1 else 0;
      prev := log[n].hash.value;
      n := n + 1;
      Regrouped(want, anchors, n);
      bad := AnchorsMismatch(c, key, Wanted(want, n), prev);
      NextFlaw(c, key, log, anchors, n - 1, bad);
      if bad.Some? {
        FirstAnchorFlawIsOne(c, key, Wanted(want, n), prev);
        FlawIsVerdict(c, key, log, anchors, n - 1, bad.value);
        return Rejected(n, n, bad.value);
      }
    }
    Regrouped(want, anchors, 0);
    var bad := AnchorsMismatch(c, key, Wanted(want, 0), GENESIS);
    if bad.Some? {
      FirstAnchorFlawIsOne(c, key, Wanted(want, 0), GENESIS);
      v := Rejected(n, 0, bad.value);
      assert IsVerdict(v, c, key, log, anchors) by { IsLateVerdict(v, c, key, log, anchors); }
      return;
    }
    var beyond := Beyond(want, n);
    EveryAnchorIsGrouped(want, anchors);
    v := if beyond.Some? then Rejected(n, n + 1, Removed(beyond.value)) else Accepted(n, prev, signed, |anchors|);
    IsLateVerdict(v, c, key, log, anchors);
  }

  lemma FlawlessStart(c: Crypto, key: Option<Key>, log: seq<Record>, anchors: seq<Anchor>)
    ensures FlawlessTo(c, key, log, anchors, 0)
  {
  }

  lemma Regrouped(want: map<int, seq<Anchor>>, anchors: seq<Anchor>, n: int)
    requires Groups(want, anchors)
    ensures Wanted(want, n) == AnchorsAt(anchors, n)
  {
  }

  lemma NextFlaw(c: Crypto, key: Option<Key>, log: seq<Record>, anchors: seq<Anchor>, i: nat, bad: Option<Reason>)
    requires i < |log| && RecordFlaw(c, key, log, i).None? && FlawlessTo(c, key, log, anchors, i)
    requires bad == FirstAnchorFlaw(c, key, AnchorsAt(anchors, i + 1), Head(log, i + 1))
    ensures Flaw(c, key, log, anchors, i) == bad && (bad.None? ==> FlawlessTo(c, key, log, anchors, i + 1))
  {
    hide RecordFlaw, FirstAnchorFlaw, AnchorsAt;
  }

  lemma FlawIsVerdict(c: Crypto, key: Option<Key>, log: seq<Record>, anchors: seq<Anchor>, i: nat, why: Reason)
    requires i < |log| && FlawlessTo(c, key, log, anchors, i) && !why.Removed?
    requires Flaw(c, key, log, anchors, i) == Some(why) || RecordFlaw(c, key, log, i) == Some(why)
    ensures IsVerdict(Rejected(i + 1, i + 1, why), c, key, log, anchors)
  {
    hide RecordFlaw, FirstAnchorFlaw, AnchorsAt, FlawlessTo;
  }

  lemma IsLateVerdict(v: Verdict, c: Crypto, key: Option<Key>, log: seq<Record>, anchors: seq<Anchor>)
    requires FlawlessTo(c, key, log, anchors, |log|)
    requires var zero := FirstAnchorFlaw(c, key, AnchorsAt(anchors, 0), GENESIS);
             if v.Accepted? then
               && zero.None? && (forall a :: a in anchors ==> a.records <= |log|)
               && v == Accepted(|log|, Head(log, |log|), SignedIn(log, |log|), |anchors|)
             else if v.reason.Removed? then
               && zero.None? && v.records == |log| && v.brokenAt == |log| + 1 && v.reason.anchored > |log|
               && (exists a :: a in anchors && a.records == v.reason.anchored)
               && (forall a :: a in anchors ==> a.records <= v.reason.anchored)
             else v.records == |log| && v.brokenAt == 0 && zero == Some(v.reason)
    ensures IsVerdict(v, c, key, log, anchors)
  {
    hide FirstAnchorFlaw, AnchorsAt, FlawlessTo;
  }

  lemma EveryAnchorIsGrouped(want: map<int, seq<Anchor>>, anchors: seq<Anchor>)
    requires Groups(want, anchors)
    ensures forall a :: a in anchors ==> a.records in want
    ensures forall n :: n in want ==> exists a :: a in anchors && a.records == n
  {
    forall a | a in anchors ensures a.records in want {
      assert a in AnchorsAt(anchors, a.records);
      assert a in Wanted(want, a.records);
    }
  }
}
