/**
 Concurrent calls of `record`: any number of threads in any number of processes, interleaved step by step under the
 thread lock of their process and the lock on the file, a line reaching the file in as many pieces as it likes.
 */
module AuditWriters {
  import opened Wrappers
  import opened Audit
  import opened AuditSafety
  import opened AuditTail

  type Writer = nat
  type Process = nat

  /** What a call has to write, and with which key (or why it has none). */
  datatype Job = Job(process: Process, key: Result<Option<Key>, string>, body: string)

  datatype Env = Env(x: Lexis, c: Crypto, encode: Record -> string, hashOf: string -> Option<string>, jobs: map<Writer,
      Job>)

  /** The log file as one call of `record` finds and leaves it while it holds both locks. */
  class LogFile {
    var text: string

    constructor ()
      ensures text == ""
    {
      text := "";
    }

    /** On the file of an intact log: the file of that log with the new record linked to its end. */
    method Record(e: Env, key: Result<Option<Key>, string>, body: string, ghost log: seq<Record>) returns (rec: Record)
      requires SoundEnv(e, log) && text == FileOf(e.encode, log)
      modifies this
      ensures rec == MakeRecord(e.c, key, body, Head(log, |log|))
      ensures text == FileOf(e.encode, log + [rec]) && Chained(e.c, log + [rec])
    {
      hide Lines, HashAfter, Head, Chained;
      var prev := LastHash(e.x, e.hashOf, text);
      FileEndsInHead(e.x, e.c, e.encode, e.hashOf, log);
      var signer := if key.Ok? then key.value else None;
      var content := Content(Some(prev), None, None, body);
      if key.Err? {
        content := content.(unsigned := Some(key.error));
      }
      if signer.Some? {
        content := content.(kid := Some(e.c.keyId(signer.value)));
      }
      rec := Audit.Record.Record(content, Some(e.c.digest(prev, content)), None);
      if signer.Some? {
        rec := rec.(mac := Some(e.c.mac(signer.value, OfRecord(rec.hash.value))));
      }
      text := text + (e.encode(rec) + "\n");
      FileOfOneMore(e, log, rec);
      MadeRecordLinks(e.c, log, key, body);
    }
  }

  /** Where a call is. */
  datatype Place =
    | Ready | InLock | InFile | Read(prev: string) | Writing(rest: string) | Wrote | OutOfFile | Finished

  datatype State = State(text: string, places: map<Writer, Place>, locks: map<Process, Writer>, flock: Option<Writer>)

  /** One writer moves on; `pieces` is how much of its line reaches the file. */
  datatype Step = Step(writer: Writer, pieces: nat)

  function Line(e: Env, r: Record): string {
    e.encode(r) + "\n"
  }

  function RecordOf(e: Env, w: Writer, prev: string): Record
    requires w in e.jobs
  {
    MakeRecord(e.c, e.jobs[w].key, e.jobs[w].body, prev)
  }

  predicate Enabled(e: Env, s: State, w: Writer) {
    && w in s.places && w in e.jobs && s.places[w] != Finished
    && (s.places[w] == Ready ==> e.jobs[w].process !in s.locks)
    && (s.places[w] == InLock ==> s.flock.None?)
  }

  function At(s: State, w: Writer, p: Place): State {
    s.(places := s.places[w := p])
  }

  /** The step of an enabled writer; nothing when it has to wait. */
  function Do(e: Env, s: State, step: Step): State {
    var w := step.writer;
    if !Enabled(e, s, w) then s
    else
      match s.places[w]
      case Ready => At(s, w, InLock).(locks := s.locks[e.jobs[w].process := w])
      case InLock => At(s, w, InFile).(flock := Some(w))
      case InFile => At(s, w, Read(HashAfter(e.hashOf, Lines(e.x, s.text))))
      case Read(prev) => At(s, w, Writing(Line(e, RecordOf(e, w, prev))))
      case Writing(rest) =>
        if rest == "" then At(s, w, Wrote)
        else
          var n := if step.pieces < |rest| then step.pieces + 1 else |rest|;
          At(s, w, Writing(rest[n..])).(text := s.text + rest[..n])
      case Wrote => At(s, w, OutOfFile).(flock := None)
      case OutOfFile => At(s, w, Finished).(locks := s.locks - {e.jobs[w].process})
      case Finished => s
  }

  function Run(e: Env, s: State, steps: seq<Step>): State
    decreases |steps|
  {
    if steps == [] then s else Run(e, Do(e, s, steps[0]), steps[1..])
  }

  function Start(e: Env, log: seq<Record>): State {
    State(FileOf(e.encode, log), map w | w in e.jobs :: Ready, map[], None)
  }

  // --- the log of an order of writers ------------------------------------------------------------------------------

  /** The log after these writers have appended their records one after the other. */
  function LogAfter(e: Env, log: seq<Record>, order: seq<Writer>): (r: seq<Record>)
    requires forall w :: w in order ==> w in e.jobs
    ensures |r| == |log| + |order|
  {
    if order == [] then log
    else
      var before := LogAfter(e, log, order[..|order| - 1]);
      before + [RecordOf(e, order[|order| - 1], Head(before, |before|))]
  }

  lemma {:induction false} LogAfterIsChained(e: Env, log: seq<Record>, order: seq<Writer>)
    requires Chained(e.c, log) && forall w :: w in order ==> w in e.jobs
    ensures Chained(e.c, LogAfter(e, log, order))
    decreases |order|
  {
    if order != [] {
      LogAfterIsChained(e, log, order[..|order| - 1]);
      var before := LogAfter(e, log, order[..|order| - 1]);
      MadeRecordLinks(e.c, before, e.jobs[order[|order| - 1]].key, e.jobs[order[|order| - 1]].body);
    }
  }

  lemma MadeRecordLinks(c: Crypto, log: seq<Record>, key: Result<Option<Key>, string>, body: string)
    requires Chained(c, log)
    ensures Chained(c, log + [MakeRecord(c, key, body, Head(log, |log|))])
  {
    var more := log + [MakeRecord(c, key, body, Head(log, |log|))];
    forall i | 0 <= i < |more| ensures Links(c, more, i) {
      assert Head(more, i) == Head(log, i);
      if i < |log| {
        assert Links(c, log, i);
      }
    }
  }

  // --- what every step keeps ---------------------------------------------------------------------------------------

  predicate HasWritten(p: Place) {
    p == Wrote || p == OutOfFile || p == Finished
  }

  predicate UsesFile(p: Place) {
    p.InFile? || p.Read? || p.Writing? || p.Wrote?
  }

  predicate UsesLock(p: Place) {
    UsesFile(p) || p.InLock? || p.OutOfFile?
  }

  predicate Distinct(ws: seq<Writer>) {
    forall i, j :: 0 <= i < j < |ws| ==> ws[i] != ws[j]
  }

  ghost predicate LocksFit(e: Env, s: State) {
    && s.places.Keys == e.jobs.Keys && (s.flock.Some? ==> s.flock.value in s.places)
    && (forall p :: p in s.locks ==> s.locks[p] in s.places && e.jobs[s.locks[p]].process == p)
    && (forall w :: w in s.places ==>
          (UsesLock(s.places[w]) <==> e.jobs[w].process in s.locks && s.locks[e.jobs[w].process] == w))
    && (forall w :: w in s.places ==> (UsesFile(s.places[w]) <==> s.flock == Some(w)))
  }

  /** `order` is who has written so far. */
  ghost predicate OrderFits(e: Env, s: State, order: seq<Writer>) {
    && s.places.Keys == e.jobs.Keys && Distinct(order)
    && (forall w :: w in order <==> w in s.places && HasWritten(s.places[w]))
  }

  /** The file holds the log, and what the writer inside it has written of its line. */
  ghost predicate TextFits(e: Env, now: seq<Record>, text: string, w: Writer, place: Place)
    requires w in e.jobs
  {
    match place
    case Writing(rest) => text + rest == FileOf(e.encode, now) + Line(e, RecordOf(e, w, Head(now, |now|)))
    case Read(prev) => text == FileOf(e.encode, now) && prev == Head(now, |now|)
    case _ => text == FileOf(e.encode, now)
  }

  ghost predicate FileFits(e: Env, log: seq<Record>, s: State, order: seq<Writer>) {
    && OrderFits(e, s, order)
    && var now := LogAfter(e, log, order);
       if s.flock.Some? && s.flock.value in s.places
           then TextFits(e, now, s.text, s.flock.value, s.places[s.flock.value])
       else s.text == FileOf(e.encode, now)
  }

  ghost predicate SoundEnv(e: Env, log: seq<Record>) {
    Encodes(e.x, e.encode, e.hashOf) && HashesAreNotEmpty(e.c) && Chained(e.c, log)
  }

  /** Moving on with the same locks in use. */
  lemma SameLocks(e: Env, s: State, t: State, w: Writer)
    requires LocksFit(e, s) && w in s.places && w in t.places && t.places == s.places[w := t.places[w]]
    requires t.locks == s.locks && t.flock == s.flock
    requires UsesLock(t.places[w]) == UsesLock(s.places[w]) && UsesFile(t.places[w]) == UsesFile(s.places[w])
    ensures LocksFit(e, t)
  {
    hide UsesLock, UsesFile;
  }

  lemma TakesLock(e: Env, s: State, w: Writer)
    requires LocksFit(e, s) && w in s.places && s.places[w].Ready? && e.jobs[w].process !in s.locks
    ensures LocksFit(e, At(s, w, InLock).(locks := s.locks[e.jobs[w].process := w]))
  {
  }

  lemma LeavesLock(e: Env, s: State, w: Writer)
    requires LocksFit(e, s) && w in s.places && s.places[w].OutOfFile?
    ensures LocksFit(e, At(s, w, Finished).(locks := s.locks - {e.jobs[w].process}))
  {
  }

  lemma TakesOrLeavesFile(e: Env, s: State, w: Writer)
    requires LocksFit(e, s) && w in s.places
    ensures s.places[w].InLock? && s.flock.None? ==> LocksFit(e, At(s, w, InFile).(flock := Some(w)))
    ensures s.places[w].Wrote? ==> LocksFit(e, At(s, w, OutOfFile).(flock := None))
  {
  }

  lemma LocksStayFit(e: Env, s: State, step: Step)
    requires LocksFit(e, s)
    ensures LocksFit(e, Do(e, s, step))
  {
    hide Line, RecordOf, Lines, HashAfter, LocksFit;
    var w, t := step.writer, Do(e, s, step);
    if Enabled(e, s, w) {
      match s.places[w] {
        case Ready => TakesLock(e, s, w);
        case OutOfFile => LeavesLock(e, s, w);
        case InLock => TakesOrLeavesFile(e, s, w);
        case Wrote => TakesOrLeavesFile(e, s, w);
        case _ => SameLocks(e, s, t, w);
      }
    }
  }

  lemma OrderStays(e: Env, s: State, t: State, order: seq<Writer>, w: Writer)
    requires OrderFits(e, s, order) && w in s.places && w in t.places && t.places == s.places[w := t.places[w]]
    requires HasWritten(s.places[w]) == HasWritten(t.places[w])
    ensures OrderFits(e, t, order)
  {
    hide Distinct;
  }

  lemma OrderGrows(e: Env, s: State, order: seq<Writer>, w: Writer)
    requires OrderFits(e, s, order) && w in s.places && !HasWritten(s.places[w])
    ensures OrderFits(e, At(s, w, Wrote), order + [w])
  {
  }

  /** A step outside the file, or between two places there where nothing of the line is known or written. */
  lemma QuietStep(e: Env, log: seq<Record>, s: State, order: seq<Writer>, step: Step)
    requires LocksFit(e, s) && FileFits(e, log, s, order) && Enabled(e, s, step.writer)
    requires var p := s.places[step.writer]; p.Ready? || p.InLock? || p.Wrote? || p.OutOfFile?
    ensures FileFits(e, log, Do(e, s, step), order)
  {
    hide Lines, HashAfter, FileOf, RecordOf, Line, LogAfter, OrderFits, Head;
    var w, t := step.writer, Do(e, s, step);
    assert s.places.Keys == e.jobs.Keys;
    assert t.places == s.places[w := t.places[w]];
    OrderStays(e, s, t, order, w);
    assert OrderFits(e, t, order);
    KnownOrder(e, s, order);
  }

  lemma KnownOrder(e: Env, s: State, order: seq<Writer>)
    requires OrderFits(e, s, order)
    ensures forall w :: w in order ==> w in e.jobs
  {
  }

  lemma FileStaysFit(e: Env, log: seq<Record>, s: State, order: seq<Writer>, step: Step) returns (next: seq<Writer>)
    requires SoundEnv(e, log) && LocksFit(e, s) && FileFits(e, log, s, order)
    ensures FileFits(e, log, Do(e, s, step), next)
  {
    hide Lines, HashAfter, FileOf, RecordOf, SoundEnv, Line, LogAfter, OrderFits, Head;
    var w, t := step.writer, Do(e, s, step);
    next := order;
    if Enabled(e, s, w) {
      if UsesFile(s.places[w]) && !s.places[w].Wrote? {
        KnownOrder(e, s, order);
        if s.places[w] == Writing("") {
          next := order + [w];
          WholeLineWritten(e, log, s, order, w);
        } else {
          OrderStays(e, s, t, order, w);
          if s.places[w].InFile? {
            HeadIsRead(e, log, order);
          } else if s.places[w].Writing? {
            var rest := s.places[w].rest;
            var n := if step.pieces < |rest| then step.pieces + 1 else |rest|;
            assert rest == rest[..n] + rest[n..];
            assert s.text + rest == (s.text + rest[..n]) + rest[n..];
          }
        }
      } else {
        QuietStep(e, log, s, order, step);
      }
    }
  }

  lemma HeadIsRead(e: Env, log: seq<Record>, order: seq<Writer>)
    requires SoundEnv(e, log) && forall w :: w in order ==> w in e.jobs
    ensures var now := LogAfter(e, log, order);
            HashAfter(e.hashOf, Lines(e.x, FileOf(e.encode, now))) == Head(now, |now|)
  {
    LogAfterIsChained(e, log, order);
    FileEndsInHead(e.x, e.c, e.encode, e.hashOf, LogAfter(e, log, order));
  }

  lemma WholeLineWritten(e: Env, log: seq<Record>, s: State, order: seq<Writer>, w: Writer)
    requires LocksFit(e, s) && FileFits(e, log, s, order)
    requires w in s.places && s.places[w] == Writing("")
    ensures FileFits(e, log, At(s, w, Wrote), order + [w])
  {
    hide RecordOf, Distinct, LogAfter, OrderFits, FileOf, Head;
    KnownOrder(e, s, order);
    OrderGrows(e, s, order, w);
    var now := LogAfter(e, log, order);
    var r := RecordOf(e, w, Head(now, |now|));
    LogAfterOneMore(e, log, order, w);
    FileOfOneMore(e, now, r);
    assert s.text + "" == s.text;
    KnownOrder(e, At(s, w, Wrote), order + [w]);
  }

  lemma LogAfterOneMore(e: Env, log: seq<Record>, order: seq<Writer>, w: Writer)
    requires w in e.jobs && forall v :: v in order ==> v in e.jobs
    ensures var now := LogAfter(e, log, order);
            LogAfter(e, log, order + [w]) == now + [RecordOf(e, w, Head(now, |now|))]
  {
    hide RecordOf;
    assert (order + [w])[..|order|] == order;
  }

  lemma FileOfOneMore(e: Env, log: seq<Record>, r: Record)
    ensures FileOf(e.encode, log + [r]) == FileOf(e.encode, log) + Line(e, r)
  {
    assert (log + [r])[..|log|] == log;
  }

  lemma {:induction false} RunKeeps(e: Env, log: seq<Record>, s: State, order: seq<Writer>, steps: seq<Step>)
      returns (last: seq<Writer>)
    requires SoundEnv(e, log) && LocksFit(e, s) && FileFits(e, log, s, order)
    ensures LocksFit(e, Run(e, s, steps)) && FileFits(e, log, Run(e, s, steps), last)
    decreases |steps|
  {
    hide Do, LocksFit, FileFits, SoundEnv;
    last := order;
    if steps != [] {
      LocksStayFit(e, s, steps[0]);
      var next := FileStaysFit(e, log, s, order, steps[0]);
      last := RunKeeps(e, log, Do(e, s, steps[0]), next, steps[1..]);
    }
  }

  lemma StartFits(e: Env, log: seq<Record>)
    ensures LocksFit(e, Start(e, log)) && FileFits(e, log, Start(e, log), [])
  {
  }

  // --- the main results --------------------------------------------------------------------------------------------

  /** The file holds the old log and then one record for each of these writers, in this order, on one valid chain. */
  ghost predicate OneChain(e: Env, log: seq<Record>, s: State, order: seq<Writer>) {
    && Distinct(order) && (forall w :: w in order <==> w in s.places && HasWritten(s.places[w])) &&
        s.places.Keys == e.jobs.Keys
    && Chained(e.c, LogAfter(e, log, order)) && s.text == FileOf(e.encode, LogAfter(e, log, order))
  }

  /** However the calls interleave, whenever nobody is inside the file it is one chain with one record a finished
      call. */
  lemma EveryInterleavingKeepsOneChain(e: Env, log: seq<Record>, steps: seq<Step>) returns (order: seq<Writer>)
    requires SoundEnv(e, log) && Run(e, Start(e, log), steps).flock.None?
    ensures OneChain(e, log, Run(e, Start(e, log), steps), order)
  {
    hide Do, LocksFit, FileOf, LogAfter;
    assert LocksFit(e, Start(e, log)) && FileFits(e, log, Start(e, log), []) by { StartFits(e, log); }
    order := RunKeeps(e, log, Start(e, log), [], steps);
    LogAfterIsChained(e, log, order);
  }

  /** Calls that sign with the key of `verify` keep a log it accepts acceptable, anchors included. */
  lemma {:induction false} SignedCallsKeepTheLogAccepted(e: Env, k: Key, log: seq<Record>, anchors: seq<Anchor>,
                                                         order: seq<Writer>)
    requires forall w :: w in order ==> w in e.jobs && e.jobs[w].key == Ok(Some(k))
    requires Accepts(e.c, Some(k), log, anchors)
    ensures Accepts(e.c, Some(k), LogAfter(e, log, order), anchors)
    decreases |order|
  {
    hide Accepts, MakeRecord;
    if order != [] {
      var n := |order| - 1;
      SignedCallsKeepTheLogAccepted(e, k, log, anchors, order[..n]);
      AppendedRecordVerifies(e.c, Some(k), LogAfter(e, log, order[..n]), anchors, e.jobs[order[n]].key,
          e.jobs[order[n]].body);
    }
  }

  /** No interleaving gets stuck: while a call is unfinished, some call can move. */
  lemma SomebodyCanMove(e: Env, log: seq<Record>, steps: seq<Step>, w: Writer) returns (v: Writer)
    requires SoundEnv(e, log)
    requires var s := Run(e, Start(e, log), steps); w in s.places && s.places[w] != Finished
    ensures Enabled(e, Run(e, Start(e, log), steps), v)
  {
    hide Do, FileOf, FileFits;
    assert LocksFit(e, Start(e, log)) && FileFits(e, log, Start(e, log), []) by { StartFits(e, log); }
    var order := RunKeeps(e, log, Start(e, log), [], steps);
    var s := Run(e, Start(e, log), steps);
    if s.flock.Some? {
      v := s.flock.value;
    } else if e.jobs[w].process in s.locks {
      v := s.locks[e.jobs[w].process];
    } else {
      v := w;
    }
  }
}
