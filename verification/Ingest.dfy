/**
  Ingesting batches with deduplication (crates/dataplane-ingest/src/lib.rs): how often a
  record is written under duplicates, engine failures, whole-batch retries and key pruning.
 */
module Ingest {
  import opened Wrappers

  // A record of a batch: parsed, with its id, or not parsable at all.
  datatype Raw = Parsed(recordId: string) | Malformed(claimedId: string)

  // What goes wrong with one record's engine calls. A write that fails stores nothing; one that
  // stores but reports an error counts as a failed mark.
  datatype Fault = Fine | ExistsFails | WriteFails | MarkFails

  datatype Failure = Failure(recordId: string, reason: string)
  datatype Outcome = Accepted | Invalid(failure: Failure) | EngineError
  datatype Reply = Ok(accepted: nat, failures: seq<Failure>) | Err

  // Ingest keys with their acceptance times, the writes the engines took, and per id how often
  // its key was pruned and how often it was written without being marked.
  datatype World = World(marks: map<string, int>, writes: multiset<string>, pruned: multiset<string>,
                         unmarked: multiset<string>)

  const START := World(map[], multiset{}, multiset{}, multiset{})

  function InvalidOf(raw: Raw): Option<Failure> {
    match raw
    case Malformed(id) => Some(Failure(id, "invalid_record"))
    case Parsed(id) => if id == "" then Some(Failure("", "record_id is required")) else None
  }

  predicate IsValid(raw: Raw) { InvalidOf(raw).None? }

  function ApplyOne(w: World, raw: Raw, now: int, fault: Fault): (World, Outcome) {
    if !IsValid(raw) then (w, Invalid(InvalidOf(raw).value))
    else if fault.ExistsFails? then (w, EngineError)
    else if raw.recordId in w.marks then (w, Accepted)
    else if fault.WriteFails? then (w, EngineError)
    else
      var written := w.(writes := w.writes + multiset{raw.recordId});
      if fault.MarkFails? then (written.(unmarked := w.unmarked + multiset{raw.recordId}), EngineError)
      else (written.(marks := w.marks[raw.recordId := now]), Accepted)
  }

  // The records of a batch in order, up to the first engine error.
  function ApplyAll(w: World, records: seq<Raw>, now: nat -> int, fault: nat -> Fault): (World, Reply) {
    if records == [] then (w, Ok(0, []))
    else
      var n := |records| - 1;
      var (before, reply) := ApplyAll(w, records[..n], now, fault);
      if reply.Err? then (before, Err)
      else
        var (after, outcome) := ApplyOne(before, records[n], now(n), fault(n));
        match outcome
        case Accepted => (after, Ok(reply.accepted + 1, reply.failures))
        case Invalid(failure) => (after, Ok(reply.accepted, reply.failures + [failure]))
        case EngineError => (after, Err)
  }

  datatype Envelope = Envelope(agentId: string, records: seq<Raw>)

  // The stream index is written last, when anything was accepted; its failure fails the batch.
  function ApplyBatch(w: World, envelope: Envelope, now: nat -> int, fault: nat -> Fault, streamFails: bool)
    : (World, Reply)
  {
    if envelope.agentId == "" || envelope.records == [] then (w, Err)
    else
      var (after, reply) := ApplyAll(w, envelope.records, now, fault);
      if reply.Ok? && reply.accepted > 0 && streamFails then (after, Err) else (after, reply)
  }

  function Prune(w: World, cutoff: int): World {
    var stale := set id | id in w.marks && w.marks[id] < cutoff;
    w.(marks := w.marks - stale, pruned := w.pruned + multiset(stale))
  }

  // ---------------------------------------------------------------- replies

  // One failure per record that cannot be taken, in order: unparsable ones under the id they claim.
  function FailuresOf(records: seq<Raw>): seq<Failure> {
    if records == [] then []
    else
      var before, last := FailuresOf(records[..|records| - 1]), records[|records| - 1];
      if last.Malformed? then before + [Failure(last.claimedId, "invalid_record")]
      else if |last.recordId| == 0 then before + [Failure("", "record_id is required")]
      else before
  }

  lemma {:induction false} AllReplies(w: World, records: seq<Raw>, now: nat -> int, fault: nat -> Fault)
    ensures var reply := ApplyAll(w, records, now, fault).1;
            reply.Ok? ==> reply.failures == FailuresOf(records) && reply.accepted + |reply.failures| == |records|
  {
    if records != [] { AllReplies(w, records[..|records| - 1], now, fault); }
  }

  /**
    A successful reply accounts for every record: the failures are the invalid ones in order, the
    rest were accepted.
   */
  lemma SuccessAccountsForAll(w: World, envelope: Envelope, now: nat -> int, fault: nat -> Fault, streamFails: bool)
    ensures var reply := ApplyBatch(w, envelope, now, fault, streamFails).1;
            reply.Ok? ==>
              reply.failures == FailuresOf(envelope.records)
              && reply.accepted + |reply.failures| == |envelope.records|
  {
    AllReplies(w, envelope.records, now, fault);
  }

  lemma {:induction false} FaultlessRecordsSucceed(w: World, records: seq<Raw>, now: nat -> int, fault: nat -> Fault)
    requires forall i | 0 <= i < |records| :: fault(i).Fine?
    ensures ApplyAll(w, records, now, fault).1.Ok?
  {
    if records != [] { FaultlessRecordsSucceed(w, records[..|records| - 1], now, fault); }
  }

  /** A named agent's nonempty batch whose engine calls work succeeds, however many of its records are invalid. */
  lemma FaultlessBatchSucceeds(w: World, envelope: Envelope, now: nat -> int, fault: nat -> Fault)
    requires envelope.agentId != "" && envelope.records != []
    requires forall i | 0 <= i < |envelope.records| :: fault(i).Fine?
    ensures ApplyBatch(w, envelope, now, fault, false).1.Ok?
    ensures forall raw | raw in envelope.records && IsValid(raw) ::
              raw.recordId in ApplyBatch(w, envelope, now, fault, false).0.marks
  {
    FaultlessRecordsSucceed(w, envelope.records, now, fault);
    AllReplies(w, envelope.records, now, fault);
    forall raw | raw in envelope.records && IsValid(raw)
      ensures raw.recordId in ApplyBatch(w, envelope, now, fault, false).0.marks
    {
      AllMarked(w, envelope.records, now, fault, raw.recordId);
    }
  }

  lemma {:induction false} AllMarked(w: World, records: seq<Raw>, now: nat -> int, fault: nat -> Fault, id: string)
    ensures var (after, reply) := ApplyAll(w, records, now, fault);
            w.marks.Keys <= after.marks.Keys && (reply.Ok? && Parsed(id) in records && id != "" ==> id in after.marks)
  {
    if records != [] {
      AllMarked(w, records[..|records| - 1], now, fault, id);
      assert forall raw :: raw in records <==> raw in records[..|records| - 1] || raw == records[|records| - 1];
    }
  }

  // ---------------------------------------------------------------- how often a record is written

  /** Every write of an id is one of: the one its key stands for, one whose key was pruned, one never marked. */
  ghost predicate Accounted(w: World, id: string) {
    w.writes[id] == (if id in w.marks then 1 else 0) + w.pruned[id] + w.unmarked[id]
  }

  lemma OneAccounted(w: World, raw: Raw, now: int, fault: Fault, id: string)
    requires Accounted(w, id)
    ensures Accounted(ApplyOne(w, raw, now, fault).0, id)
    ensures w.marks.Keys <= ApplyOne(w, raw, now, fault).0.marks.Keys
    ensures ApplyOne(w, raw, now, fault).0.pruned == w.pruned
    ensures !fault.MarkFails? ==> ApplyOne(w, raw, now, fault).0.unmarked == w.unmarked
  {
  }

  lemma {:induction false} AllAccounted(w: World, records: seq<Raw>, now: nat -> int, fault: nat -> Fault, id: string)
    requires Accounted(w, id)
    ensures var (after, reply) := ApplyAll(w, records, now, fault);
            && Accounted(after, id) && w.marks.Keys <= after.marks.Keys && after.pruned == w.pruned
            && (reply.Ok? && Parsed(id) in records && id != "" ==> id in after.marks)
            && ((forall i | 0 <= i < |records| :: !fault(i).MarkFails?) ==> after.unmarked == w.unmarked)
  {
    hide Accounted;
    if records != [] {
      var n := |records| - 1;
      AllAccounted(w, records[..n], now, fault, id);
      var (before, reply) := ApplyAll(w, records[..n], now, fault);
      OneAccounted(before, records[n], now(n), fault(n), id);
      assert forall raw :: raw in records <==> raw in records[..n] || raw == records[n];
    }
  }

  lemma PruneAccounted(w: World, cutoff: int, id: string)
    requires Accounted(w, id)
    ensures Accounted(Prune(w, cutoff), id)
  {
  }

  datatype Op =
    | Batch(envelope: Envelope, now: nat -> int, fault: nat -> Fault, streamFails: bool)
    | Pruned(cutoff: int)

  function Apply(w: World, op: Op): World {
    match op
    case Batch(envelope, now, fault, streamFails) => ApplyBatch(w, envelope, now, fault, streamFails).0
    case Pruned(cutoff) => Prune(w, cutoff)
  }

  function Run(ops: seq<Op>): World {
    if ops == [] then START else Apply(Run(ops[..|ops| - 1]), ops[|ops| - 1])
  }

  // Marking succeeds whenever the write did.
  ghost predicate MarksSucceed(ops: seq<Op>) {
    forall k, i: nat | 0 <= k < |ops| && ops[k].Batch? && i < |ops[k].envelope.records| :: !ops[k].fault(i).MarkFails?
  }

  lemma {:induction false} RunAccounted(ops: seq<Op>, id: string)
    ensures Accounted(Run(ops), id)
    ensures MarksSucceed(ops) ==> Run(ops).unmarked == multiset{}
  {
    if ops != [] {
      var init, op := ops[..|ops| - 1], ops[|ops| - 1];
      RunAccounted(init, id);
      assert MarksSucceed(ops) ==> MarksSucceed(init);
      match op
      case Batch(envelope, now, fault, streamFails) =>
        AllAccounted(Run(init), envelope.records, now, fault, id);
        assert MarksSucceed(ops) ==> forall i | 0 <= i < |envelope.records| :: !op.fault(i).MarkFails?;
      case Pruned(cutoff) => PruneAccounted(Run(init), cutoff, id);
    }
  }

  /**
    Over any run of batches, duplicates, failures, retries and prunes in which marking succeeds
    whenever the write did: an id is written at most once more than its key was pruned.
   */
  lemma {:induction false} WrittenOncePerPrune(ops: seq<Op>, id: string)
    requires MarksSucceed(ops)
    ensures Run(ops).writes[id] <= 1 + Run(ops).pruned[id]
    ensures Run(ops).writes[id] == Run(ops).pruned[id] + if id in Run(ops).marks then 1 else 0
  {
    RunAccounted(ops, id);
  }

  /**
    When a batch with the record has succeeded, the record has been written exactly once plus once
    per earlier prune.
   */
  lemma {:induction false} SuccessMeansWritten(ops: seq<Op>, batch: Op, id: string)
    requires MarksSucceed(ops + [batch]) && batch.Batch? && Parsed(id) in batch.envelope.records && id != ""
    requires ApplyBatch(Run(ops), batch.envelope, batch.now, batch.fault, batch.streamFails).1.Ok?
    ensures Run(ops + [batch]).writes[id] == 1 + Run(ops).pruned[id]
    ensures Run(ops).pruned[id] == 0 ==> Run(ops + [batch]).writes[id] == 1
  {
    assert (ops + [batch])[..|ops|] == ops;
    RunAccounted(ops, id);
    RunAccounted(ops + [batch], id);
    AllAccounted(Run(ops), batch.envelope.records, batch.now, batch.fault, id);
  }

  lemma {:induction false} MarkedChangesNothing(w: World, records: seq<Raw>, now: nat -> int, fault: nat -> Fault)
    requires forall raw | raw in records && IsValid(raw) :: raw.recordId in w.marks
    ensures ApplyAll(w, records, now, fault).0 == w
  {
    if records != [] { MarkedChangesNothing(w, records[..|records| - 1], now, fault); }
  }

  /** Sending an accepted batch again writes nothing, whatever fails the second time. */
  lemma {:induction false} RetryAfterSuccessWritesNothing(ops: seq<Op>, envelope: Envelope, now: nat -> int,
                                                          fault: nat -> Fault, streamFails: bool,
                                       later: nat -> int, faults: nat -> Fault, streamFailsToo: bool)
    requires ApplyBatch(Run(ops), envelope, now, fault, streamFails).1.Ok?
    ensures var after := ApplyBatch(Run(ops), envelope, now, fault, streamFails).0;
            ApplyBatch(after, envelope, later, faults, streamFailsToo).0 == after
  {
    var w := Run(ops);
    var after := ApplyBatch(w, envelope, now, fault, streamFails).0;
    forall raw | raw in envelope.records && IsValid(raw) ensures raw.recordId in after.marks {
      RunAccounted(ops, raw.recordId);
      AllAccounted(w, envelope.records, now, fault, raw.recordId);
    }
    MarkedChangesNothing(after, envelope.records, later, faults);
  }

  // An accepted list of records writes an id once if it is in the list and not marked, and else not at all.
  lemma {:induction false} AcceptedWrites(w: World, records: seq<Raw>, now: nat -> int, fault: nat -> Fault, id: string)
    requires ApplyAll(w, records, now, fault).1.Ok? && id != ""
    ensures var after := ApplyAll(w, records, now, fault).0;
            && after.writes[id] == w.writes[id] + (if Parsed(id) in records && id !in w.marks then 1 else 0)
            && (id in after.marks <==> id in w.marks || Parsed(id) in records)
  {
    if records != [] {
      AcceptedWrites(w, records[..|records| - 1], now, fault, id);
      assert forall raw :: raw in records <==> raw in records[..|records| - 1] || raw == records[|records| - 1];
    }
  }

  // The first record of the batch with this id.
  ghost predicate FirstOf(records: seq<Raw>, id: string, i: nat) {
    i < |records| && records[i] == Parsed(id) && forall j | 0 <= j < i :: records[j] != Parsed(id)
  }

  /**
    A mark is the time at which the record was accepted, whatever comes later: an accepted batch marks
    a record that was not marked at the clock of its first occurrence, and leaves other marks.
   */
  lemma {:induction false} MarksAreAcceptanceTimes(w: World, records: seq<Raw>, now: nat -> int, fault: nat -> Fault,
                                                   id: string)
    requires ApplyAll(w, records, now, fault).1.Ok? && id != ""
    ensures var after := ApplyAll(w, records, now, fault).0;
            && (id in w.marks ==> id in after.marks && after.marks[id] == w.marks[id])
            && (id !in w.marks ==>
                  && (forall i | FirstOf(records, id, i) :: id in after.marks && after.marks[id] == now(i))
                  && (id in after.marks ==> exists i :: FirstOf(records, id, i)))
  {
    if records != [] {
      var init, n := records[..|records| - 1], |records| - 1;
      MarksAreAcceptanceTimes(w, init, now, fault, id);
      assert forall i | 0 <= i < n :: records[i] == init[i];
      assert forall i: nat | i < n :: FirstOf(records, id, i) <==> FirstOf(init, id, i);
      AcceptedWrites(w, init, now, fault, id);
      if FirstOf(records, id, n) {
        assert Parsed(id) !in init;
      }
    }
  }

  /**
    What pruning costs: an accepted batch that comes after a prune writes a record again exactly
    when the record was not marked, or was marked before the cutoff.
   */
  lemma PrunedIdIsWrittenAgain(w: World, cutoff: int, envelope: Envelope, now: nat -> int, fault: nat -> Fault,
                               streamFails: bool, id: string)
    requires Parsed(id) in envelope.records && id != ""
    requires ApplyBatch(Prune(w, cutoff), envelope, now, fault, streamFails).1.Ok?
    ensures var after := ApplyBatch(Prune(w, cutoff), envelope, now, fault, streamFails).0;
            && after.writes[id] == w.writes[id] + (if id in w.marks && cutoff <= w.marks[id] then 0 else 1)
            && id in after.marks
  {
    AcceptedWrites(Prune(w, cutoff), envelope.records, now, fault, id);
  }

  // The record's engine calls fail: the lookup, or for one not marked yet the write or the mark.
  ghost predicate FailsAt(w: World, records: seq<Raw>, fault: nat -> Fault, i: nat) {
    && i < |records| && records[i].Parsed? && records[i].recordId != ""
    && (fault(i) == ExistsFails
        || ((fault(i) == WriteFails || fault(i) == MarkFails)
            && records[i].recordId !in w.marks && forall j | 0 <= j < i :: records[j] != records[i]))
  }

  lemma {:induction false} RecordsFailIff(w: World, records: seq<Raw>, now: nat -> int, fault: nat -> Fault)
    ensures ApplyAll(w, records, now, fault).1.Err? <==> exists i: nat :: FailsAt(w, records, fault, i)
  {
    if records != [] {
      var init, n := records[..|records| - 1], |records| - 1;
      RecordsFailIff(w, init, now, fault);
      assert forall i | 0 <= i < n :: records[i] == init[i];
      assert forall i: nat | i < n :: FailsAt(w, records, fault, i) <==> FailsAt(w, init, fault, i);
      if ApplyAll(w, init, now, fault).1.Ok? {
        if IsValid(records[n]) { AcceptedWrites(w, init, now, fault, records[n].recordId); }
        assert ApplyAll(w, records, now, fault).1.Err? <==> FailsAt(w, records, fault, n);
      }
    }
  }

  /**
    When a batch fails: it names no agent, has no records, an engine call fails for one of them, or it
    has a record to take and the stream index cannot be written.
   */
  lemma BatchFailsIff(w: World, envelope: Envelope, now: nat -> int, fault: nat -> Fault, streamFails: bool)
    ensures ApplyBatch(w, envelope, now, fault, streamFails).1.Err?
            <==> || envelope.agentId == "" || |envelope.records| == 0
                 || (exists i: nat :: FailsAt(w, envelope.records, fault, i))
                 || (streamFails && exists raw | raw in envelope.records :: raw.Parsed? && raw.recordId != "")
  {
    hide FailsAt;
    RecordsFailIff(w, envelope.records, now, fault);
    AllReplies(w, envelope.records, now, fault);
    AllFailuresIff(envelope.records);
  }

  lemma {:induction false} AllFailuresIff(records: seq<Raw>)
    ensures |FailuresOf(records)| <= |records|
    ensures |FailuresOf(records)| < |records| <==> exists raw | raw in records :: raw.Parsed? && raw.recordId != ""
  {
    if records != [] {
      AllFailuresIff(records[..|records| - 1]);
      assert forall raw :: raw in records <==> raw in records[..|records| - 1] || raw == records[|records| - 1];
    }
  }

  /** Without marking there is no such bound: a batch whose mark fails is retried and written again. */
  lemma FailedMarkWritesTwice(id: string, agentId: string)
    requires id != "" && agentId != ""
    ensures var batch := Envelope(agentId, [Parsed(id)]);
            var ops := [Batch(batch, i => 0, i => MarkFails, false)] + [Batch(batch, i => 0, i => Fine, false)];
            Run(ops).writes[id] == 2 && Run(ops).pruned[id] == 0
  {
    var one := Batch(Envelope(agentId, [Parsed(id)]), i => 0, i => MarkFails, false);
    var two := Batch(Envelope(agentId, [Parsed(id)]), i => 0, i => Fine, false);
    assert ([one] + [two])[..1] == [one] && [one][..0] == [] && [Parsed(id)][..0] == [];
    var first := World(map[], multiset{id}, multiset{}, multiset{id});
    assert Run([one]) == first by { SingleRecord(START, id, one.now, one.fault); }
    SingleRecord(first, id, two.now, two.fault);
  }

  lemma {:induction false} SingleRecord(w: World, id: string, now: nat -> int, fault: nat -> Fault)
    ensures ApplyAll(w, [Parsed(id)], now, fault).0 == ApplyOne(w, Parsed(id), now(0), fault(0)).0
  {
  }

  // ---------------------------------------------------------------- the service itself

  class IngestService {
    var marks: map<string, int>
    var writes: multiset<string>
    ghost var pruned: multiset<string>
    ghost var unmarked: multiset<string>

    constructor ()
      ensures View() == START
    {
      marks, writes, pruned, unmarked := map[], multiset{}, multiset{}, multiset{};
    }

    ghost function View(): World
      reads this
    {
      World(marks, writes, pruned, unmarked)
    }

    method ApplyRecord(raw: Raw, now: int, fault: Fault) returns (outcome: Outcome)
      modifies this
      ensures (View(), outcome) == ApplyOne(old(View()), raw, now, fault)
    {
      if raw.Malformed? { return Invalid(Failure(raw.claimedId, "invalid_record")); }
      if raw.recordId == "" { return Invalid(Failure("", "record_id is required")); }
      if fault.ExistsFails? { return EngineError; }
      if raw.recordId in marks { return Accepted; }
      if fault.WriteFails? { return EngineError; }
      writes := writes + multiset{raw.recordId};
      if fault.MarkFails? {
        unmarked := unmarked + multiset{raw.recordId};
        return EngineError;
      }
      marks := marks[raw.recordId := now];
      outcome := Accepted;
    }

    /** One batch: stops at the first engine error, and fails as a whole if the stream index cannot be written. */
    method ApplyWithSinks(envelope: Envelope, now: nat -> int, fault: nat -> Fault, streamFails: bool)
      returns (reply: Reply)
      modifies this
      ensures (View(), reply) == ApplyBatch(old(View()), envelope, now, fault, streamFails)
    {
      hide ApplyOne;
      if envelope.agentId == "" || envelope.records == [] { return Err; }
      var records := envelope.records;
      var accepted, failures := 0, [];
      var i: nat := 0;
      ghost var start := View();
      while i < |records|
        invariant i <= |records|
        invariant (View(), Ok(accepted, failures)) == ApplyAll(start, records[..i], now, fault)
      {
        ghost var before := View();
        assert records[..i + 1][..i] == records[..i];
        var outcome := ApplyRecord(records[i], now(i), fault(i));
        match outcome {
          case Accepted => accepted := accepted + 1;
          case Invalid(failure) => failures := failures + [failure];
          case EngineError =>
            EngineErrorStops(start, records, now, fault, i + 1);
            return Err;
        }
        i := i + 1;
      }
      assert records[..i] == records;
      if accepted > 0 && streamFails { return Err; }
      reply := Ok(accepted, failures);
    }

    method PruneBefore(cutoff: int) returns (removed: nat)
      modifies this
      ensures View() == Prune(old(View()), cutoff) && removed == |set id | id in old(marks) && old(marks)[id] < cutoff|
    {
      var gone := set id | id in marks && marks[id] < cutoff;
      marks, pruned := marks - gone, pruned + multiset(gone);
      removed := |gone|;
    }
  }

  // Nothing after the first engine error is looked at.
  lemma {:induction false} EngineErrorStops(w: World, records: seq<Raw>, now: nat -> int, fault: nat -> Fault, n: nat)
    requires n <= |records| && ApplyAll(w, records[..n], now, fault).1.Err?
    ensures ApplyAll(w, records, now, fault) == (ApplyAll(w, records[..n], now, fault).0, Err)
    decreases |records|
  {
    if n == |records| {
      assert records[..n] == records;
    } else {
      assert records[..|records| - 1][..n] == records[..n];
      EngineErrorStops(w, records[..|records| - 1], now, fault, n);
    }
  }
}
