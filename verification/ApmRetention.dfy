/**
  Retention of APM data (crates/dataplane-apm/src/retention.rs): expiry by age, then
  eviction of the oldest APM data while the data directory is over its budget.
 */
module ApmRetention {
  import opened Wrappers
  import opened Arithmetic
  import opened Cleanup
  import T = TraceSummary

  datatype LogRow = LogRow(dataType: string, ts: int)
  datatype PointRow = PointRow(measurement: string, ts: int)

  // Log records, trace summaries (by start), edge rows (by minute), points, endpoints (by last sighting).
  datatype Data = Data(logs: map<nat, LogRow>, summaries: map<nat, int>, edges: map<nat, int>,
                       points: map<nat, PointRow>, endpoints: map<nat, int>)

  const APM_MEASUREMENTS: set<string> := {
    "apm_service_requests_total", "apm_service_errors_total", "apm_service_duration_micros",
    "apm_edge_requests_total", "apm_edge_errors_total", "apm_edge_duration_micros" }

  // Log deletion includes the cut, row deletion does not; points go from [0, max(cut, 1)).
  predicate LogGoes(r: LogRow, cut: int) { r.dataType == "traces" && r.ts <= cut }

  predicate PointGoes(p: PointRow, cut: int) {
    p.measurement in APM_MEASUREMENTS && 0 <= p.ts < (if cut >= 1 then cut else 1)
  }

  function RowsFrom(rows: map<nat, int>, cut: int): map<nat, int> {
    map k | k in rows && rows[k] >= cut :: rows[k]
  }

  function Evicted(d: Data, cut: int): Data {
    d.(logs := map k | k in d.logs && !LogGoes(d.logs[k], cut) :: d.logs[k],
       summaries := RowsFrom(d.summaries, cut), edges := RowsFrom(d.edges, cut),
       points := map k | k in d.points && !PointGoes(d.points[k], cut) :: d.points[k])
  }

  /** Cutting twice is cutting once at the later time: a later cut never brings anything back. */
  lemma EvictedTwice(d: Data, a: int, b: int)
    requires a <= b
    ensures Evicted(Evicted(d, a), b) == Evicted(d, b)
  {
    assert Evicted(Evicted(d, a), b).logs == Evicted(d, b).logs;
    assert Evicted(Evicted(d, a), b).points == Evicted(d, b).points;
    assert Evicted(Evicted(d, a), b).summaries == Evicted(d, b).summaries;
    assert Evicted(Evicted(d, a), b).edges == Evicted(d, b).edges;
  }

  /**
    Which trace summaries a cut removes, over every run of the accumulator: one whose spans all met
    a live entry goes once a span of it started before the cut; one with a late span was reset to
    start 0 and goes at the first positive cut, however recent its spans are.
   */
  lemma {:induction false} SummaryOutlivesCutIff(ops: seq<T.Op>, t: string, d: Data, k: nat, cut: int)
    requires T.ValidRun(T.AsWritten, ops) && t in T.Run(T.AsWritten, ops).rows
    requires k in d.summaries && d.summaries[k] == T.Run(T.AsWritten, ops).rows[t].start
    ensures k in Evicted(d, cut).summaries
            <==> if T.TraceOf(ops, t).lateStored then cut <= 0
                 else forall span | span in T.TraceOf(ops, t).stored :: cut <= span.timestamp
  {
    T.RunAgrees(T.AsWritten, ops, t);
  }

  // ---------------------------------------------------------------- the eviction schedule

  datatype Config = Config(retentionDays: nat, endpointDays: nat, maxBytes: nat, evictStepSecs: int, maxRounds: nat)
  datatype StopReason = NoApmDataLeft | MaxRoundsReached

  function AtLeast(a: int, b: int): int { if a >= b then a else b }

  function StepOf(cfg: Config, cutoff: int, now: int): (step: int)
    ensures step >= 1
  {
    var span := AtLeast(now - cutoff, 1);
    AtLeast(AtLeast(span / AtLeast(cfg.maxRounds, 1), AtLeast(cfg.evictStepSecs, 1) * 1_000_000), 1)
  }

  /**
    The step is the least one that is not shorter than the configured seconds (a second at least)
    and not shorter than the window divided by the rounds.
   */
  lemma StepIsLeast(cfg: Config, cutoff: int, now: int, t: int)
    ensures StepOf(cfg, cutoff, now) <= t
            <==> && cfg.evictStepSecs * 1_000_000 <= t && 1_000_000 <= t
                 && (if cfg.maxRounds == 0 then now - cutoff <= t else now - cutoff < (t + 1) * cfg.maxRounds)
  {
    var span, n := AtLeast(now - cutoff, 1), AtLeast(cfg.maxRounds, 1);
    QuotientAtMost(span, n, t);
    if t >= 1_000_000 && cfg.maxRounds > 0 { MulMonotone(1, n, t + 1); }
  }

  lemma QuotientAtMost(span: int, n: int, t: int)
    requires n >= 1
    ensures span / n <= t <==> span < (t + 1) * n
  {
    var q := span / n;
    assert span == q * n + span % n;
    if q <= t { MulMonotone(q + 1, t + 1, n); }
    if t < q { MulMonotone(t + 1, q, n); }
  }

  // The cut after `rounds` rounds of eviction.
  function CutAfter(cutoff: int, now: int, step: int, rounds: nat): int {
    if rounds == 0 then cutoff
    else if cutoff + rounds * step <= now then cutoff + rounds * step
    else now
  }

  // Where a pass of this many rounds ends: the cutoff, moved each round by the longest of the configured
  // seconds, the share of the window each round has, and a second, but never past now.
  ghost predicate EndsAt(cfg: Config, cutoff: int, now: int, rounds: nat, end: int) {
    var window, share := if now - cutoff > 1 then now - cutoff else 1, if cfg.maxRounds > 1 then cfg.maxRounds else 1;
    var secs := (if cfg.evictStepSecs > 1 then cfg.evictStepSecs else 1) * 1_000_000;
    var reach := cutoff + rounds * (if secs >= window / share then secs else window / share);
    end == if rounds == 0 then cutoff else if reach <= now then reach else now
  }

  // Exactly the APM rows before `end` are gone, trace records up to it included.
  ghost predicate CutExactly(before: Data, after: Data, end: int) {
    && (forall k :: k in after.summaries <==> k in before.summaries && before.summaries[k] >= end)
    && (forall k :: k in after.edges <==> k in before.edges && before.edges[k] >= end)
    && (forall k ::
        k in after.logs <==> k in before.logs && !(before.logs[k].dataType == "traces" && before.logs[k].ts <= end))
    && (forall k :: k in after.points
          <==> k in before.points
               && !(before.points[k].measurement in { "apm_service_requests_total", "apm_service_errors_total",
                                                      "apm_service_duration_micros", "apm_edge_requests_total",
                                                      "apm_edge_errors_total", "apm_edge_duration_micros" }
                    && 0 <= before.points[k].ts && (before.points[k].ts < end || before.points[k].ts == 0)))
    && (forall k | k in after.points :: after.points[k] == before.points[k])
    && (forall k | k in after.logs :: after.logs[k] == before.logs[k])
  }

  lemma ScheduleEndsAt(cfg: Config, cutoff: int, now: int, rounds: nat)
    ensures EndsAt(cfg, cutoff, now, rounds, CutAfter(cutoff, now, StepOf(cfg, cutoff, now), rounds))
  {
  }

  lemma RowsFromExactly(rows: map<nat, int>, cut: int)
    ensures forall k :: k in RowsFrom(rows, cut) <==> k in rows && rows[k] >= cut
  {
  }

  lemma EvictedCutsExactly(d: Data, end: int, endpoints: map<nat, int>)
    ensures CutExactly(d, Evicted(d, end), end) && CutExactly(d, Evicted(d, end).(endpoints := endpoints), end)
  {
  }

  // `probe(i)` is what the i-th measurement of the directory returns: any values at all.
  type Probe = nat -> nat

  // Every round so far was needed: over budget, and not yet at the end of the window.
  ghost predicate Needed(cfg: Config, cutoff: int, now: int, probe: Probe, rounds: nat) {
    forall i: nat | i < rounds :: probe(i) > cfg.maxBytes && CutAfter(cutoff, now, StepOf(cfg, cutoff, now), i) < now
  }

  lemma NoneNeeded(cfg: Config, cutoff: int, now: int, probe: Probe)
    ensures Needed(cfg, cutoff, now, probe, 0)
  {
  }

  lemma OneMoreNeeded(cfg: Config, cutoff: int, now: int, probe: Probe, rounds: nat)
    requires Needed(cfg, cutoff, now, probe, rounds)
    requires probe(rounds) > cfg.maxBytes && CutAfter(cutoff, now, StepOf(cfg, cutoff, now), rounds) < now
    ensures Needed(cfg, cutoff, now, probe, rounds + 1)
  {
  }

  ghost predicate Stops(cfg: Config, cutoff: int, now: int, probe: Probe, rounds: nat, reason: Option<StopReason>) {
    var step := StepOf(cfg, cutoff, now);
    var cut := CutAfter(cutoff, now, step, rounds);
    && Needed(cfg, cutoff, now, probe, rounds) && rounds <= cfg.maxRounds
    && match reason
       case None => probe(rounds) <= cfg.maxBytes
       case Some(NoApmDataLeft) => probe(rounds) > cfg.maxBytes && cut >= now
       case Some(MaxRoundsReached) => probe(rounds) > cfg.maxBytes && cut < now && rounds == cfg.maxRounds
  }

  lemma FirstCut(cutoff: int, now: int, step: int)
    ensures CutAfter(cutoff, now, step, 0) == cutoff
  {
  }

  lemma NextCut(cutoff: int, now: int, step: int, rounds: nat)
    requires step >= 1 && CutAfter(cutoff, now, step, rounds) < now
    ensures var cut := CutAfter(cutoff, now, step, rounds);
            CutAfter(cutoff, now, step, rounds + 1) == (if cut + step <= now then cut + step else now)
    ensures CutAfter(cutoff, now, step, rounds) < CutAfter(cutoff, now, step, rounds + 1) <= now
  {
  }

  /**
    The round limit leaves less than `maxRounds` microseconds uncut: the step is the window divided
    by the limit, rounded down.
   */
  lemma RoundLimitLeavesShortTail(cfg: Config, cutoff: int, now: int, probe: Probe, rounds: nat)
    requires Stops(cfg, cutoff, now, probe, rounds, Some(MaxRoundsReached)) && cfg.maxRounds >= 1
    ensures now - CutAfter(cutoff, now, StepOf(cfg, cutoff, now), rounds) < cfg.maxRounds
  {
    var step, n := StepOf(cfg, cutoff, now), cfg.maxRounds;
    var span := AtLeast(now - cutoff, 1);
    CoversSpan(span, n, step);
  }

  lemma CoversSpan(span: int, n: nat, step: int)
    requires n >= 1 && step >= span / n
    ensures n * step > span - n
  {
  }

  /**
    Stopping for lack of APM data means no summary or edge row older than now is left, and no trace
    record up to now.
   */
  lemma NothingOlderThanNow(cfg: Config, d: Data, cutoff: int, now: int, probe: Probe, rounds: nat)
    requires Stops(cfg, cutoff, now, probe, rounds, Some(NoApmDataLeft))
    ensures var after := Evicted(d, CutAfter(cutoff, now, StepOf(cfg, cutoff, now), rounds));
            && (forall k | k in after.summaries :: after.summaries[k] >= now)
            && (forall k | k in after.edges :: after.edges[k] >= now)
            && (forall k | k in after.logs :: after.logs[k].dataType == "traces" ==> after.logs[k].ts > now)
  {
  }

  /** Eviction is oldest first, and touches APM data only. */
  lemma OldestGoFirst(d: Data, cut: int)
    ensures var after := Evicted(d, cut);
            && (forall k :: k in after.summaries <==> k in d.summaries && d.summaries[k] >= cut)
            && (forall k :: k in after.edges <==> k in d.edges && d.edges[k] >= cut)
            && (forall k, j | k in d.summaries && k !in after.summaries && j in after.summaries ::
                d.summaries[k] < after.summaries[j])
            && (forall k | k in d.logs && d.logs[k].dataType != "traces" ::
                k in after.logs && after.logs[k] == d.logs[k])
            && (forall k | k in d.points && d.points[k].measurement !in APM_MEASUREMENTS ::
                k in after.points && after.points[k] == d.points[k])
            && after.endpoints == d.endpoints
  {
  }

  // ---------------------------------------------------------------- the pass itself

  datatype Report = Report(detailsDeleted: nat, summariesDeleted: nat, edgesDeleted: nat, endpointsDeleted: nat,
                           tombstones: nat, bytesBefore: nat, bytesAfter: nat, evictRounds: nat,
                           stopped: Option<StopReason>)

  const NO_REPORT := Report(0, 0, 0, 0, 0, 0, 0, 0, None)

  lemma FewerEntries<V>(m: map<nat, V>, rest: map<nat, V>)
    requires rest.Keys <= m.Keys
    ensures |rest| <= |m|
  {
    assert m.Keys == rest.Keys + (m.Keys - rest.Keys);
    assert |m| == |m.Keys| && |rest| == |rest.Keys|;
  }

  // The deletions reported from one state to another.
  ghost predicate Accounts(r: Report, d: Data, updated: Report, after: Data) {
    && updated.summariesDeleted + |after.summaries| == r.summariesDeleted + |d.summaries|
    && updated.edgesDeleted + |after.edges| == r.edgesDeleted + |d.edges|
    && updated.detailsDeleted + |after.logs| == r.detailsDeleted + |d.logs|
    && updated.bytesBefore == r.bytesBefore && updated.endpointsDeleted == r.endpointsDeleted
  }

  // What the rounds so far made of the data, and what they reported.
  ghost predicate CutSoFar(start: Data, first: Report, rounds: nat, cursor: int, data: Data, report: Report) {
    data == (if rounds == 0 then start else Evicted(start, cursor)) && Accounts(first, start, report, data)
  }

  lemma NothingCut(start: Data, first: Report, cursor: int)
    ensures CutSoFar(start, first, 0, cursor, start, first)
  {
  }

  lemma AccountsChain(r: Report, d: Data, s: Report, e: Data, t: Report, f: Data)
    requires Accounts(r, d, s, e) && Accounts(s, e, t, f)
    ensures Accounts(r, d, t, f)
  {
  }

  class ApmStores {
    var data: Data

    constructor (data: Data)
      ensures this.data == data
    {
      this.data := data;
    }

    // Details, summaries, edges and aggregated points older than the cut.
    method EvictOlderThan(cut: int, report: Report) returns (updated: Report)
      modifies this
      ensures data == Evicted(old(data), cut)
      ensures updated == report.(detailsDeleted := updated.detailsDeleted, summariesDeleted := updated.summariesDeleted,
                                 edgesDeleted := updated.edgesDeleted, tombstones := updated.tombstones)
      ensures Accounts(report, old(data), updated, data)
    {
      var after := Evicted(data, cut);
      FewerEntries(data.logs, after.logs);
      FewerEntries(data.summaries, after.summaries);
      FewerEntries(data.edges, after.edges);
      FewerEntries(data.points, after.points);
      updated := report.(detailsDeleted := report.detailsDeleted + |data.logs| - |after.logs|,
                         summariesDeleted := report.summariesDeleted + |data.summaries| - |after.summaries|,
                         edgesDeleted := report.edgesDeleted + |data.edges| - |after.edges|,
                         tombstones := report.tombstones + |data.points| - |after.points|);
      data := after;
    }

    method DeleteEndpoints(cut: int) returns (deleted: nat)
      modifies this
      ensures data == old(data).(endpoints := RowsFrom(old(data).endpoints, cut))
      ensures deleted + |data.endpoints| == |old(data).endpoints|
    {
      var rest := RowsFrom(data.endpoints, cut);
      FewerEntries(data.endpoints, rest);
      deleted := |data.endpoints| - |rest|;
      data := data.(endpoints := rest);
    }
  }

  lemma EndpointsApart(d: Data, cut: int, endpoints: map<nat, int>)
    ensures Evicted(d.(endpoints := endpoints), cut) == Evicted(d, cut).(endpoints := endpoints)
  {
  }

  // Expiry, endpoint deletion and the eviction rounds together are one cut: the schedule only moves forward.
  lemma PassIsOneCut(d: Data, endpoints: map<nat, int>, cutoff: int, now: int, step: int, rounds: nat)
    requires step >= 1 && (rounds > 0 ==> cutoff < now)
    ensures var expired, cut := Evicted(d, cutoff).(endpoints := endpoints), CutAfter(cutoff, now, step, rounds);
            (if rounds == 0 then expired else Evicted(expired, cut)) == Evicted(d, cut).(endpoints := endpoints)
  {
    hide Evicted;
    if rounds > 0 {
      MulMonotone(1, rounds, step);
      var cut := CutAfter(cutoff, now, step, rounds);
      EndpointsApart(Evicted(d, cutoff), cut, endpoints);
      EvictedTwice(d, cutoff, cut);
    }
  }

  lemma FirstRoundNeedsWindow(cfg: Config, cutoff: int, now: int, probe: Probe, rounds: nat, reason: Option<StopReason>)
    requires Stops(cfg, cutoff, now, probe, rounds, reason) && rounds > 0
    ensures cutoff < now
  {
    assert CutAfter(cutoff, now, StepOf(cfg, cutoff, now), 0) < now;
  }

  class ApmRetention {
    const cfg: Config

    constructor (cfg: Config)
      ensures this.cfg == cfg
    {
      this.cfg := cfg;
    }

    /**
      Expire by age, then evict while the directory is over budget, whatever it measures: what
      is left is one cut at the time the schedule reached, and the reason says why it stopped.
     */
    method Run(stores: ApmStores, now: int, probe: Probe, before: nat, after: nat) returns (report: Report)
      modifies stores
      ensures var cutoff := Cutoff(now, cfg.retentionDays);
              && (cfg.maxBytes > 0 ==> Stops(cfg, cutoff, now, probe, report.evictRounds, report.stopped))
              && (cfg.maxBytes == 0 ==> report.evictRounds == 0 && report.stopped == None)
              && stores.data
                 == Evicted(old(stores.data), CutAfter(cutoff, now, StepOf(cfg, cutoff, now), report.evictRounds))
                                .(endpoints := RowsFrom(old(stores.data).endpoints, Cutoff(now, cfg.endpointDays)))
      ensures exists end ::
                && EndsAt(cfg, Cutoff(now, cfg.retentionDays), now, report.evictRounds, end)
                && CutExactly(old(stores.data), stores.data, end)
      ensures forall k :: k in stores.data.endpoints
                          <==> && k in old(stores.data).endpoints
                               && old(stores.data).endpoints[k] >= Cutoff(now, cfg.endpointDays)
      ensures report.summariesDeleted + |stores.data.summaries| == |old(stores.data).summaries|
      ensures report.edgesDeleted + |stores.data.edges| == |old(stores.data).edges|
      ensures report.detailsDeleted + |stores.data.logs| == |old(stores.data).logs|
      ensures report.bytesBefore == before && report.bytesAfter == after
    {
      hide Cutoff, Evicted, RowsFrom, StepOf, CutAfter, Stops, EndsAt, CutExactly;
      ghost var d := stores.data;
      report := NO_REPORT.(bytesBefore := before);
      var cutoff := Cutoff(now, cfg.retentionDays);
      report := stores.EvictOlderThan(cutoff, report);
      KeepsEndpoints(d, cutoff);
      var deleted := stores.DeleteEndpoints(Cutoff(now, cfg.endpointDays));
      report := report.(endpointsDeleted := deleted);
      if cfg.maxBytes > 0 {
        report := EvictUntilWithin(stores, cutoff, now, probe, report);
        if report.evictRounds > 0 {
          FirstRoundNeedsWindow(cfg, cutoff, now, probe, report.evictRounds, report.stopped);
        }
      }
      PassIsOneCut(d, RowsFrom(d.endpoints, Cutoff(now, cfg.endpointDays)), cutoff, now, StepOf(cfg, cutoff, now),
                   report.evictRounds);
      ScheduleEndsAt(cfg, cutoff, now, report.evictRounds);
      EvictedCutsExactly(d, CutAfter(cutoff, now, StepOf(cfg, cutoff, now), report.evictRounds),
                         RowsFrom(d.endpoints, Cutoff(now, cfg.endpointDays)));
      RowsFromExactly(d.endpoints, Cutoff(now, cfg.endpointDays));
      report := report.(bytesAfter := after);
    }

    method EvictUntilWithin(stores: ApmStores, cutoff: int, now: int, probe: Probe, report: Report)
      returns (updated: Report)
      modifies stores
      ensures Stops(cfg, cutoff, now, probe, updated.evictRounds, updated.stopped)
      ensures CutSoFar(old(stores.data), report, updated.evictRounds,
                       CutAfter(cutoff, now, StepOf(cfg, cutoff, now), updated.evictRounds),
                       stores.data, updated)
      ensures exists end ::
                && EndsAt(cfg, cutoff, now, updated.evictRounds, end)
                && (if updated.evictRounds == 0 then stores.data == old(stores.data)
                    else CutExactly(old(stores.data), stores.data, end))
      ensures stores.data.endpoints == old(stores.data).endpoints
    {
      hide Evicted, StepOf, CutAfter, Needed, Stops, CutSoFar, Accounts, EndsAt, CutExactly;
      NothingCut(stores.data, report, cutoff);
      NoneNeeded(cfg, cutoff, now, probe);
      FirstCut(cutoff, now, StepOf(cfg, cutoff, now));
      updated := report;
      var current := probe(0);
      var rounds, cursor: int := 0, cutoff;
      var reason: Option<StopReason> := None;
      var step := StepOf(cfg, cutoff, now);
      while current > cfg.maxBytes
        invariant 0 <= rounds <= cfg.maxRounds && current == probe(rounds)
        invariant cursor == CutAfter(cutoff, now, step, rounds)
        invariant Needed(cfg, cutoff, now, probe, rounds)
        invariant CutSoFar(old(stores.data), report, rounds, cursor, stores.data, updated)
        decreases cfg.maxRounds - rounds
      {
        if cursor >= now {
          reason := Some(NoApmDataLeft);
          break;
        }
        if rounds >= cfg.maxRounds {
          reason := Some(MaxRoundsReached);
          break;
        }
        NextCut(cutoff, now, step, rounds);
        OneMoreNeeded(cfg, cutoff, now, probe, rounds);
        var next := if cursor + step <= now then cursor + step else now;
        updated := CutAgain(stores, old(stores.data), report, rounds, cursor, next, updated);
        cursor := next;
        rounds := rounds + 1;
        current := probe(rounds);
      }
      StopsBecause(cfg, cutoff, now, probe, rounds, reason);
      ScheduleEndsAt(cfg, cutoff, now, rounds);
      LeavesCut(old(stores.data), report, rounds, cursor, stores.data, updated);
      SameCut(old(stores.data), report, rounds, cursor, stores.data, updated, reason);
      updated := updated.(evictRounds := rounds, stopped := reason);
    }

    // One more round, at a later cut.
    method CutAgain(stores: ApmStores, ghost start: Data, ghost first: Report, ghost rounds: nat, ghost done: int,
                    cut: int, sofar: Report)
      returns (updated: Report)
      requires CutSoFar(start, first, rounds, done, stores.data, sofar) && done <= cut
      modifies stores
      ensures CutSoFar(start, first, rounds + 1, cut, stores.data, updated)
    {
      hide Evicted;
      EvictedTwice(start, done, cut);
      ghost var here := stores.data;
      updated := stores.EvictOlderThan(cut, sofar);
      AccountsChain(first, start, sofar, here, updated, stores.data);
    }
  }

  lemma LeavesCut(start: Data, first: Report, rounds: nat, cursor: int, data: Data, report: Report)
    requires CutSoFar(start, first, rounds, cursor, data, report)
    ensures if rounds == 0 then data == start else CutExactly(start, data, cursor)
    ensures data.endpoints == start.endpoints
  {
    hide CutExactly;
    EvictedCutsExactly(start, cursor, start.endpoints);
  }

  lemma SameCut(start: Data, first: Report, rounds: nat, cursor: int, data: Data, report: Report,
                reason: Option<StopReason>)
    requires CutSoFar(start, first, rounds, cursor, data, report)
    ensures CutSoFar(start, first, rounds, cursor, data, report.(evictRounds := rounds, stopped := reason))
  {
  }

  lemma StopsBecause(cfg: Config, cutoff: int, now: int, probe: Probe, rounds: nat, reason: Option<StopReason>)
    requires Needed(cfg, cutoff, now, probe, rounds) && rounds <= cfg.maxRounds
    requires match reason
             case None => probe(rounds) <= cfg.maxBytes
             case Some(NoApmDataLeft) =>
               probe(rounds) > cfg.maxBytes && CutAfter(cutoff, now, StepOf(cfg, cutoff, now), rounds) >= now
             case Some(MaxRoundsReached) =>
               probe(rounds) > cfg.maxBytes && CutAfter(cutoff, now, StepOf(cfg, cutoff, now), rounds) < now
                   && rounds == cfg.maxRounds
    ensures Stops(cfg, cutoff, now, probe, rounds, reason)
  {
  }

  lemma KeepsEndpoints(d: Data, cut: int)
    ensures Evicted(d, cut).endpoints == d.endpoints
  {
  }
}
