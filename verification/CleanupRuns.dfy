/**
  Whole runs of the cleanup scheduler (bins/dataserver/src/cleanup.rs): items come
  and go, list fetches fail, and still nothing is deleted before its time.
 */
module CleanupRuns {
  import opened Wrappers
  import opened Cleanup

  datatype Kind = Log | Point | EdgeRow
  datatype Op =
    | Ingested(kind: Kind, key: nat, entry: Entry)
    | Rounded(fetch: Option<seq<RawItem>>, now: int)

  const START := Stores(map[], map[], map[], map[], map[])

  function Ingest(s: Stores, kind: Kind, key: nat, entry: Entry): Stores {
    match kind
    case Log => s.(logs := s.logs[key := entry])
    case Point => s.(points := s.points[key := entry])
    case EdgeRow => s.(edges := s.edges[key := entry])
  }

  function Apply(globalDays: nat, s: Stores, op: Op): Stores {
    match op
    case Ingested(kind, key, entry) => Ingest(s, kind, key, entry)
    case Rounded(fetch, now) => Round(s, fetch, globalDays, now)
  }

  function Run(globalDays: nat, ops: seq<Op>): Stores {
    if ops == [] then START else Apply(globalDays, Run(globalDays, ops[..|ops| - 1]), ops[|ops| - 1])
  }

  function LastRound(ops: seq<Op>): int {
    if ops == [] then 0 else if ops[|ops| - 1].Rounded? then ops[|ops| - 1].now else LastRound(ops[..|ops| - 1])
  }

  // The clock does not go back, and every deadline the lists ask for fits in 64 bits.
  ghost predicate ValidRun(ops: seq<Op>, maxDays: nat) {
    ops == [] || (var op := ops[|ops| - 1];
                  && ValidRun(ops[..|ops| - 1], maxDays)
                  && (op.Rounded? ==>
                        && LastRound(ops[..|ops| - 1]) <= op.now && op.now + maxDays * MICROS_PER_DAY <= I64_MAX
                        && forall id | id in ItemsOf(op.fetch) :: ItemsOf(op.fetch)[id].days <= maxDays))
  }

  // When an item was last in a fetched list, and with which retention.
  datatype Sighting = Sighting(time: int, days: nat)

  function LastSighting(ops: seq<Op>, id: string): Option<Sighting> {
    if ops == [] then None
    else
      var op := ops[|ops| - 1];
      if op.Rounded? && id in ItemsOf(op.fetch) then Some(Sighting(op.now, ItemsOf(op.fetch)[id].days))
      else LastSighting(ops[..|ops| - 1], id)
  }

  // The most recent list that was fetched.
  function LatestList(ops: seq<Op>): Items {
    if ops == [] then map[]
    else if ops[|ops| - 1].Rounded? && ops[|ops| - 1].fetch.Some? then ItemsOf(ops[|ops| - 1].fetch)
    else LatestList(ops[..|ops| - 1])
  }

  // The moment an item's data may go once nobody lists it any more.
  function Expiry(sighting: Sighting): int { sighting.time + Clamp(sighting.days) * MICROS_PER_DAY }

  ghost predicate LiveTracked(s: Stores, ops: seq<Op>) {
    && s.live.Keys == LatestList(ops).Keys
    && forall id | id in s.live ::
         LastSighting(ops, id).Some? && LastSighting(ops, id).value.days == s.live[id] && s.live[id] >= 1
  }

  ghost predicate RetainTracked(s: Stores, ops: seq<Op>, maxDays: nat) {
    forall id | id in s.retain ::
      && LastSighting(ops, id).Some? && LastSighting(ops, id).value.days <= maxDays
      && Expiry(LastSighting(ops, id).value) <= s.retain[id]
  }

  lemma {:induction false} SightingsArePast(ops: seq<Op>, id: string, maxDays: nat)
    requires ValidRun(ops, maxDays) && LastSighting(ops, id).Some?
    ensures LastSighting(ops, id).value.time <= LastRound(ops) && LastSighting(ops, id).value.days <= maxDays
  {
    var op := ops[|ops| - 1];
    if !(op.Rounded? && id in ItemsOf(op.fetch)) { SightingsArePast(ops[..|ops| - 1], id, maxDays); }
  }

  lemma {:induction false} LastRoundNotNegative(ops: seq<Op>, maxDays: nat)
    requires ValidRun(ops, maxDays)
    ensures LastRound(ops) >= 0
  {
    if ops != [] { LastRoundNotNegative(ops[..|ops| - 1], maxDays); }
  }

  // A deadline set now is at least the expiry of the sighting it stands for, and in the future.
  lemma DeadlineCoversSighting(now: int, days: nat, maxDays: nat, sighting: Sighting)
    requires 0 <= now && sighting.time <= now && sighting.days == days && 1 <= days <= maxDays
    requires now + maxDays * MICROS_PER_DAY <= I64_MAX && maxDays < U32_RANGE
    ensures RetainUntil(now, days) >= Expiry(sighting) && RetainUntil(now, days) > now
  {
  }

  lemma {:induction false} MarkedIsTracked(s: Stores, ops: seq<Op>, op: Op, maxDays: nat)
    requires op.Rounded? && Valid(s) && LiveTracked(s, ops) && RetainTracked(s, ops, maxDays)
    requires ValidRun(ops, maxDays) && ValidRun(ops + [op], maxDays) && maxDays < U32_RANGE
    ensures LiveTracked(Marked(s, op.fetch, op.now), ops + [op])
    ensures RetainTracked(Marked(s, op.fetch, op.now), ops + [op], maxDays)
    ensures forall id | id in LeftItems(s.live, ItemsOf(op.fetch)) && op.fetch.Some? ::
            Marked(s, op.fetch, op.now).retain[id] > op.now
  {
    hide RetainUntil;
    assert (ops + [op])[..|ops|] == ops;
    var items := ItemsOf(op.fetch);
    MarkedIsValid(s, op.fetch, op.now);
    LastRoundNotNegative(ops, maxDays);
    if op.fetch.Some? {
      forall id | id in LeftItems(s.live, items)
        ensures Expiry(LastSighting(ops, id).value) <= RetainUntil(op.now, s.live[id])
                && RetainUntil(op.now, s.live[id]) > op.now
        ensures LastSighting(ops, id).value.days <= maxDays
      {
        SightingsArePast(ops, id, maxDays);
        DeadlineCoversSighting(op.now, s.live[id], maxDays, LastSighting(ops, id).value);
      }
      forall id | id in items ensures items[id].days >= 1 { LiveItemsMergeSpecs(op.fetch.value, id); }
    }
  }

  lemma RoundRetainShrinks(s: Stores, fetch: Option<seq<RawItem>>, globalDays: nat, now: int)
    ensures var after, m := Round(s, fetch, globalDays, now), Marked(s, fetch, now);
            && after.live == m.live && after.retain.Keys <= m.retain.Keys
            && forall id | id in after.retain :: after.retain[id] == m.retain[id]
  {
  }

  lemma {:induction false} StepTracked(globalDays: nat, s: Stores, ops: seq<Op>, op: Op, maxDays: nat)
    requires Valid(s) && LiveTracked(s, ops) && RetainTracked(s, ops, maxDays)
    requires ValidRun(ops, maxDays) && ValidRun(ops + [op], maxDays) && maxDays < U32_RANGE
    ensures Valid(Apply(globalDays, s, op))
    ensures LiveTracked(Apply(globalDays, s, op), ops + [op])
    ensures RetainTracked(Apply(globalDays, s, op), ops + [op], maxDays)
  {
    hide Round, Marked, ValidRun, Expiry;
    assert (ops + [op])[..|ops|] == ops;
    if op.Rounded? {
      MarkedIsTracked(s, ops, op, maxDays);
      RoundKeepsValid(s, op.fetch, globalDays, op.now);
      RoundRetainShrinks(s, op.fetch, globalDays, op.now);
    }
  }

  /**
    In every run the live keys are the most recent fetched list, live and retain keys are
    disjoint, and each pending deadline is no earlier than the last sighting plus the
    retention it had then.
   */
  lemma {:induction false} DeadlinesAreTracked(globalDays: nat, ops: seq<Op>, maxDays: nat)
    requires ValidRun(ops, maxDays) && maxDays < U32_RANGE
    ensures Valid(Run(globalDays, ops))
    ensures LiveTracked(Run(globalDays, ops), ops) && RetainTracked(Run(globalDays, ops), ops, maxDays)
  {
    if ops != [] {
      DeadlinesAreTracked(globalDays, ops[..|ops| - 1], maxDays);
      StepTracked(globalDays, Run(globalDays, ops[..|ops| - 1]), ops[..|ops| - 1], ops[|ops| - 1], maxDays);
      assert ops == ops[..|ops| - 1] + [ops[|ops| - 1]];
    }
  }

  // What a round took away, of whatever kind.
  ghost predicate Removes(before: Stores, after: Stores, e: Entry) {
    || (exists k :: k in before.logs && before.logs[k] == e && k !in after.logs)
    || (exists k :: k in before.points && before.points[k] == e && k !in after.points)
    || (exists k :: k in before.edges && before.edges[k] == e && k !in after.edges)
  }

  lemma RemovedMeansListedOrDue(s: Stores, fetch: Option<seq<RawItem>>, globalDays: nat, now: int, e: Entry)
    requires Valid(s) && Removes(s, Round(s, fetch, globalDays, now), e)
    ensures e.item in ItemsOf(fetch) || Due(Marked(s, fetch, now), e.item, now)
  {
  }

  /**
    Over any run, whatever the fetches, disappearances and returns: data of an item that the
    latest fetched list does not name is deleted only if the item was listed at some time, and
    the retention it then had has fully elapsed since it was last listed.
   */
  lemma {:induction false} AbsentItemsOutliveTheirRetention(globalDays: nat, ops: seq<Op>, fetch: Option<seq<RawItem>>,
                                                            now: int,
        maxDays: nat, e: Entry)
    requires ValidRun(ops, maxDays) && ValidRun(ops + [Rounded(fetch, now)], maxDays) && maxDays < U32_RANGE
    requires Removes(Run(globalDays, ops), Round(Run(globalDays, ops), fetch, globalDays, now), e)
    requires e.item !in LatestList(ops + [Rounded(fetch, now)])
    ensures LastSighting(ops + [Rounded(fetch, now)], e.item).Some?
    ensures Expiry(LastSighting(ops + [Rounded(fetch, now)], e.item).value) <= now
  {
    hide Round, Marked, Run;
    var s, op := Run(globalDays, ops), Rounded(fetch, now);
    assert (ops + [op])[..|ops|] == ops;
    DeadlinesAreTracked(globalDays, ops, maxDays);
    RemovedMeansListedOrDue(s, fetch, globalDays, now, e);
    MarkedIsTracked(s, ops, op, maxDays);
  }

  /**
    A log record of an item the latest fetched list names goes exactly in a round that fetched a
    list and finds it as old as the retention that list gives the item.
   */
  lemma {:induction false} ListedItemsKeepTheirRetention(globalDays: nat, ops: seq<Op>, fetch: Option<seq<RawItem>>,
                                                         now: int,
        maxDays: nat, k: nat)
    requires ValidRun(ops, maxDays) && ValidRun(ops + [Rounded(fetch, now)], maxDays) && maxDays < U32_RANGE
    requires k in Run(globalDays, ops).logs
             && Run(globalDays, ops).logs[k].item in LatestList(ops + [Rounded(fetch, now)])
    ensures var e, latest := Run(globalDays, ops).logs[k], LatestList(ops + [Rounded(fetch, now)]);
            k !in Round(Run(globalDays, ops), fetch, globalDays, now).logs
            <==> fetch.Some? && e.ts + Clamp(latest[e.item].days) * MICROS_PER_DAY <= now
  {
    hide Round, Marked;
    var s, op := Run(globalDays, ops), Rounded(fetch, now);
    var e := s.logs[k];
    assert (ops + [op])[..|ops|] == ops;
    DeadlinesAreTracked(globalDays, ops, maxDays);
    MarkedIsTracked(s, ops, op, maxDays);
    MarkedIsValid(s, fetch, now);
    RoundKeepsValid(s, fetch, globalDays, now);
    LastRoundNotNegative(ops, maxDays);
    var m := Marked(s, fetch, now);
    assert e.item in m.live;
    SightingsArePast(ops + [op], e.item, maxDays);
    assert Clamp(m.live[e.item]) <= MAX_DAYS by {
      assert m.live[e.item] * MICROS_PER_DAY <= maxDays * MICROS_PER_DAY;
    }
    LiveLogsKeepTheirRetention(s, fetch, globalDays, now, k);
  }

  lemma {:induction false} DeadlinesArePositive(ops: seq<Op>, id: string, maxDays: nat)
    requires ValidRun(ops, maxDays) && LastSighting(ops, id).Some?
    ensures Expiry(LastSighting(ops, id).value) > 0
  {
    var op := ops[|ops| - 1];
    LastRoundNotNegative(ops[..|ops| - 1], maxDays);
    if !(op.Rounded? && id in ItemsOf(op.fetch)) { DeadlinesArePositive(ops[..|ops| - 1], id, maxDays); }
  }

  /**
    Nothing of a purged item is forgotten: in any run, the round that drops an item's deadline
    has left none of its logs, no edge of it before now, and no point of it in [0, deadline).
   */
  lemma {:induction false} PurgedItemsLeaveNothing(globalDays: nat, ops: seq<Op>, fetch: Option<seq<RawItem>>, now: int,
        maxDays: nat, id: string)
    requires ValidRun(ops, maxDays) && ValidRun(ops + [Rounded(fetch, now)], maxDays) && maxDays < U32_RANGE
    requires id in Marked(Run(globalDays, ops), fetch, now).retain
    requires id !in Round(Run(globalDays, ops), fetch, globalDays, now).retain
    ensures var until, after :=
            Marked(Run(globalDays, ops), fetch, now).retain[id], Round(Run(globalDays, ops), fetch, globalDays, now);
            && 0 < until <= now
            && (forall k | k in after.logs :: after.logs[k].item != id)
            && (forall k | k in after.edges :: !(after.edges[k].item == id && after.edges[k].ts < now))
            && (forall k | k in after.points :: !TsSelected(after.points[k], id, until))
  {
    hide Round, Marked, Run;
    var s, op := Run(globalDays, ops), Rounded(fetch, now);
    DeadlinesAreTracked(globalDays, ops, maxDays);
    MarkedIsTracked(s, ops, op, maxDays);
    RemovedKeyMeansRemovedData(s, fetch, globalDays, now, id);
    DeadlinesArePositive(ops + [op], id, maxDays);
  }
}
