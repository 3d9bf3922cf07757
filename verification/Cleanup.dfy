/**
  One round of retention cleanup (bins/dataserver/src/cleanup.rs,
  crates/dataplane-apm/src/ebpf_retention.rs): live items, retention deadlines of
  items that left, and what is deleted from logs, time series and edges.
 */
module Cleanup {
  import opened Wrappers

  const MICROS_PER_DAY: nat := 86_400_000_000
  const I64_MIN: int := -0x8000_0000_0000_0000
  const I64_MAX: int := 0x7FFF_FFFF_FFFF_FFFF
  const I64_RANGE: nat := 0x1_0000_0000_0000_0000
  const U32_RANGE: nat := 0x1_0000_0000

  // 64-bit two's complement: what a plain operator leaves when it overflows.
  function Wrap(x: int): int {
    (x - I64_MIN) % I64_RANGE + I64_MIN
  }

  function SaturatingSub(a: int, b: int): int {
    if a - b < I64_MIN then I64_MIN else if a - b > I64_MAX then I64_MAX else a - b
  }

  function Clamp(days: nat): nat { if days == 0 then 1 else days }

  // ---------------------------------------------------------------- the live list

  // One item of some agent's spec; `days` is the stored u64, if present.
  datatype RawItem = RawItem(itemId: string, enabled: bool, kind: string, days: Option<nat>)
  datatype LiveItem = LiveItem(days: nat, kind: string) {
    predicate IsEbpf() { "ebpf" <= kind }
  }

  function DaysOf(raw: RawItem): nat {
    match raw.days
    case Some(d) => Clamp(d % U32_RANGE)
    case None => if "ebpf" <= raw.kind then 3 else 1
  }

  predicate Counts(raw: RawItem) { raw.itemId != "" && raw.enabled }

  function MergeItem(items: map<string, LiveItem>, raw: RawItem): map<string, LiveItem> {
    if !Counts(raw) then items
    else
      var entry := if raw.itemId in items then items[raw.itemId] else LiveItem(DaysOf(raw), raw.kind);
      items[raw.itemId := LiveItem(if entry.days >= DaysOf(raw) then entry.days else DaysOf(raw),
                                   if entry.kind == "" then raw.kind else entry.kind)]
  }

  function ParseItems(raws: seq<RawItem>): map<string, LiveItem> {
    if raws == [] then map[] else MergeItem(ParseItems(raws[..|raws| - 1]), raws[|raws| - 1])
  }

  method ParseAgentSpecs(raws: seq<RawItem>) returns (items: map<string, LiveItem>)
    ensures items == ParseItems(raws)
  {
    items := map[];
    for i := 0 to |raws|
      invariant items == ParseItems(raws[..i])
    {
      assert raws[..i + 1][..i] == raws[..i];
      var raw := raws[i];
      if raw.itemId == "" || !raw.enabled { continue; }
      var entry := if raw.itemId in items then items[raw.itemId] else LiveItem(DaysOf(raw), raw.kind);
      if entry.days < DaysOf(raw) { entry := entry.(days := DaysOf(raw)); }
      if entry.kind == "" { entry := entry.(kind := raw.kind); }
      items := items[raw.itemId := entry];
    }
    assert raws[..|raws|] == raws;
  }

  // The specs that speak for one item, in order.
  function SpecsOf(raws: seq<RawItem>, id: string): seq<RawItem> {
    if raws == [] then []
    else
      var last := raws[|raws| - 1];
      SpecsOf(raws[..|raws| - 1], id) + if Counts(last) && last.itemId == id then [last] else []
  }

  ghost predicate IsFirstKind(kind: string, specs: seq<RawItem>) {
    if kind == "" then forall raw | raw in specs :: raw.kind == ""
    else exists i :: 0 <= i < |specs| && specs[i].kind == kind && forall j | 0 <= j < i :: specs[j].kind == ""
  }

  ghost predicate MergesSpecs(item: LiveItem, specs: seq<RawItem>) {
    && (forall raw | raw in specs :: DaysOf(raw) <= item.days)
    && (exists raw | raw in specs :: DaysOf(raw) == item.days)
    && IsFirstKind(item.kind, specs)
  }

  lemma MergeOneMore(item: LiveItem, specs: seq<RawItem>, raw: RawItem)
    requires MergesSpecs(item, specs)
    ensures MergesSpecs(LiveItem(if item.days >= DaysOf(raw) then item.days else DaysOf(raw),
                                 if item.kind == "" then raw.kind else item.kind), specs + [raw])
  {
    var longer := specs + [raw];
    assert raw in longer && forall r | r in specs :: r in longer;
    if item.kind != "" {
      var i :| 0 <= i < |specs| && specs[i].kind == item.kind && forall j | 0 <= j < i :: specs[j].kind == "";
      assert longer[i].kind == item.kind;
    } else if raw.kind != "" {
      assert longer[|specs|].kind == raw.kind;
      forall j | 0 <= j < |specs| ensures longer[j].kind == "" { assert specs[j] in specs; }
    }
  }

  /**
    An item is live exactly when some enabled spec names it with a nonempty id; of conflicting
    specs it keeps the longest retention and the first nonempty kind.
   */
  lemma {:induction false} LiveItemsMergeSpecs(raws: seq<RawItem>, id: string)
    ensures id in ParseItems(raws) <==> SpecsOf(raws, id) != []
    ensures id in ParseItems(raws)
            ==> id != "" && MergesSpecs(ParseItems(raws)[id], SpecsOf(raws, id)) && ParseItems(raws)[id].days >= 1
  {
    hide MergesSpecs;
    if raws != [] {
      var init, raw := raws[..|raws| - 1], raws[|raws| - 1];
      LiveItemsMergeSpecs(init, id);
      if Counts(raw) && raw.itemId == id {
        if id in ParseItems(init) {
          MergeOneMore(ParseItems(init)[id], SpecsOf(init, id), raw);
        } else {
          SingleSpec(raw);
          assert [] + [raw] == [raw];
        }
      } else {
        assert SpecsOf(init, id) + [] == SpecsOf(init, id);
      }
    }
  }

  lemma SingleSpec(raw: RawItem)
    ensures MergesSpecs(LiveItem(DaysOf(raw), raw.kind), [raw])
  {
  }

  // Enabled, and of this nonempty id.
  predicate Names(raw: RawItem, id: string) {
    raw.enabled && raw.itemId == id && id != ""
  }

  // The days a spec asks for: its low 32 bits and at least one, or without a value three for an
  // eBPF kind and one for any other.
  predicate AsksFor(raw: RawItem, n: nat) {
    match raw.days
    case Some(d) => (d % 0x1_0000_0000 == n && n > 0) || (d % 0x1_0000_0000 == 0 && n == 1)
    case None => n == if |raw.kind| >= 4 && raw.kind[..4] == "ebpf" then 3 else 1
  }

  lemma AsksForDays(raw: RawItem, n: nat)
    ensures AsksFor(raw, n) <==> n == DaysOf(raw)
  {
  }

  lemma {:induction false} SpecsAreNamed(raws: seq<RawItem>, id: string, raw: RawItem)
    ensures raw in SpecsOf(raws, id) <==> raw in raws && Names(raw, id)
  {
    if raws != [] {
      SpecsAreNamed(raws[..|raws| - 1], id, raw);
      assert raws == raws[..|raws| - 1] + [raws[|raws| - 1]];
    }
  }

  /**
    The live list in the specs' own fields: exactly the named ids are live, each with the longest
    days that one of its specs asks for, and with a kind of one of them unless none has any.
   */
  lemma {:induction false} LiveItemsInFields(raws: seq<RawItem>, id: string)
    ensures id in ParseItems(raws) <==> exists raw | raw in raws :: Names(raw, id)
    ensures id in ParseItems(raws) ==>
              var item := ParseItems(raws)[id];
              && (forall raw, n: nat | raw in raws && Names(raw, id) && AsksFor(raw, n) :: n <= item.days)
              && (exists raw | raw in raws && Names(raw, id) :: AsksFor(raw, item.days))
              && (item.kind == "" <==> forall raw | raw in raws && Names(raw, id) :: raw.kind == "")
              && (exists raw | raw in raws && Names(raw, id) :: raw.kind == item.kind)
  {
    hide AsksFor, Names, ParseItems;
    LiveItemsMergeSpecs(raws, id);
    var specs := SpecsOf(raws, id);
    forall raw ensures raw in specs <==> raw in raws && Names(raw, id) { SpecsAreNamed(raws, id, raw); }
    forall raw, n ensures AsksFor(raw, n) <==> n == DaysOf(raw) { AsksForDays(raw, n); }
    if id in ParseItems(raws) {
      assert specs[0] in specs;
      if ParseItems(raws)[id].kind != "" {
        var i :| 0 <= i < |specs| && specs[i].kind == ParseItems(raws)[id].kind;
        assert specs[i] in specs;
      }
    }
  }

  // ---------------------------------------------------------------- deadlines and cutoffs

  function RetainUntil(now: int, days: nat): int {
    Wrap(now + Wrap(Clamp(days) * MICROS_PER_DAY))
  }

  function Cutoff(now: int, days: nat): int {
    SaturatingSub(now, Wrap(Clamp(days) * MICROS_PER_DAY))
  }

  // Largest number of days whose microseconds fit: a caller can check it before the call.
  const MAX_DAYS: nat := 106_751_991

  /** A deadline is the retention after now exactly when that moment fits in 64 bits. */
  lemma DeadlineExactIff(now: int, days: nat)
    requires 0 <= now <= I64_MAX && days < U32_RANGE
    ensures RetainUntil(now, days) == now + Clamp(days) * MICROS_PER_DAY
            <==> now + Clamp(days) * MICROS_PER_DAY <= I64_MAX
  {
  }

  /** A cutoff is the retention before now exactly when the days fit; then it never exceeds now. */
  lemma CutoffExactIff(now: int, days: nat)
    requires 0 <= now <= I64_MAX && days < U32_RANGE
    ensures Cutoff(now, days) == now - Clamp(days) * MICROS_PER_DAY <==> Clamp(days) <= MAX_DAYS
  {
  }

  /** One day more than fits: the deadline lies far in the past, and data goes at once. */
  lemma OverflowingDeadline()
    ensures RetainUntil(1_700_000_000_000_000, MAX_DAYS + 1) < 0
    ensures Cutoff(1_700_000_000_000_000, MAX_DAYS + 1) == I64_MAX
  {
  }

  // ---------------------------------------------------------------- one round

  // A log record, a time-series point or an edge row: the item it belongs to, and its time.
  datatype Entry = Entry(item: string, ts: int)

  datatype Stores = Stores(live: map<string, nat>, retain: map<string, int>,
                           logs: map<nat, Entry>, points: map<nat, Entry>, edges: map<nat, Entry>)

  // The list a round works from; none when it could not be fetched.
  type Items = map<string, LiveItem>

  function LeftItems(live: map<string, nat>, items: Items): set<string> {
    set id | id in live && id != "" && id !in items
  }

  function RetainAfterMarking(s: Stores, items: Items, now: int): map<string, int> {
    map id | id in s.retain.Keys + LeftItems(s.live, items) && id !in items ::
      if id in LeftItems(s.live, items) then RetainUntil(now, s.live[id]) else s.retain[id]
  }

  function LiveAfterMarking(s: Stores, items: Items): map<string, nat> {
    map id | id in items.Keys + (s.live.Keys - LeftItems(s.live, items)) ::
        if id in items then items[id].days else s.live[id]
  }

  function Mark(s: Stores, items: Items, now: int): Stores {
    s.(live := LiveAfterMarking(s, items), retain := RetainAfterMarking(s, items, now))
  }

  predicate Due(s: Stores, id: string, now: int) {
    id in s.retain && id != "" && s.retain[id] <= now
  }

  // [0, to) of one item's points.
  predicate TsSelected(e: Entry, id: string, to: int) {
    e.item == id && 0 <= e.ts < to
  }

  predicate TsExpires(s: Stores, items: Items, globalDays: nat, now: int, e: Entry) {
    || (e.item in items && Clamp(items[e.item].days) < Clamp(globalDays) && Cutoff(now, items[e.item].days) > 0
        && TsSelected(e, e.item, Cutoff(now, items[e.item].days)))
    || (Due(s, e.item, now) && s.retain[e.item] > 0 && TsSelected(e, e.item, s.retain[e.item]))
  }

  predicate LogExpires(s: Stores, items: Items, now: int, e: Entry) {
    (e.item in items && e.ts <= Cutoff(now, items[e.item].days)) || Due(s, e.item, now)
  }

  predicate EdgeExpires(s: Stores, items: Items, now: int, e: Entry) {
    || (e.item in items && items[e.item].IsEbpf() && e.ts < Cutoff(now, items[e.item].days))
    || (Due(s, e.item, now) && e.ts < now)
  }

  function ApplyTs(s: Stores, items: Items, globalDays: nat, now: int): Stores {
    s.(points := map k | k in s.points && !TsExpires(s, items, globalDays, now, s.points[k]) :: s.points[k])
  }

  function ApplyLogs(s: Stores, items: Items, now: int): Stores {
    s.(logs := map k | k in s.logs && !LogExpires(s, items, now, s.logs[k]) :: s.logs[k],
       edges := map k | k in s.edges && !EdgeExpires(s, items, now, s.edges[k]) :: s.edges[k],
       retain := map id | id in s.retain && !Due(s, id, now) :: s.retain[id])
  }

  // Marks only with a list in hand; time series before logs, which drop the retain keys.
  function Round(s: Stores, fetch: Option<seq<RawItem>>, globalDays: nat, now: int): Stores {
    var items := ItemsOf(fetch);
    var marked := Marked(s, fetch, now);
    ApplyLogs(ApplyTs(marked, items, globalDays, now), items, now)
  }

  function ItemsOf(fetch: Option<seq<RawItem>>): Items {
    if fetch.Some? then ParseItems(fetch.value) else map[]
  }

  function Marked(s: Stores, fetch: Option<seq<RawItem>>, now: int): Stores {
    if fetch.Some? then Mark(s, ItemsOf(fetch), now) else s
  }

  /** Live keys and retain keys never overlap, and no key is empty. */
  ghost predicate Valid(s: Stores) {
    s.live.Keys !! s.retain.Keys && "" !in s.live && "" !in s.retain
  }

  lemma {:induction false} NoEmptyId(raws: seq<RawItem>)
    ensures "" !in ParseItems(raws)
  {
    LiveItemsMergeSpecs(raws, "");
  }

  lemma MarkedIsValid(s: Stores, fetch: Option<seq<RawItem>>, now: int)
    requires Valid(s)
    ensures Valid(Marked(s, fetch, now))
    ensures fetch.Some? ==> Marked(s, fetch, now).live.Keys == ItemsOf(fetch).Keys
    ensures fetch.Some?
            ==> forall id | id in ItemsOf(fetch) :: Marked(s, fetch, now).live[id] == ItemsOf(fetch)[id].days
  {
    if fetch.Some? { NoEmptyId(fetch.value); }
  }

  lemma RoundKeepsValid(s: Stores, fetch: Option<seq<RawItem>>, globalDays: nat, now: int)
    requires Valid(s)
    ensures Valid(Round(s, fetch, globalDays, now))
    ensures Round(s, fetch, globalDays, now).live == Marked(s, fetch, now).live
  {
    hide Mark, TsExpires, LogExpires, EdgeExpires;
    MarkedIsValid(s, fetch, now);
  }

  /** A round without a list schedules nothing: live keys stay, and retain keys only fall due. */
  lemma FailedFetchSchedulesNothing(s: Stores, globalDays: nat, now: int)
    requires Valid(s)
    ensures var after := Round(s, None, globalDays, now);
            && after.live == s.live
            && after.retain == map id | id in s.retain && s.retain[id] > now :: s.retain[id]
  {
  }

  // ---------------------------------------------------------------- what a round may delete

  /**
    A log of a live item goes exactly when a list was fetched and the record is as old as the
    item's retention; nothing of a live item goes when the list could not be fetched.
   */
  lemma LiveLogsKeepTheirRetention(s: Stores, fetch: Option<seq<RawItem>>, globalDays: nat, now: int, k: nat)
    requires Valid(s) && 0 <= now <= I64_MAX && k in s.logs
    requires s.logs[k].item in Round(s, fetch, globalDays, now).live
    requires Clamp(Round(s, fetch, globalDays, now).live[s.logs[k].item]) <= MAX_DAYS
    ensures var e, after := s.logs[k], Round(s, fetch, globalDays, now);
            k !in after.logs <==> fetch.Some? && e.ts + Clamp(after.live[e.item]) * MICROS_PER_DAY <= now
  {
  }

  /**
    A point of a live item goes exactly when a list was fetched, the item keeps data for fewer days
    than the store does, and the point is older than that; an edge exactly when the item is an
    eBPF one and the edge is older than its retention.
   */
  lemma LivePointsAndEdgesKeepTheirRetention(s: Stores, fetch: Option<seq<RawItem>>, globalDays: nat, now: int, k: nat,
                                             id: string)
    requires Valid(s) && 0 <= now <= I64_MAX
    requires id in Round(s, fetch, globalDays, now).live && Clamp(Round(s, fetch, globalDays, now).live[id]) <= MAX_DAYS
    ensures var after, days := Round(s, fetch, globalDays, now), Clamp(Round(s, fetch, globalDays, now).live[id]);
            && (k in s.points && s.points[k].item == id ==>
                  (k !in after.points
                   <==> && fetch.Some? && days < Clamp(globalDays)
                        && 0 <= s.points[k].ts && s.points[k].ts + days * MICROS_PER_DAY < now))
            && (k in s.edges && s.edges[k].item == id ==>
                  (k !in after.edges
                   <==> && fetch.Some? && |ItemsOf(fetch)[id].kind| >= 4 && ItemsOf(fetch)[id].kind[..4] == "ebpf"
                        && s.edges[k].ts + days * MICROS_PER_DAY < now))
  {
    hide LogExpires, SaturatingSub, Wrap, RetainUntil;
    MarkedIsValid(s, fetch, now);
    RoundKeepsValid(s, fetch, globalDays, now);
    if fetch.Some? { CutoffExactIff(now, ItemsOf(fetch)[id].days); }
  }

  /**
    Marking: an item that left gets its retention from now as a deadline, an item in the list has
    none and is live with the list's retention, every other deadline stays.
   */
  lemma LeavingIsScheduled(s: Stores, items: Items, now: int, id: string)
    requires Valid(s) && "" !in items
    ensures var m := Mark(s, items, now);
            && (id in m.live <==> id in items) && (id in items ==> m.live[id] == items[id].days && id !in m.retain)
            && (id in s.live && id !in items ==> id in m.retain && m.retain[id] == RetainUntil(now, s.live[id]))
            && (id !in s.live && id !in items ==>
                  (id in m.retain <==> id in s.retain) && (id in s.retain ==> m.retain[id] == s.retain[id]))
  {
  }

  /**
    A round drops a deadline exactly when it has come, and then the same round has removed every log
    of the item, exactly its edges before now and, if the deadline is positive, exactly its points in
    [0, deadline).
   */
  lemma RemovedKeyMeansRemovedData(s: Stores, fetch: Option<seq<RawItem>>, globalDays: nat, now: int, id: string)
    requires Valid(s) && id in Marked(s, fetch, now).retain
    ensures var after, until := Round(s, fetch, globalDays, now), Marked(s, fetch, now).retain[id];
            && (id !in after.retain <==> until <= now)
            && (until <= now ==>
                  && (forall k | k in after.logs :: after.logs[k].item != id)
                  && (forall k | k in s.edges && s.edges[k].item == id :: k in after.edges <==> s.edges[k].ts >= now)
                  && (forall k | k in s.points && s.points[k].item == id ::
                        k in after.points <==> !(until > 0 && 0 <= s.points[k].ts < until)))
            && (forall k | k in after.edges :: k in s.edges && after.edges[k] == s.edges[k])
            && (forall k | k in after.points :: k in s.points && after.points[k] == s.points[k])
  {
    hide RetainAfterMarking, LiveAfterMarking, SaturatingSub, Wrap;
    MarkedIsValid(s, fetch, now);
  }

  /** Items that are neither in the list nor due lose nothing. */
  lemma OtherItemsUntouched(s: Stores, fetch: Option<seq<RawItem>>, globalDays: nat, now: int, k: nat)
    requires Valid(s)
    ensures var after, m := Round(s, fetch, globalDays, now), Marked(s, fetch, now);
            && (k in s.logs && s.logs[k].item !in ItemsOf(fetch) && !Due(m, s.logs[k].item, now) ==>
                  k in after.logs && after.logs[k] == s.logs[k])
            && (k in s.points && s.points[k].item !in ItemsOf(fetch) && !Due(m, s.points[k].item, now) ==>
                  k in after.points && after.points[k] == s.points[k])
            && (k in s.edges && s.edges[k].item !in ItemsOf(fetch) && !Due(m, s.edges[k].item, now) ==>
                  k in after.edges && after.edges[k] == s.edges[k])
  {
  }

  /** The order matters: with logs first, a due item's points would outlive its retain key. */
  lemma LogsFirstLosesPoints(s: Stores, items: Items, globalDays: nat, now: int, k: nat)
    requires k in s.points && s.points[k].item !in items && Due(s, s.points[k].item, now)
    ensures var after := ApplyTs(ApplyLogs(s, items, now), items, globalDays, now);
            k in after.points && s.points[k].item !in after.retain
  {
  }
}
