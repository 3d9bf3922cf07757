/**
  Latency samples per closed minute (crates/dataplane-apm/src/red.rs): the
  counts and the bounded sample lists behind the RED metrics.
 */
module Samples {
  import opened Wrappers

  const MINUTE_MICROS: nat := 60_000_000
  type pos = n: nat | n >= 1 witness 1

  datatype GroupKey = GroupKey(bucketStart: int, first: string, second: string, spanKind: string, status: string)
  // Count, sum and maximum of a group's durations, and the samples kept up to the cap.
  datatype Group = Group(count: nat, sum: nat, max: nat, kept: seq<nat>)
  datatype GroupStats = GroupStats(key: GroupKey, count: nat, sum: nat, max: nat, samples: seq<nat>)
  {
    /** Nearest-rank percentile of the sorted samples, p in percent. */
    function Percentile(p: nat): Option<nat> {
      if samples == [] then None
      else
        var rank := Rank(p, |samples|);
        if rank <= |samples| then Some(samples[rank - 1]) else None
    }
  }

  datatype Observation = Observation(key: GroupKey, duration: nat)
  type Table = map<GroupKey, Group>

  // ceil(p / 100 * n), at least 1.
  function Rank(p: nat, n: nat): (r: nat)
    ensures r >= 1
  {
    var r := (p * n + 99) / 100;
    if r < 1 then 1 else r
  }

  // ---------------------------------------------------------------- sorting

  function Insert(x: nat, s: seq<nat>): seq<nat> {
    if s == [] || x <= s[0] then [x] + s else [s[0]] + Insert(x, s[1..])
  }

  function Sort(s: seq<nat>): seq<nat> {
    if s == [] then [] else Insert(s[0], Sort(s[1..]))
  }

  predicate Sorted(s: seq<nat>) {
    forall i, j :: 0 <= i < j < |s| ==> s[i] <= s[j]
  }

  lemma {:induction false} InsertAdds(x: nat, s: seq<nat>)
    ensures multiset(Insert(x, s)) == multiset(s) + multiset{x}
  {
    if !(s == [] || x <= s[0]) {
      InsertAdds(x, s[1..]);
      assert s == [s[0]] + s[1..];
    }
  }

  lemma {:induction false} InsertSorts(x: nat, s: seq<nat>)
    requires Sorted(s)
    ensures Sorted(Insert(x, s))
    ensures Insert(x, s)[0] == if s == [] || x <= s[0] then x else s[0]
  {
    if !(s == [] || x <= s[0]) {
      InsertSorts(x, s[1..]);
    }
  }

  /** Sorting keeps the samples, with multiplicity, in ascending order. */
  lemma {:induction false} SortSorts(s: seq<nat>)
    ensures Sorted(Sort(s)) && multiset(Sort(s)) == multiset(s)
    ensures |Sort(s)| == |s|
  {
    if s != [] {
      SortSorts(s[1..]);
      InsertSorts(s[0], Sort(s[1..]));
      InsertAdds(s[0], Sort(s[1..]));
      assert s == [s[0]] + s[1..];
    }
    assert |multiset(Sort(s))| == |multiset(s)|;
  }

  // ---------------------------------------------------------------- percentiles

  function CountAtMost(s: seq<nat>, v: nat): nat {
    if s == [] then 0 else (if s[0] <= v then 1 else 0) + CountAtMost(s[1..], v)
  }

  function CountUnder(s: seq<nat>, v: nat): nat {
    if s == [] then 0 else (if s[0] < v then 1 else 0) + CountUnder(s[1..], v)
  }

  lemma {:induction false} RankBounds(s: seq<nat>, i: nat)
    requires Sorted(s) && i < |s|
    ensures CountUnder(s, s[i]) <= i < CountAtMost(s, s[i])
  {
    if i > 0 {
      RankBounds(s[1..], i - 1);
    } else {
      NoneUnder(s, s[0]);
    }
  }

  lemma {:induction false} NoneUnder(s: seq<nat>, v: nat)
    requires forall i | 0 <= i < |s| :: v <= s[i]
    ensures CountUnder(s, v) == 0
  {
    if s != [] { NoneUnder(s[1..], v); }
  }

  /**
    A percentile of sorted samples is one of them, with at least p percent of the samples up to
    it and less than p percent (or none at all) below it.
   */
  lemma PercentileIsNearestRank(stats: GroupStats, p: nat)
    requires Sorted(stats.samples) && stats.samples != [] && p <= 100
    ensures stats.Percentile(p).Some?
    ensures var v, n := stats.Percentile(p).value, |stats.samples|;
            && v in stats.samples && p * n <= 100 * CountAtMost(stats.samples, v)
            && (CountUnder(stats.samples, v) == 0 || 100 * CountUnder(stats.samples, v) < p * n)
  {
    var n := |stats.samples|;
    RankIsCeiling(p, n);
    RankBounds(stats.samples, Rank(p, n) - 1);
  }

  lemma RankIsCeiling(p: nat, n: nat)
    requires n > 0 && p <= 100
    ensures Rank(p, n) <= n && p * n <= 100 * Rank(p, n)
    ensures Rank(p, n) == 1 || 100 * (Rank(p, n) - 1) < p * n
  {
    assert p * n + (100 - p) * n == 100 * n;
    Hundredths(p * n, n);
  }

  lemma Hundredths(x: nat, n: nat)
    requires x <= 100 * n
    ensures (x + 99) / 100 <= n && x <= 100 * ((x + 99) / 100) < x + 100
  {
  }

  // ---------------------------------------------------------------- observing

  const EMPTY_GROUP := Group(0, 0, 0, [])

  function Extend(cap: nat, g: Group, duration: nat): Group {
    Group(g.count + 1, g.sum + duration, if g.max >= duration then g.max else duration,
          if |g.kept| < cap then g.kept + [duration] else g.kept)
  }

  function ObserveSample(cap: nat, table: Table, key: GroupKey, duration: nat): Table {
    table[key := Extend(cap, if key in table then table[key] else EMPTY_GROUP, duration)]
  }

  // Whether this sample only counts: its group is already full.
  predicate Overflows(cap: nat, table: Table, key: GroupKey) {
    key in table && |table[key].kept| >= cap
  }

  function ObserveAll(cap: nat, table: Table, obs: seq<Observation>): Table {
    if obs == [] then table
    else
      var last := obs[|obs| - 1];
      ObserveSample(cap, ObserveAll(cap, table, obs[..|obs| - 1]), last.key, last.duration)
  }

  // Reference: the durations of one group in order of arrival.
  function DurationsOf(obs: seq<Observation>, key: GroupKey): seq<nat> {
    if obs == [] then []
    else
      var last := obs[|obs| - 1];
      DurationsOf(obs[..|obs| - 1], key) + if last.key == key then [last.duration] else []
  }

  function SumOf(s: seq<nat>): nat {
    if s == [] then 0 else SumOf(s[..|s| - 1]) + s[|s| - 1]
  }

  predicate MaxOf(m: nat, s: seq<nat>) {
    (forall i :: 0 <= i < |s| ==> s[i] <= m) && (m == 0 || m in s)
  }

  predicate Describes(cap: nat, g: Group, d: seq<nat>) {
    && g.count == |d| && g.sum == SumOf(d) && MaxOf(g.max, d)
    && g.kept == d[..if |d| <= cap then |d| else cap]
  }

  lemma ExtendDescribes(cap: nat, g: Group, d: seq<nat>, duration: nat)
    requires Describes(cap, g, d)
    ensures Describes(cap, Extend(cap, g, duration), d + [duration])
  {
  }

  /**
    A group counts, sums and bounds every one of its durations and keeps the first
    `cap` of them in order of arrival; no other group exists.
   */
  lemma {:induction false} GroupDescribesDurations(cap: pos, obs: seq<Observation>, key: GroupKey)
    ensures key in ObserveAll(cap, map[], obs) <==> DurationsOf(obs, key) != []
    ensures key in ObserveAll(cap, map[], obs)
            ==> Describes(cap, ObserveAll(cap, map[], obs)[key], DurationsOf(obs, key))
  {
    if obs != [] {
      var init, last := obs[..|obs| - 1], obs[|obs| - 1];
      GroupDescribesDurations(cap, init, key);
      if last.key == key {
        var table := ObserveAll(cap, map[], init);
        var before := if key in table then table[key] else EMPTY_GROUP;
        ExtendDescribes(cap, before, DurationsOf(init, key), last.duration);
      } else {
        assert DurationsOf(obs, key) == DurationsOf(init, key);
      }
    }
  }

  // ---------------------------------------------------------------- draining

  predicate Closed(bucketStart: int, now: int) {
    bucketStart + MINUTE_MICROS <= now
  }

  function OpenPart(table: Table, now: int): Table {
    map k | k in table && !Closed(k.bucketStart, now) :: table[k]
  }

  function StatsOf(key: GroupKey, g: Group): GroupStats {
    GroupStats(key, g.count, g.sum, g.max, Sort(g.kept))
  }

  // `out` lists the statistics of exactly the closed groups of `table`, each once.
  ghost predicate DrainsClosed(table: Table, now: int, out: seq<GroupStats>) {
    && (forall i :: 0 <= i < |out| ==>
          out[i].key in table && Closed(out[i].key.bucketStart, now)
              && out[i] == StatsOf(out[i].key, table[out[i].key]))
    && (forall i, j :: 0 <= i < j < |out| ==> out[i].key != out[j].key)
    && (forall k | k in table && Closed(k.bucketStart, now) :: exists i :: 0 <= i < |out| && out[i].key == k)
  }

  // `out` lists the statistics of the groups in `gone`, each once.
  ghost predicate Lists(table: Table, gone: set<GroupKey>, out: seq<GroupStats>) {
    && gone <= table.Keys
    && (forall i :: 0 <= i < |out| ==> out[i].key in gone && out[i] == StatsOf(out[i].key, table[out[i].key]))
    && (forall i, j :: 0 <= i < j < |out| ==> out[i].key != out[j].key)
    && (forall k | k in gone :: exists i :: 0 <= i < |out| && out[i].key == k)
  }

  lemma ListsOneMore(table: Table, gone: set<GroupKey>, out: seq<GroupStats>, key: GroupKey)
    requires Lists(table, gone, out) && key in table && key !in gone
    ensures Lists(table, gone + {key}, out + [StatsOf(key, table[key])])
  {
    var longer := out + [StatsOf(key, table[key])];
    assert longer[|out|].key == key;
    forall k | k in gone ensures exists i :: 0 <= i < |longer| && longer[i].key == k {
      var i :| 0 <= i < |out| && out[i].key == k;
      assert longer[i].key == k;
    }
  }

  method DrainClosed(table: Table, now: int) returns (rest: Table, out: seq<GroupStats>)
    ensures rest == OpenPart(table, now)
    ensures DrainsClosed(table, now, out)
    ensures forall k :: k in rest <==> k in table && now < k.bucketStart + 60_000_000
    ensures forall k :: (exists i :: 0 <= i < |out| && out[i].key == k)
                        <==> k in table && k.bucketStart + 60_000_000 <= now
  {
    hide Lists, DrainsClosed, StatsOf;
    var todo := set k | k in table && Closed(k.bucketStart, now);
    ghost var closed := todo;
    ghost var gone: set<GroupKey> := {};
    rest, out := table, [];
    ListsNothing(table);
    while todo != {}
      invariant todo == closed - gone && gone <= closed <= table.Keys
      invariant rest == table - gone && Lists(table, gone, out)
      decreases |todo|
    {
      var key :| key in todo;
      ListsOneMore(table, gone, out, key);
      out := out + [StatsOf(key, rest[key])];
      assert table - gone - {key} == table - (gone + {key});
      rest, todo, gone := rest - {key}, todo - {key}, gone + {key};
    }
    assert gone == closed;
    ListedIsDrained(table, now, gone, out);
  }

  lemma ListsNothing(table: Table)
    ensures table - {} == table && Lists(table, {}, [])
  {
  }

  lemma ListedIsDrained(table: Table, now: int, gone: set<GroupKey>, out: seq<GroupStats>)
    requires Lists(table, gone, out) && forall k :: k in gone <==> k in table && Closed(k.bucketStart, now)
    ensures DrainsClosed(table, now, out)
  {
  }

  /** Drained samples are sorted, so a percentile of them is a nearest-rank one. */
  lemma DrainedSamplesSorted(table: Table, now: int, out: seq<GroupStats>, i: nat)
    requires DrainsClosed(table, now, out) && i < |out|
    ensures Sorted(out[i].samples) && multiset(out[i].samples) == multiset(table[out[i].key].kept)
  {
    SortSorts(table[out[i].key].kept);
  }

  datatype Side = Service | Edge

  /** Minute samples of spans and of edges, guarded by one lock in the source. */
  class RedSamples {
    const groupCap: pos
    var service: Table
    var edge: Table
    var droppedSamples: nat

    constructor (cap: nat)
      ensures groupCap == (if cap < 1 then 1 else cap)
      ensures service == map[] && edge == map[] && droppedSamples == 0
    {
      groupCap := if cap < 1 then 1 else cap;
      service, edge, droppedSamples := map[], map[], 0;
    }

    method Observe(side: Side, key: GroupKey, duration: nat)
      modifies this
      ensures side.Service? ==> service == ObserveSample(groupCap, old(service), key, duration) && edge == old(edge)
      ensures side.Edge? ==> edge == ObserveSample(groupCap, old(edge), key, duration) && service == old(service)
      ensures droppedSamples == old(droppedSamples)
              + if Overflows(groupCap, old(if side.Service? then service else edge), key) then 1 else 0
    {
      var table := if side.Service? then service else edge;
      var entry := if key in table then table[key] else EMPTY_GROUP;
      entry := entry.(count := entry.count + 1, sum := entry.sum + duration,
                      max := if entry.max >= duration then entry.max else duration);
      if |entry.kept| < groupCap {
        entry := entry.(kept := entry.kept + [duration]);
      } else {
        droppedSamples := droppedSamples + 1;
      }
      if side.Service? {
        service := service[key := entry];
      } else {
        edge := edge[key := entry];
      }
    }

    method TakeClosed(now: int) returns (serviceOut: seq<GroupStats>, edgeOut: seq<GroupStats>)
      modifies this
      ensures service == OpenPart(old(service), now) && DrainsClosed(old(service), now, serviceOut)
      ensures edge == OpenPart(old(edge), now) && DrainsClosed(old(edge), now, edgeOut)
      ensures forall k :: k in service <==> k in old(service) && now < k.bucketStart + 60_000_000
      ensures forall k :: k in edge <==> k in old(edge) && now < k.bucketStart + 60_000_000
      ensures droppedSamples == old(droppedSamples)
    {
      var rest;
      rest, serviceOut := DrainClosed(service, now);
      service := rest;
      rest, edgeOut := DrainClosed(edge, now);
      edge := rest;
    }
  }
}
