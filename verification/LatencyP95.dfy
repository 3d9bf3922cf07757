/**
  The 95th percentile read off a log2 histogram (crates/dataplane-apm/src/ebpf_metrics.rs):
  exactly the slot bound of the nearest-rank percentile of the samples behind it,
  also when the histogram was merged from several.
 */
module LatencyP95 {
  import opened Wrappers
  import opened Samples
  import opened EbpfAbi

  type Histogram = seq<nat>

  function Total(hist: Histogram): nat {
    if hist == [] then 0 else Total(hist[..|hist| - 1]) + hist[|hist| - 1]
  }

  function At(hist: Histogram, slot: nat): nat {
    if slot < |hist| then hist[slot] else 0
  }

  function SlotUpper(slot: nat): nat {
    Pow2(if slot + 1 <= 62 then slot + 1 else 62)
  }

  // The cumulative count up to this slot is at least 95% of the total.
  predicate Reaches(hist: Histogram, slot: nat) {
    slot < |hist| && 95 * Total(hist) <= 100 * Total(hist[..slot + 1])
  }

  // The first such slot.
  ghost predicate IsP95Slot(hist: Histogram, slot: nat) {
    Reaches(hist, slot) && forall j: nat | j < slot :: !Reaches(hist, j)
  }

  function FirstReaching(hist: Histogram, slot: nat): nat
    requires slot <= |hist|
    decreases |hist| - slot
  {
    if slot == |hist| || Reaches(hist, slot) then slot else FirstReaching(hist, slot + 1)
  }

  function P95Of(hist: Histogram): Option<nat> {
    if Total(hist) == 0 then None else Some(SlotUpper(FirstReaching(hist, 0)))
  }

  method HistogramP95(hist: Histogram) returns (p95: Option<nat>)
    ensures p95 == P95Of(hist)
  {
    var total := TotalCount(hist);
    if total == 0 { return None; }
    var cumulative := 0;
    assert hist[..|hist|] == hist;
    for slot := 0 to |hist|
      invariant cumulative == Total(hist[..slot])
      invariant FirstReaching(hist, 0) == FirstReaching(hist, slot)
      invariant slot > 0 ==> 100 * cumulative < 95 * total
    {
      assert hist[..slot + 1][..slot] == hist[..slot];
      cumulative := cumulative + hist[slot];
      if 100 * cumulative >= 95 * total {
        return Some(SlotUpper(slot));
      }
    }
    assert false;
  }

  lemma {:induction false} FirstReachingIsFirst(hist: Histogram, slot: nat)
    requires slot <= |hist| && forall j: nat | j < slot :: !Reaches(hist, j)
    ensures var first := FirstReaching(hist, slot);
            if first < |hist| then IsP95Slot(hist, first) else first == |hist| && forall j: nat :: !Reaches(hist, j)
    decreases |hist| - slot
  {
    if slot < |hist| && !Reaches(hist, slot) {
      FirstReachingIsFirst(hist, slot + 1);
    }
  }

  method TotalCount(hist: Histogram) returns (total: nat)
    ensures total == Total(hist)
  {
    total := 0;
    for slot := 0 to |hist|
      invariant total == Total(hist[..slot])
    {
      assert hist[..slot + 1][..slot] == hist[..slot];
      total := total + hist[slot];
    }
    assert hist[..|hist|] == hist;
  }

  // ---------------------------------------------------------------- histograms of samples

  predicate Words(s: seq<nat>) {
    forall i :: 0 <= i < |s| ==> s[i] < U64_RANGE
  }

  function CountBelow(s: seq<nat>, k: nat): nat
    requires Words(s)
  {
    if s == [] then 0 else (if HistSlot(s[0]) < k then 1 else 0) + CountBelow(s[1..], k)
  }

  function CountAt(s: seq<nat>, k: nat): nat
    requires Words(s)
  {
    if s == [] then 0 else (if HistSlot(s[0]) == k then 1 else 0) + CountAt(s[1..], k)
  }

  /** `hist` counts the samples slot by slot; slots beyond its end are empty. */
  ghost predicate Represents(hist: Histogram, s: seq<nat>)
    requires Words(s)
  {
    forall slot: nat :: At(hist, slot) == CountAt(s, slot)
  }

  // The table the kernel side fills: one more in the sample's slot.
  function HistogramOf(s: seq<nat>): (hist: Histogram)
    requires Words(s)
    ensures |hist| == HIST_SLOTS
    ensures Represents(hist, s)
  {
    if s == [] then seq(HIST_SLOTS, _ => 0)
    else
      HistSlotBrackets(s[0]);
      var rest := HistogramOf(s[1..]);
      rest[HistSlot(s[0]) := rest[HistSlot(s[0])] + 1]
  }

  function Add(a: Histogram, b: Histogram): Histogram {
    seq(if |a| >= |b| then |a| else |b|, i requires 0 <= i => At(a, i) + At(b, i))
  }

  // Pads the accumulated histogram to the row's length and adds the row slot by slot.
  method Accumulate(acc: Histogram, hist: Histogram) returns (merged: Histogram)
    ensures merged == Add(acc, hist)
  {
    merged := acc;
    while |merged| < |hist|
      invariant |acc| <= |merged| <= (if |acc| >= |hist| then |acc| else |hist|)
      invariant forall i | 0 <= i < |merged| :: merged[i] == At(acc, i)
    {
      merged := merged + [0];
    }
    for slot := 0 to |hist|
      invariant |merged| == if |acc| >= |hist| then |acc| else |hist|
      invariant forall i | 0 <= i < |merged| :: merged[i] == At(acc, i) + if i < slot then hist[i] else 0
    {
      merged := merged[slot := merged[slot] + hist[slot]];
    }
  }

  lemma {:induction false} CountAtConcat(s: seq<nat>, t: seq<nat>, k: nat)
    requires Words(s) && Words(t)
    ensures CountAt(s + t, k) == CountAt(s, k) + CountAt(t, k)
  {
    if s == [] {
      assert s + t == t;
    } else {
      CountAtConcat(s[1..], t, k);
      assert (s + t)[1..] == s[1..] + t;
    }
  }

  lemma AddRepresents(a: Histogram, s: seq<nat>, b: Histogram, t: seq<nat>)
    requires Words(s) && Words(t) && Represents(a, s) && Represents(b, t)
    ensures Represents(Add(a, b), s + t)
  {
    forall slot: nat ensures At(Add(a, b), slot) == CountAt(s + t, slot) {
      CountAtConcat(s, t, slot);
    }
  }

  function MergeAll(hists: seq<Histogram>): Histogram {
    if hists == [] then [] else Add(MergeAll(hists[..|hists| - 1]), hists[|hists| - 1])
  }

  function Pooled(samples: seq<seq<nat>>): seq<nat> {
    if samples == [] then [] else Pooled(samples[..|samples| - 1]) + samples[|samples| - 1]
  }

  /** Merging histograms, of any lengths, gives the histogram of the pooled samples. */
  lemma {:induction false} MergeRepresents(hists: seq<Histogram>, samples: seq<seq<nat>>)
    requires |hists| == |samples|
    requires forall i | 0 <= i < |hists| :: Words(samples[i]) && Represents(hists[i], samples[i])
    ensures Words(Pooled(samples)) && Represents(MergeAll(hists), Pooled(samples))
  {
    if hists != [] {
      var n := |hists| - 1;
      MergeRepresents(hists[..n], samples[..n]);
      AddRepresents(MergeAll(hists[..n]), Pooled(samples[..n]), hists[n], samples[n]);
    }
  }

  // ---------------------------------------------------------------- from slots to ranks

  function PrefixSum(hist: Histogram, k: nat): nat {
    if k == 0 then 0 else PrefixSum(hist, k - 1) + At(hist, k - 1)
  }

  lemma {:induction false} PrefixSumIsTotal(hist: Histogram, k: nat)
    ensures PrefixSum(hist, k) == Total(hist[..if k <= |hist| then k else |hist|])
  {
    if k > 0 {
      PrefixSumIsTotal(hist, k - 1);
      if k <= |hist| { assert hist[..k][..k - 1] == hist[..k - 1]; }
    }
  }

  lemma {:induction false} CountBelowNext(s: seq<nat>, k: nat)
    requires Words(s)
    ensures CountBelow(s, k + 1) == CountBelow(s, k) + CountAt(s, k)
  {
    if s != [] { CountBelowNext(s[1..], k); }
  }

  lemma {:induction false} CountBelowNothing(s: seq<nat>)
    requires Words(s)
    ensures CountBelow(s, 0) == 0
  {
    if s != [] { CountBelowNothing(s[1..]); }
  }

  lemma {:induction false} CountBelowAll(s: seq<nat>, k: nat)
    requires Words(s) && k >= HIST_SLOTS
    ensures CountBelow(s, k) == |s|
  {
    if s != [] {
      HistSlotBrackets(s[0]);
      CountBelowAll(s[1..], k);
    }
  }

  lemma {:induction false} PrefixSumCounts(hist: Histogram, s: seq<nat>, k: nat)
    requires Words(s) && Represents(hist, s)
    ensures PrefixSum(hist, k) == CountBelow(s, k)
  {
    if k == 0 {
      CountBelowNothing(s);
    } else {
      PrefixSumCounts(hist, s, k - 1);
      CountBelowNext(s, k - 1);
    }
  }

  lemma TotalCounts(hist: Histogram, s: seq<nat>, slot: nat)
    requires Words(s) && Represents(hist, s)
    ensures Total(hist) == |s|
    ensures slot < |hist| ==> Total(hist[..slot + 1]) == CountBelow(s, slot + 1)
  {
    var k := |hist| + HIST_SLOTS;
    PrefixSumIsTotal(hist, k);
    PrefixSumCounts(hist, s, k);
    CountBelowAll(s, k);
    assert hist[..|hist|] == hist;
    PrefixSumIsTotal(hist, slot + 1);
    PrefixSumCounts(hist, s, slot + 1);
  }

  lemma {:induction false} CountBelowInsert(x: nat, s: seq<nat>, k: nat)
    requires Words(s) && x < U64_RANGE
    ensures Words(Insert(x, s))
    ensures CountBelow(Insert(x, s), k) == CountBelow([x] + s, k)
  {
    if s == [] || x <= s[0] {
    } else {
      CountBelowInsert(x, s[1..], k);
      assert ([x] + s)[1..] == s && ([x] + s[1..])[1..] == s[1..];
    }
  }

  lemma {:induction false} CountBelowSort(s: seq<nat>, k: nat)
    requires Words(s)
    ensures Words(Sort(s)) && CountBelow(Sort(s), k) == CountBelow(s, k)
  {
    if s != [] {
      CountBelowSort(s[1..], k);
      CountBelowInsert(s[0], Sort(s[1..]), k);
      assert ([s[0]] + Sort(s[1..]))[1..] == Sort(s[1..]);
    }
  }

  // In sorted samples, those below a slot are a prefix.
  lemma {:induction false} RankBelow(s: seq<nat>, i: nat, k: nat)
    requires Words(s) && Sorted(s) && i < |s|
    ensures HistSlot(s[i]) < k <==> i < CountBelow(s, k)
  {
    HistSlotMonotone(s[0], s[i]);
    if i > 0 {
      RankBelow(s[1..], i - 1, k);
    }
    if HistSlot(s[0]) >= k && |s| > 1 {
      HistSlotMonotone(s[0], s[1]);
      RankBelow(s[1..], 0, k);
    }
  }

  function NearestRank(s: seq<nat>): nat
    requires s != []
  {
    SortSorts(s);
    Sort(s)[Rank(95, |s|) - 1]
  }

  /** The rank used for exact samples: the group's own percentile function picks the same sample. */
  lemma NearestRankIsPercentile(key: GroupKey, g: Group)
    requires g.kept != []
    ensures StatsOf(key, g).Percentile(95) == Some(NearestRank(g.kept))
  {
    SortSorts(g.kept);
  }

  lemma SlotReached(hist: Histogram, s: seq<nat>, slot: nat)
    requires Words(s) && Represents(hist, s) && s != [] && slot < |hist|
    ensures NearestRank(s) < U64_RANGE
    ensures Reaches(hist, slot) <==> HistSlot(NearestRank(s)) <= slot
  {
    SortSorts(s);
    CountBelowSort(s, slot + 1);
    TotalCounts(hist, s, slot);
    RankBelow(Sort(s), Rank(95, |s|) - 1, slot + 1);
  }

  // The slot of a sample lies inside the histogram.
  lemma LastSlotHolds(hist: Histogram, s: seq<nat>)
    requires Words(s) && Represents(hist, s) && s != []
    ensures NearestRank(s) < U64_RANGE
    ensures HistSlot(NearestRank(s)) < |hist|
  {
    SortSorts(s);
    CountBelowSort(s, |hist|);
    RankBelow(Sort(s), Rank(95, |s|) - 1, |hist|);
    PrefixSumIsTotal(hist, |hist|);
    PrefixSumCounts(hist, s, |hist|);
    TotalCounts(hist, s, 0);
    assert hist[..|hist|] == hist;
  }

  lemma {:induction false} FirstSlotIsNearestRank(hist: Histogram, s: seq<nat>)
    requires Words(s) && Represents(hist, s) && s != []
    ensures NearestRank(s) < U64_RANGE
    ensures FirstReaching(hist, 0) == HistSlot(NearestRank(s))
  {
    LastSlotHolds(hist, s);
    forall j: nat | j < |hist|
      ensures Reaches(hist, j) <==> HistSlot(NearestRank(s)) <= j
    {
      SlotReached(hist, s, j);
    }
    FirstReachingIsFirst(hist, 0);
    assert Reaches(hist, HistSlot(NearestRank(s)));
  }

  /**
    The histogram percentile is exact up to its slot: for every histogram representing the
    samples it is twice the lower bound of the slot that holds their nearest-rank 95th
    percentile.
   */
  lemma P95IsSlotOfNearestRank(hist: Histogram, s: seq<nat>)
    requires Words(s) && Represents(hist, s) && s != []
    ensures NearestRank(s) < U64_RANGE
    ensures P95Of(hist) == Some(Pow2(HistSlot(NearestRank(s)) + 1))
  {
    FirstSlotIsNearestRank(hist, s);
    HistSlotBrackets(NearestRank(s));
    TotalCounts(hist, s, 0);
  }

  /**
    How far off the reported percentile is: above the true one and at most twice it on
    [1, 2^32) microseconds, 2 for a true percentile of 0, and capped at 2^32 beyond.
   */
  lemma P95WithinFactorTwo(hist: Histogram, s: seq<nat>)
    requires Words(s) && Represents(hist, s) && s != []
    ensures P95Of(hist).Some?
    ensures var p, p95 := NearestRank(s), P95Of(hist).value;
            && (p == 0 ==> p95 == 2)
            && (1 <= p < 0x1_0000_0000 ==> p < p95 <= 2 * p)
            && (p >= 0x1_0000_0000 ==> p95 == 0x1_0000_0000)
  {
    P95IsSlotOfNearestRank(hist, s);
    HistSlotBrackets(NearestRank(s));
    Pow2At32();
    assert Pow2(1) == 2 * Pow2(0);
  }

  /** A percentile over merged rows is the one of all their samples pooled, to the slot. */
  lemma {:induction false} MergedP95(hists: seq<Histogram>, samples: seq<seq<nat>>)
    requires |hists| == |samples| && Pooled(samples) != []
    requires forall i | 0 <= i < |hists| :: Words(samples[i]) && Represents(hists[i], samples[i])
    ensures Words(Pooled(samples)) && NearestRank(Pooled(samples)) < U64_RANGE
    ensures P95Of(MergeAll(hists)) == Some(Pow2(HistSlot(NearestRank(Pooled(samples))) + 1))
  {
    MergeRepresents(hists, samples);
    P95IsSlotOfNearestRank(MergeAll(hists), Pooled(samples));
  }
}
