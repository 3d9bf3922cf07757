/**
  The kernels shared by the kernel-side programs and the agent
  (crates/ebpf-abi/src/lib.rs): a token bucket that refills with shifts and
  multiplications only, and a log2 latency histogram.

  Machine words are modelled as u64 with explicit wrap-around: a plain `*` or
  `+` of the source is `% U64_RANGE` here, a saturating one is a clamp.
 */
module EbpfAbi {
  import opened Arithmetic

  const U64_RANGE: nat := 0x1_0000_0000_0000_0000
  const U64_MAX: nat := 0xFFFF_FFFF_FFFF_FFFF
  type u64 = n: nat | n < U64_RANGE

  // One tick is 2^20 nanoseconds; a second holds 10^9 >> 20 of them.
  const TICK_NS: nat := 0x10_0000
  const TICKS_PER_SEC: nat := 953
  // No u64 interval holds more ticks than this.
  const MAX_TICKS: nat := 0xFFF_FFFF_FFFF

  // ---------------------------------------------------------------- rates

  function TokensPerTick(ratePerSec: u64): u64 {
    var raw := ratePerSec / TICKS_PER_SEC;
    if ratePerSec % TICKS_PER_SEC == 0 then raw else raw + 1
  }

  /** The rate per tick is the least one that does not underestimate the rate per second. */
  lemma TokensPerTickIsCeiling(ratePerSec: u64, t: nat)
    ensures TICKS_PER_SEC == 1_000_000_000 / TICK_NS
    ensures TokensPerTick(ratePerSec) <= t <==> ratePerSec <= t * TICKS_PER_SEC
  {
  }

  function BurstForRate(ratePerSec: u64): u64 {
    var burst := ratePerSec / 10;
    if burst == 0 then 1 else if burst > 10_000 then 10_000 else burst
  }

  /** A derived burst is a tenth of a second's calls, but at least one and at most ten thousand. */
  lemma DerivedBurstIsTenth(ratePerSec: u64, n: nat)
    ensures n <= BurstForRate(ratePerSec) <==> n <= 1 || (n <= 10_000 && 10 * n <= ratePerSec)
  {
  }

  // ---------------------------------------------------------------- token bucket

  function SaturatingAdd(a: u64, b: u64): u64 {
    if a + b > U64_MAX then U64_MAX else a + b
  }

  function Elapsed(lastNs: u64, nowNs: u64): u64 {
    if nowNs >= lastNs then nowNs - lastNs else 0
  }

  // The tokens in the bucket before the call takes one, as the code computes them.
  function Refilled(tokens: u64, lastNs: u64, nowNs: u64, rate: u64, burst: u64): u64
    requires rate > 0
  {
    var ticks := Elapsed(lastNs, nowNs) / TICK_NS;
    var maxTicks := (burst / rate + 1) % U64_RANGE;
    Filled(tokens, ticks, maxTicks, rate, burst)
  }

  function Filled(tokens: u64, ticks: nat, maxTicks: nat, rate: u64, burst: u64): u64 {
    var clamped := if ticks > maxTicks then maxTicks else ticks;
    var refill := (clamped * rate) % U64_RANGE;
    var filled := SaturatingAdd(tokens, refill);
    if filled > burst then burst else filled
  }

  function TokenBucketStep(tokens: u64, lastNs: u64, nowNs: u64, rate: u64, burst: u64): (u64, bool) {
    var cap: u64 := if burst == 0 then 1 else burst;
    var available := if lastNs == 0 || rate == 0 then cap else Refilled(tokens, lastNs, nowNs, rate, cap);
    if available == 0 then (0, false) else (available - 1, true)
  }

  // The refill one would write with unbounded naturals.
  function IdealRefill(tokens: nat, lastNs: nat, nowNs: nat, rate: nat, burst: nat): nat {
    var elapsed := if nowNs >= lastNs then nowNs - lastNs else 0;
    IdealFilled(tokens, elapsed / 1_048_576, rate, burst)
  }

  function IdealFilled(tokens: nat, ticks: nat, rate: nat, burst: nat): nat {
    var filled := tokens + ticks * rate;
    if filled > burst then burst else filled
  }

  // What the clamp on ticks needs so that neither it nor the product wraps.
  predicate RefillFits(rate: u64, burst: u64)
    requires rate > 0
  {
    && burst / rate + 1 < U64_RANGE
    && ((burst / rate + 1) * rate < U64_RANGE || burst / rate + 1 > MAX_TICKS)
  }

  lemma OverBurst(rate: nat, burst: nat)
    requires rate > 0
    ensures burst < (burst / rate + 1) * rate <= burst + rate
    ensures burst / rate * rate <= burst
  {
  }

  // Clamping the ticks changes neither the bucket nor, when the settings fit, the range.
  lemma ClampIsHarmless(tokens: u64, ticks: nat, maxTicks: nat, quotient: nat, rate: u64, burst: u64)
    requires maxTicks == quotient + 1 && ticks <= MAX_TICKS
    requires quotient * rate <= burst < maxTicks * rate
    requires maxTicks * rate < U64_RANGE || maxTicks > MAX_TICKS
    ensures Filled(tokens, ticks, maxTicks, rate, burst) == IdealFilled(tokens, ticks, rate, burst)
  {
    var clamped := if ticks > maxTicks then maxTicks else ticks;
    var product := clamped * rate;
    assert product < U64_RANGE && (ticks > maxTicks ==> burst < product <= ticks * rate) by {
      if ticks > maxTicks {
        MulMonotone(maxTicks, ticks, rate);
      } else if maxTicks > MAX_TICKS {
        MulMonotone(ticks, quotient, rate);
      } else {
        MulMonotone(ticks, maxTicks, rate);
      }
    }
    WrapIsIdentity(product);
  }

  lemma WrapIsIdentity(product: nat)
    requires product < U64_RANGE
    ensures product % U64_RANGE == product
  {
  }

  lemma RefillExact(tokens: u64, lastNs: u64, nowNs: u64, rate: u64, burst: u64)
    requires rate > 0 && RefillFits(rate, burst)
    ensures Refilled(tokens, lastNs, nowNs, rate, burst) == IdealRefill(tokens, lastNs, nowNs, rate, burst)
  {
    hide Filled, IdealFilled, RefillFits;
    TicksBounded(Elapsed(lastNs, nowNs));
    FilledExact(tokens, Elapsed(lastNs, nowNs) / TICK_NS, rate, burst);
  }

  lemma FilledExact(tokens: u64, ticks: nat, rate: u64, burst: u64)
    requires rate > 0 && RefillFits(rate, burst) && ticks <= MAX_TICKS
    ensures (burst / rate + 1) % U64_RANGE == burst / rate + 1
    ensures Filled(tokens, ticks, burst / rate + 1, rate, burst) == IdealFilled(tokens, ticks, rate, burst)
  {
    hide Filled, IdealFilled;
    var quotient := burst / rate;
    OverBurst(rate, burst);
    WrapIsIdentity(quotient + 1);
    ClampIsHarmless(tokens, ticks, quotient + 1, quotient, rate, burst);
  }

  lemma TicksBounded(elapsed: u64)
    ensures elapsed / TICK_NS <= MAX_TICKS
  {
  }

  lemma RefillWraps(rate: u64, burst: u64) returns (lastNs: u64, nowNs: u64)
    requires rate > 0 && !RefillFits(rate, burst)
    ensures lastNs > 0
    ensures Refilled(0, lastNs, nowNs, rate, burst) < IdealRefill(0, lastNs, nowNs, rate, burst)
  {
    hide Filled, IdealFilled;
    lastNs := 1;
    OverBurst(rate, burst);
    if burst / rate + 1 >= U64_RANGE {
      BurstOverRate(rate, burst);
      nowNs := 1 + TICK_NS;
      assert Elapsed(lastNs, nowNs) / TICK_NS == 1;
      NoTicksNoRefill(rate, burst);
    } else {
      var k := burst / rate + 1;
      nowNs := 1 + k * TICK_NS;
      assert Elapsed(lastNs, nowNs) / TICK_NS == k;
      OneWrap(k, rate, burst);
    }
  }

  lemma NoTicksNoRefill(rate: u64, burst: u64)
    requires rate > 0 && burst > 0
    ensures Filled(0, 1, 0, rate, burst) == 0 < IdealFilled(0, 1, rate, burst)
  {
  }

  lemma OneWrap(k: nat, rate: u64, burst: u64)
    requires U64_RANGE <= k * rate <= burst + rate
    ensures Filled(0, k, k, rate, burst) < IdealFilled(0, k, rate, burst)
  {
  }

  lemma BurstOverRate(rate: u64, burst: u64)
    requires rate > 0 && burst / rate + 1 >= U64_RANGE
    ensures rate == 1 && burst == U64_MAX
  {
  }

  /**
    For given settings the wrapping refill agrees with the unbounded one on every
    bucket level and every pair of times exactly when the settings pass RefillFits.
   */
  lemma RefillExactIff(rate: u64, burst: u64)
    requires rate > 0
    ensures RefillFits(rate, burst) <==>
            forall tokens: u64, lastNs: u64, nowNs: u64 | lastNs > 0 ::
              Refilled(tokens, lastNs, nowNs, rate, burst) == IdealRefill(tokens, lastNs, nowNs, rate, burst)
  {
    if RefillFits(rate, burst) {
      forall tokens: u64, lastNs: u64, nowNs: u64 | lastNs > 0
        ensures Refilled(tokens, lastNs, nowNs, rate, burst) == IdealRefill(tokens, lastNs, nowNs, rate, burst)
      {
        RefillExact(tokens, lastNs, nowNs, rate, burst);
      }
    } else {
      var lastNs, nowNs := RefillWraps(rate, burst);
      assert Refilled(0, lastNs, nowNs, rate, burst) != IdealRefill(0, lastNs, nowNs, rate, burst);
    }
  }

  lemma SmallQuotient(a: nat, b: nat)
    requires a < b
    ensures a / b == 0
  {
  }

  /** Settings the agent derives from a rate never wrap, whatever the rate per tick. */
  lemma DerivedBurstFits(ratePerSec: u64, rate: u64)
    requires rate > 0
    ensures RefillFits(rate, BurstForRate(ratePerSec))
  {
    var burst := BurstForRate(ratePerSec);
    OverBurst(rate, burst);
    if rate > burst {
      SmallQuotient(burst, rate);
    } else {
      MulMonotone(1, rate, burst / rate);
    }
  }

  /** A burst of 2^64 - 1 at 2^63 tokens per tick wraps to an empty bucket after two ticks. */
  lemma WrappedRefillStarves()
    ensures TokenBucketStep(0, 1, 1 + 2 * TICK_NS, 0x8000_0000_0000_0000, U64_MAX) == (0, false)
    ensures IdealRefill(0, 1, 1 + 2 * TICK_NS, 0x8000_0000_0000_0000, U64_MAX) == U64_MAX
  {
  }

  /** A call finds what the unbounded refill leaves, takes one token if there is one, and admits exactly then. */
  lemma StepIsIdeal(tokens: u64, lastNs: u64, nowNs: u64, rate: u64, burst: u64)
    requires rate > 0 && (burst > 0 ==> RefillFits(rate, burst)) && (burst == 0 ==> RefillFits(rate, 1))
    ensures var cap := if burst == 0 then 1 else burst;
            var found := if lastNs == 0 then cap else IdealRefill(tokens, lastNs, nowNs, rate, cap);
            TokenBucketStep(tokens, lastNs, nowNs, rate, burst) == if found >= 1 then (found - 1, true) else (0, false)
  {
    var cap: u64 := if burst == 0 then 1 else burst;
    if lastNs != 0 { RefillExact(tokens, lastNs, nowNs, rate, cap); }
  }

  // ---------------------------------------------------------------- admission over a run

  // One call of the bucket: (tokens, last, now) to (tokens left, admitted).
  type Step = (u64, u64, u64) -> (u64, bool)

  // What a run of calls admits, each call writing back its tokens and its time.
  function Admissions(step: Step, tokens: u64, lastNs: u64, times: seq<u64>): (r: seq<bool>)
    ensures |r| == |times|
    decreases |times|
  {
    if times == [] then []
    else
      var (left, admitted) := step(tokens, lastNs, times[0]);
      [admitted] + Admissions(step, left, times[0], times[1..])
  }

  function CountTrue(flags: seq<bool>): nat {
    if flags == [] then 0 else (if flags[0] then 1 else 0) + CountTrue(flags[1..])
  }

  predicate ClockAdvances(times: seq<u64>) {
    && (forall i :: 0 <= i < |times| ==> times[i] > 0)
    && (forall i, j :: 0 <= i < j < |times| ==> times[i] <= times[j])
  }

  // Tokens left plus the one taken: what the bucket held when the call looked.
  function Available(step: Step, tokens: u64, lastNs: u64, nowNs: u64): nat {
    step(tokens, lastNs, nowNs).0 + (if step(tokens, lastNs, nowNs).1 then 1 else 0)
  }

  // No call finds more than a full bucket, nor more than was left plus the whole ticks since.
  ghost predicate RefillBounded(step: Step, rate: nat, cap: nat) {
    forall tokens: u64, lastNs: u64, nowNs: u64 | lastNs <= nowNs ::
      && Available(step, tokens, lastNs, nowNs) <= cap
      && (lastNs > 0 ==> Available(step, tokens, lastNs, nowNs) <= tokens + (nowNs - lastNs) / TICK_NS * rate)
  }

  lemma FloorsAdd(a: nat, b: nat, rate: nat)
    ensures a / TICK_NS * rate + b / TICK_NS * rate <= (a + b) / TICK_NS * rate
  {
    assert a / TICK_NS + b / TICK_NS <= (a + b) / TICK_NS;
    MulMonotone(a / TICK_NS + b / TICK_NS, (a + b) / TICK_NS, rate);
    assert (a / TICK_NS + b / TICK_NS) * rate == a / TICK_NS * rate + b / TICK_NS * rate;
  }

  // Potential argument: what is admitted was either in the bucket or refilled since.
  lemma {:induction false} AdmittedFromBucket(step: Step, tokens: u64, lastNs: u64, times: seq<u64>, rate: nat,
                                              cap: nat)
    requires RefillBounded(step, rate, cap) && lastNs > 0
    requires times != [] && ClockAdvances(times) && lastNs <= times[0]
    ensures CountTrue(Admissions(step, tokens, lastNs, times))
         <= tokens + (times[|times| - 1] - lastNs) / TICK_NS * rate
    decreases |times|
  {
    assert Available(step, tokens, lastNs, times[0]) <= tokens + (times[0] - lastNs) / TICK_NS * rate;
    var left := step(tokens, lastNs, times[0]).0;
    var rest := times[1..];
    assert Admissions(step, tokens, lastNs, times)[1..] == Admissions(step, left, times[0], rest);
    if rest != [] {
      AdmittedFromBucket(step, left, times[0], rest, rate, cap);
      FloorsAdd(times[0] - lastNs, times[|times| - 1] - times[0], rate);
    }
  }

  lemma {:induction false} AdmittedFromAnyState(step: Step, tokens: u64, lastNs: u64, times: seq<u64>, rate: nat,
                                                cap: nat)
    requires RefillBounded(step, rate, cap)
    requires times != [] && ClockAdvances(times) && lastNs <= times[0]
    ensures CountTrue(Admissions(step, tokens, lastNs, times))
         <= cap + (times[|times| - 1] - times[0]) / TICK_NS * rate
  {
    assert Available(step, tokens, lastNs, times[0]) <= cap;
    var left := step(tokens, lastNs, times[0]).0;
    var rest := times[1..];
    assert Admissions(step, tokens, lastNs, times)[1..] == Admissions(step, left, times[0], rest);
    if rest != [] {
      AdmittedFromBucket(step, left, times[0], rest, rate, cap);
    }
  }

  // A later part of a run is a run of its own from the state then reached.
  lemma {:induction false} TailOfRun(step: Step, tokens: u64, lastNs: u64, times: seq<u64>, i: nat)
    returns (midTokens: u64, midLast: u64)
    requires i <= |times|
    ensures Admissions(step, tokens, lastNs, times)[i..] == Admissions(step, midTokens, midLast, times[i..])
    ensures midLast == if i == 0 then lastNs else times[i - 1]
    decreases |times|
  {
    if i == 0 {
      midTokens, midLast := tokens, lastNs;
      assert times[0..] == times;
    } else {
      midTokens, midLast := TailOfRun(step, step(tokens, lastNs, times[0]).0, times[0], times[1..], i - 1);
      assert times[1..][i - 1..] == times[i..];
    }
  }

  lemma {:induction false} HeadOfRun(step: Step, tokens: u64, lastNs: u64, times: seq<u64>, j: nat)
    requires j <= |times|
    ensures Admissions(step, tokens, lastNs, times)[..j] == Admissions(step, tokens, lastNs, times[..j])
    decreases |times|
  {
    if j > 0 {
      HeadOfRun(step, step(tokens, lastNs, times[0]).0, times[0], times[1..], j - 1);
      assert times[..j][1..] == times[1..][..j - 1];
    }
  }

  lemma WindowOfRun(step: Step, tokens: u64, lastNs: u64, times: seq<u64>, i: nat, j: nat)
    returns (midTokens: u64, midLast: u64)
    requires i <= j <= |times|
    ensures Admissions(step, tokens, lastNs, times)[i..j] == Admissions(step, midTokens, midLast, times[i..j])
    ensures midLast == if i == 0 then lastNs else times[i - 1]
  {
    midTokens, midLast := TailOfRun(step, tokens, lastNs, times, i);
    assert times[i..][..j - i] == times[i..j];
    HeadOfRun(step, midTokens, midLast, times[i..], j - i);
    var flags := Admissions(step, tokens, lastNs, times);
    assert flags[i..j] == flags[i..][..j - i];
  }

  lemma {:induction false} BoundedWindow(step: Step, tokens: u64, lastNs: u64, times: seq<u64>, rate: nat, cap: nat,
                                         i: nat, j: nat)
    requires RefillBounded(step, rate, cap) && i < j <= |times| && ClockAdvances(times) && lastNs <= times[0]
    ensures CountTrue(Admissions(step, tokens, lastNs, times)[i..j])
         <= cap + (times[j - 1] - times[i]) / TICK_NS * rate
  {
    hide Admissions, CountTrue, RefillBounded;
    var midTokens, midLast := WindowOfRun(step, tokens, lastNs, times, i, j);
    var window := times[i..j];
    assert window[0] == times[i] && window[|window| - 1] == times[j - 1];
    AdmittedFromAnyState(step, midTokens, midLast, times[i..j], rate, cap);
  }

  lemma ClampAtMost(tokens: u64, ticks: nat, maxTicks: nat, rate: nat)
    ensures var clamped := if ticks > maxTicks then maxTicks else ticks;
            (clamped * rate) % U64_RANGE <= ticks * rate
  {
  }

  lemma BucketIsBounded(rate: u64, burst: u64)
    requires rate > 0
    ensures RefillBounded((t, l, n) => TokenBucketStep(t, l, n, rate, burst), rate, if burst == 0 then 1 else burst)
  {
    var cap: u64 := if burst == 0 then 1 else burst;
    forall tokens: u64, lastNs: u64, nowNs: u64 | lastNs <= nowNs && lastNs > 0
      ensures Refilled(tokens, lastNs, nowNs, rate, cap) <= tokens + (nowNs - lastNs) / TICK_NS * rate
    {
      ClampAtMost(tokens, Elapsed(lastNs, nowNs) / TICK_NS, (cap / rate + 1) % U64_RANGE, rate);
    }
  }

  /**
    Over any run with an advancing clock, every window of consecutive calls admits at
    most one bucket plus what the ticks inside the window refill, whatever the bucket
    held at the start and whether or not the arithmetic wraps.
   */
  lemma WindowAdmitsAtMost(tokens: u64, lastNs: u64, times: seq<u64>, rate: u64, burst: u64, i: nat, j: nat)
    requires rate > 0 && i < j <= |times| && ClockAdvances(times) && lastNs <= times[0]
    ensures CountTrue(Admissions((t, l, n) => TokenBucketStep(t, l, n, rate, burst), tokens, lastNs, times)[i..j])
         <= (if burst == 0 then 1 else burst) + (times[j - 1] - times[i]) / TICK_NS * rate
  {
    BucketIsBounded(rate, burst);
    BoundedWindow((t, l, n) => TokenBucketStep(t, l, n, rate, burst), tokens, lastNs, times, rate,
                  if burst == 0 then 1 else burst, i, j);
  }

  // No call finds fewer tokens than were left, and none leaves a full bucket.
  ghost predicate KeepsTokens(step: Step, cap: nat) {
    forall tokens: u64, lastNs: u64, nowNs: u64 | tokens <= cap ::
      && step(tokens, lastNs, nowNs).0 < cap
      && (tokens >= 1 ==> step(tokens, lastNs, nowNs).1 && step(tokens, lastNs, nowNs).0 >= tokens - 1)
  }

  lemma {:induction false} TokensAreAdmitted(step: Step, cap: nat, tokens: u64, lastNs: u64, times: seq<u64>, i: nat)
    requires KeepsTokens(step, cap) && |times| <= tokens <= cap && i < |times|
    ensures Admissions(step, tokens, lastNs, times)[i]
    decreases |times|
  {
    if i > 0 {
      TokensAreAdmitted(step, cap, step(tokens, lastNs, times[0]).0, times[0], times[1..], i - 1);
    }
  }

  lemma BucketKeepsTokens(rate: u64, burst: u64)
    ensures KeepsTokens((t, l, n) => TokenBucketStep(t, l, n, rate, burst), if burst == 0 then 1 else burst)
  {
  }

  lemma {:induction false} FirstCallFindsFullBucket(step: Step, cap: nat, tokens: u64, times: seq<u64>, i: nat)
    requires KeepsTokens(step, cap) && |times| <= cap && i < |times|
    requires forall t: u64, now: u64 :: step(t, 0, now) == (cap - 1, true)
    ensures Admissions(step, tokens, 0, times)[i]
  {
    if i > 0 {
      TokensAreAdmitted(step, cap, step(tokens, 0, times[0]).0, times[0], times[1..], i - 1);
    }
  }

  /**
    A fresh bucket admits a whole burst: its first calls, as many as it holds, all pass, whatever
    their times and whether or not the refill wraps.
   */
  lemma FirstBurstIsAdmitted(tokens: u64, times: seq<u64>, rate: u64, burst: u64, i: nat)
    requires |times| <= (if burst == 0 then 1 else burst) && i < |times|
    ensures Admissions((t, l, n) => TokenBucketStep(t, l, n, rate, burst), tokens, 0, times)[i]
  {
    BucketKeepsTokens(rate, burst);
    FirstCallFindsFullBucket((t, l, n) => TokenBucketStep(t, l, n, rate, burst), if burst == 0 then 1 else burst,
                             tokens, times, i);
  }

  // ---------------------------------------------------------------- histogram slots

  const HIST_SLOTS: nat := 32

  function Pow2(n: nat): (r: nat)
    ensures r > 0
  {
    if n == 0 then 1 else 2 * Pow2(n - 1)
  }

  // Number of significant bits; the source counts the leading zeros of the 64-bit word.
  function BitLength(x: nat): nat {
    if x == 0 then 0 else 1 + BitLength(x / 2)
  }

  function HistSlot(micros: u64): nat {
    if micros == 0 then 0
    else
      var leadingZeros := 64 - BitLength(micros);
      var index := 63 - leadingZeros;
      if index >= HIST_SLOTS then HIST_SLOTS - 1 else index
  }

  lemma {:induction false} BitLengthBrackets(x: nat)
    requires x > 0
    ensures BitLength(x) > 0
    ensures Pow2(BitLength(x) - 1) <= x < Pow2(BitLength(x))
  {
    if x > 1 {
      BitLengthBrackets(x / 2);
    } else {
      assert BitLength(1) == 1 + BitLength(0);
    }
  }

  lemma {:induction false} Pow2Increases(a: nat, b: nat)
    requires a < b
    ensures 2 * Pow2(a) <= Pow2(b)
  {
    if a + 1 < b {
      Pow2Increases(a, b - 1);
    }
  }

  lemma Pow2At32()
    ensures Pow2(32) == 0x1_0000_0000
  {
    assert Pow2(8) == 256;
    assert Pow2(16) == 65536;
    assert Pow2(24) == 0x100_0000;
  }

  /** A slot holds exactly the values from its lower bound up to twice that; the last one is open. */
  lemma HistSlotBrackets(micros: u64)
    ensures HistSlot(micros) < HIST_SLOTS
    ensures 1 <= micros < 0x1_0000_0000 ==> Pow2(HistSlot(micros)) <= micros < Pow2(HistSlot(micros) + 1)
    ensures micros >= 0x1_0000_0000 ==> HistSlot(micros) == HIST_SLOTS - 1
  {
    if micros > 0 {
      BitLengthBrackets(micros);
      Pow2At32();
      var n := BitLength(micros);
      if n > 32 && micros < 0x1_0000_0000 {
        if n - 1 > 32 { Pow2Increases(32, n - 1); }
        assert false;
      }
      if n <= 32 && micros >= 0x1_0000_0000 {
        if n < 32 { Pow2Increases(n, 32); }
        assert false;
      }
    }
  }

  lemma HistSlotMonotone(a: u64, b: u64)
    requires a <= b
    ensures HistSlot(a) <= HistSlot(b)
  {
    if a > 0 {
      BitLengthBrackets(a);
      BitLengthBrackets(b);
      if BitLength(a) > BitLength(b) {
        if BitLength(a) - 1 > BitLength(b) { Pow2Increases(BitLength(b), BitLength(a) - 1); }
        assert false;
      }
    }
  }
}
