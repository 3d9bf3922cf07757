/**
  Trace summaries (crates/dataplane-apm/src/accumulator.rs): spans fold into
  in-memory deltas, a flush merges each delta into the stored row by reading it
  back. Whatever the batching, a row sums up exactly the spans that reached it.
 */
module TraceSummary {
  import opened Wrappers
  import opened Spans

  const I64_MAX: int := 0x7FFF_FFFF_FFFF_FFFF
  const U32_MAX: nat := 0xFFFF_FFFF

  // What a delta starts from once it was flushed or reloaded: the written code takes the
  // default (0), a delta created by a span starts at the largest time.
  datatype ResetPolicy = AsWritten | AsIntended

  datatype Root = Root(start: int, service: string, operation: string)
  datatype Delta = Delta(start: int, maxEnd: int, spans: nat, errors: nat, services: set<string>,
                         root: Option<Root>, collector: string)
  // `root.start == 0` means no root was seen.
  datatype Row = Row(start: int, maxEnd: int, duration: int, root: Root, spans: nat, errors: nat, status: string,
                     services: set<string>, collector: string)

  // What the columns of a missing row read as.
  const NO_ROW := Row(0, 0, 0, Root(0, "", ""), 0, 0, "", {}, "")

  function Min(a: int, b: int): int { if a <= b then a else b }

  function Max(a: int, b: int): int { if a >= b then a else b }

  function SaturatingAdd(a: nat, b: nat): nat {
    if a + b > U32_MAX then U32_MAX else a + b
  }

  function End(span: Span): int { span.timestamp + span.duration }

  function RootOf(span: Span): Root { Root(span.timestamp, span.service, span.name) }

  // Ingest rejects timestamps that are not positive; ends must not overflow.
  predicate ValidSpan(span: Span) {
    0 < span.timestamp < I64_MAX && End(span) <= I64_MAX
  }

  function NewDelta(span: Span): Delta {
    Delta(I64_MAX, 0, 0, 0, {}, None, span.collector)
  }

  function ResetDelta(policy: ResetPolicy): Delta {
    Delta(if policy.AsWritten? then 0 else I64_MAX, 0, 0, 0, {}, None, "")
  }

  predicate IsEmpty(d: Delta) { d.spans == 0 }

  function ObserveDelta(d: Delta, span: Span): Delta {
    Delta(Min(d.start, span.timestamp), Max(d.maxEnd, End(span)), SaturatingAdd(d.spans, 1),
          if span.IsError() then SaturatingAdd(d.errors, 1) else d.errors,
          d.services + {span.service},
          if !span.IsRoot() then d.root
          else if d.root.Some? && d.root.value.start <= span.timestamp then d.root
          else Some(RootOf(span)),
          if span.collector != "" then span.collector else d.collector)
  }

  function MergeRoot(root: Root, candidate: Option<Root>): Root {
    if candidate.Some? && (root.start == 0 || candidate.value.start < root.start) then candidate.value else root
  }

  function Merge(row: Row, d: Delta): Row {
    var deltaStart := if d.start == I64_MAX then row.start else d.start;
    var start := if row.spans == 0 && row.start == 0 then deltaStart else Min(row.start, deltaStart);
    var maxEnd := Max(row.maxEnd, d.maxEnd);
    var errors := SaturatingAdd(row.errors, d.errors);
    Row(start, maxEnd, Max(0, maxEnd - start), MergeRoot(row.root, d.root), SaturatingAdd(row.spans, d.spans), errors,
        if errors > 0 then "error" else "ok", row.services + d.services,
        if d.collector != "" then d.collector else row.collector)
  }

  // ---------------------------------------------------------------- what a summary of spans is

  function Capped(n: nat): nat { if n > U32_MAX then U32_MAX else n }

  function ErrorCount(s: seq<Span>): nat {
    if s == [] then 0 else ErrorCount(s[..|s| - 1]) + if s[|s| - 1].IsError() then 1 else 0
  }

  ghost predicate IsEarliest(v: int, s: seq<Span>) {
    (forall x | x in s :: v <= x.timestamp) && (exists x | x in s :: x.timestamp == v)
  }

  ghost predicate IsLatestEnd(v: int, s: seq<Span>) {
    (forall x | x in s :: End(x) <= v) && if s == [] then v == 0 else exists x | x in s :: End(x) == v
  }

  ghost function ServicesOf(s: seq<Span>): set<string> {
    set x | x in s :: x.service
  }

  // The root at `i` starts first; among those starting together it arrived first.
  ghost predicate FirstRootAt(s: seq<Span>, i: nat) {
    && i < |s| && s[i].IsRoot()
    && (forall j | 0 <= j < |s| && s[j].IsRoot() :: s[i].timestamp <= s[j].timestamp)
    && (forall j | 0 <= j < i && s[j].IsRoot() :: s[i].timestamp < s[j].timestamp)
  }

  ghost predicate IsFirstRoot(r: Option<Root>, s: seq<Span>) {
    match r
    case None => forall x | x in s :: !x.IsRoot()
    case Some(root) => exists i: nat :: FirstRootAt(s, i) && RootOf(s[i]) == root
  }

  ghost predicate LastCollectorAt(s: seq<Span>, i: nat) {
    i < |s| && s[i].collector != "" && forall j | i < j < |s| :: s[j].collector == ""
  }

  ghost predicate IsLastCollector(c: string, s: seq<Span>) {
    if c == "" then forall x | x in s :: x.collector == ""
    else exists i: nat :: LastCollectorAt(s, i) && s[i].collector == c
  }

  // `late`: some of the spans arrived at an entry that had been reset or reloaded.
  ghost predicate StartIs(policy: ResetPolicy, v: int, s: seq<Span>, late: bool) {
    if policy.AsWritten? && late then v == 0 else IsEarliest(v, s)
  }

  // Everything a summary says besides its start.
  datatype Facts = Facts(maxEnd: int, spans: nat, errors: nat, services: set<string>, root: Option<Root>,
                         collector: string)

  ghost predicate FactsSum(f: Facts, s: seq<Span>) {
    && IsLatestEnd(f.maxEnd, s)
    && f.spans == Capped(|s|) && f.errors == Capped(ErrorCount(s))
    && f.services == ServicesOf(s)
    && IsFirstRoot(f.root, s) && IsLastCollector(f.collector, s)
  }

  function DeltaFacts(d: Delta): Facts {
    Facts(d.maxEnd, d.spans, d.errors, d.services, d.root, d.collector)
  }

  function RowFacts(row: Row): Facts {
    Facts(row.maxEnd, row.spans, row.errors, row.services, if row.root.start == 0 then None else Some(row.root),
          row.collector)
  }

  ghost predicate DeltaSums(policy: ResetPolicy, d: Delta, s: seq<Span>, late: bool) {
    && (if s == [] then d.start == ResetDelta(policy).start else StartIs(policy, d.start, s, late))
    && FactsSum(DeltaFacts(d), s)
  }

  /** `row` is the summary of the nonempty list `s`. */
  ghost predicate RowSums(policy: ResetPolicy, row: Row, s: seq<Span>, late: bool) {
    && StartIs(policy, row.start, s, late) && row.duration == Max(0, row.maxEnd - row.start)
    && FactsSum(RowFacts(row), s)
    && row.status == (if ErrorCount(s) > 0 then "error" else "ok")
    && (row.root.start == 0 ==> row.root == NO_ROW.root)
  }

  ghost predicate AllValid(s: seq<Span>) {
    forall x | x in s :: ValidSpan(x)
  }

  // ---------------------------------------------------------------- summaries of concatenations

  lemma EarliestJoins(v: int, a: seq<Span>, w: int, b: seq<Span>)
    requires IsEarliest(v, a) && IsEarliest(w, b)
    ensures IsEarliest(Min(v, w), a + b)
  {
  }

  lemma LatestEndJoins(v: int, a: seq<Span>, w: int, b: seq<Span>)
    requires IsLatestEnd(v, a) && IsLatestEnd(w, b) && AllValid(a) && AllValid(b)
    ensures IsLatestEnd(Max(v, w), a + b)
  {
  }

  lemma {:induction false} ErrorsJoin(a: seq<Span>, b: seq<Span>)
    ensures ErrorCount(a + b) == ErrorCount(a) + ErrorCount(b)
    decreases |b|
  {
    if b == [] {
      assert a + b == a;
    } else {
      ErrorsJoin(a, b[..|b| - 1]);
      assert (a + b)[..|a + b| - 1] == a + b[..|b| - 1];
    }
  }

  function JoinRoots(r: Option<Root>, q: Option<Root>): Option<Root> {
    if q.Some? && (r.None? || q.value.start < r.value.start) then q else r
  }

  lemma FirstRootStays(a: seq<Span>, i: nat, q: Option<Root>, b: seq<Span>)
    requires FirstRootAt(a, i) && IsFirstRoot(q, b) && (q.Some? ==> a[i].timestamp <= q.value.start)
    ensures FirstRootAt(a + b, i)
  {
  }

  lemma FirstRootMoves(r: Option<Root>, a: seq<Span>, b: seq<Span>, i: nat)
    requires IsFirstRoot(r, a) && FirstRootAt(b, i) && (r.Some? ==> b[i].timestamp < r.value.start)
    ensures FirstRootAt(a + b, |a| + i)
  {
  }

  lemma FirstRootJoins(r: Option<Root>, a: seq<Span>, q: Option<Root>, b: seq<Span>)
    requires IsFirstRoot(r, a) && IsFirstRoot(q, b)
    ensures IsFirstRoot(JoinRoots(r, q), a + b)
  {
    if JoinRoots(r, q) == r {
      if r.Some? {
        var i: nat :| FirstRootAt(a, i) && RootOf(a[i]) == r.value;
        FirstRootStays(a, i, q, b);
        assert (a + b)[i] == a[i];
      }
    } else {
      var i: nat :| FirstRootAt(b, i) && RootOf(b[i]) == q.value;
      FirstRootMoves(r, a, b, i);
      assert (a + b)[|a| + i] == b[i];
    }
  }

  lemma LastCollectorJoins(c: string, a: seq<Span>, d: string, b: seq<Span>)
    requires IsLastCollector(c, a) && IsLastCollector(d, b)
    ensures IsLastCollector(if d != "" then d else c, a + b)
  {
    var s := a + b;
    if d != "" {
      var i: nat :| LastCollectorAt(b, i) && b[i].collector == d;
      assert LastCollectorAt(s, |a| + i) && s[|a| + i].collector == d;
    } else if c != "" {
      var i: nat :| LastCollectorAt(a, i) && a[i].collector == c;
      forall j | i < j < |s| ensures s[j].collector == "" {
        if j >= |a| { assert s[j] in b; }
      }
      assert LastCollectorAt(s, i) && s[i].collector == c;
    }
  }

  function JoinFacts(f: Facts, g: Facts): Facts {
    Facts(Max(f.maxEnd, g.maxEnd), SaturatingAdd(f.spans, g.spans), SaturatingAdd(f.errors, g.errors),
          f.services + g.services, JoinRoots(f.root, g.root), if g.collector != "" then g.collector else f.collector)
  }

  lemma ServicesJoin(a: seq<Span>, b: seq<Span>)
    ensures ServicesOf(a + b) == ServicesOf(a) + ServicesOf(b)
  {
  }

  lemma FactsJoin(f: Facts, a: seq<Span>, g: Facts, b: seq<Span>)
    requires FactsSum(f, a) && FactsSum(g, b) && AllValid(a) && AllValid(b)
    ensures FactsSum(JoinFacts(f, g), a + b)
  {
    LatestEndJoins(f.maxEnd, a, g.maxEnd, b);
    ErrorsJoin(a, b);
    ServicesJoin(a, b);
    FirstRootJoins(f.root, a, g.root, b);
    LastCollectorJoins(f.collector, a, g.collector, b);
  }

  function FactsOf(span: Span): Facts {
    Facts(End(span), 1, if span.IsError() then 1 else 0, {span.service},
          if span.IsRoot() then Some(RootOf(span)) else None, span.collector)
  }

  lemma SingleSums(span: Span)
    requires ValidSpan(span)
    ensures IsEarliest(span.timestamp, [span]) && FactsSum(FactsOf(span), [span])
  {
  }

  // The delta of one span, as a first span of a trace makes it.
  lemma FirstSpanSums(policy: ResetPolicy, span: Span)
    requires ValidSpan(span)
    ensures DeltaSums(policy, ObserveDelta(NewDelta(span), span), [span], false)
  {
  }

  lemma ObserveFacts(d: Delta, span: Span)
    requires d.errors <= U32_MAX
    ensures DeltaFacts(ObserveDelta(d, span)) == JoinFacts(DeltaFacts(d), FactsOf(span))
    ensures ObserveDelta(d, span).start == Min(d.start, span.timestamp)
  {
  }

  lemma ObserveSums(policy: ResetPolicy, d: Delta, s: seq<Span>, late: bool, span: Span)
    requires DeltaSums(policy, d, s, late) && AllValid(s) && ValidSpan(span)
    ensures DeltaSums(policy, ObserveDelta(d, span), s + [span], if s == [] then true else late)
  {
    SingleSums(span);
    FactsJoin(DeltaFacts(d), s, FactsOf(span), [span]);
    ObserveFacts(d, span);
    ObserveStart(policy, d.start, s, late, span);
  }

  lemma ObserveStart(policy: ResetPolicy, v: int, s: seq<Span>, late: bool, span: Span)
    requires ValidSpan(span)
    requires if s == [] then v == ResetDelta(policy).start else StartIs(policy, v, s, late)
    ensures StartIs(policy, Min(v, span.timestamp), s + [span], if s == [] then true else late)
  {
  }

  // A row that may be missing: then no span was stored.
  ghost predicate RowSumsAny(policy: ResetPolicy, row: Row, s: seq<Span>, late: bool) {
    if s == [] then row == NO_ROW && !late else RowSums(policy, row, s, late)
  }

  lemma MergeStart(policy: ResetPolicy, row: Row, a: seq<Span>, la: bool, d: Delta, b: seq<Span>, lb: bool)
    requires RowSumsAny(policy, row, a, la) && DeltaSums(policy, d, b, lb) && b != [] && AllValid(a) && AllValid(b)
    ensures StartIs(policy, Merge(row, d).start, a + b, la || lb)
  {
    if !(policy.AsWritten? && lb) {
      var x :| x in b && x.timestamp == d.start;
      assert ValidSpan(x);
    }
    if a == [] {
      assert a + b == b;
    } else if !(policy.AsWritten? && (la || lb)) {
      EarliestJoins(row.start, a, d.start, b);
    } else {
      StartBounds(policy, row.start, a, la);
      StartBounds(policy, d.start, b, lb);
    }
  }

  lemma StartBounds(policy: ResetPolicy, v: int, s: seq<Span>, late: bool)
    requires StartIs(policy, v, s, late) && AllValid(s)
    ensures 0 <= v < I64_MAX
  {
  }

  lemma RootStartsPositive(r: Option<Root>, s: seq<Span>)
    requires IsFirstRoot(r, s) && AllValid(s)
    ensures r.Some? ==> r.value.start > 0
  {
    if r.Some? {
      var i: nat :| FirstRootAt(s, i) && RootOf(s[i]) == r.value;
      assert ValidSpan(s[i]);
    }
  }

  lemma NothingSums(row: Row)
    requires row == NO_ROW
    ensures FactsSum(RowFacts(row), [])
  {
  }

  lemma MergeFacts(row: Row, d: Delta)
    requires d.root.Some? ==> d.root.value.start > 0
    ensures RowFacts(Merge(row, d)) == JoinFacts(RowFacts(row), DeltaFacts(d))
    ensures row.root.start == 0 && row.root == NO_ROW.root && Merge(row, d).root.start == 0
            ==> Merge(row, d).root == NO_ROW.root
  {
  }

  lemma MergeSums(policy: ResetPolicy, row: Row, a: seq<Span>, la: bool, d: Delta, b: seq<Span>, lb: bool)
    requires RowSumsAny(policy, row, a, la) && DeltaSums(policy, d, b, lb) && b != [] && AllValid(a) && AllValid(b)
    ensures RowSums(policy, Merge(row, d), a + b, la || lb)
  {
    hide IsLatestEnd, IsFirstRoot, IsLastCollector, ServicesOf, StartIs;
    MergeStart(policy, row, a, la, d, b, lb);
    if a == [] { NothingSums(row); }
    RootStartsPositive(d.root, b);
    FactsJoin(RowFacts(row), a, DeltaFacts(d), b);
    ErrorsJoin(a, b);
    MergeFacts(row, d);
  }

  // ---------------------------------------------------------------- runs

  datatype Op =
    | Observed(span: Span)
    | Taken
    | WriteDone(traceId: string, ok: bool)
    | Evicted(victims: set<string>)
    | Reloaded(since: int)
    | Crashed

  // Deltas in memory, the batch a flush is writing, and the stored rows.
  datatype Machine = Machine(deltas: map<string, Delta>, flying: map<string, Delta>, rows: map<string, Row>)

  const INITIAL := Machine(map[], map[], map[])

  function RowAt(rows: map<string, Row>, t: string): Row {
    if t in rows then rows[t] else NO_ROW
  }

  function AfterSpan(deltas: map<string, Delta>, span: Span): map<string, Delta> {
    deltas[span.traceId := ObserveDelta(if span.traceId in deltas then deltas[span.traceId] else NewDelta(span), span)]
  }

  function AfterTaking(policy: ResetPolicy, deltas: map<string, Delta>): map<string, Delta> {
    map t | t in deltas :: if IsEmpty(deltas[t]) then deltas[t] else ResetDelta(policy)
  }

  function Batch(deltas: map<string, Delta>): map<string, Delta> {
    map t | t in deltas && !IsEmpty(deltas[t]) :: deltas[t]
  }

  function Recent(rows: map<string, Row>, since: int): set<string> {
    set t | t in rows && rows[t].maxEnd > since
  }

  // Traces still written to after `since` are registered again, with nothing pending.
  function AfterReload(policy: ResetPolicy, deltas: map<string, Delta>, recent: set<string>): map<string, Delta> {
    map t | t in deltas.Keys + recent :: if t in deltas then deltas[t] else ResetDelta(policy)
  }

  // Every trace of the batch merged into its row, where the store accepts the write.
  function AfterWrites(rows: map<string, Row>, batch: map<string, Delta>, stored: string -> bool): map<string, Row> {
    map t | t in rows.Keys + batch.Keys && (t in rows || stored(t)) ::
      if t in batch && stored(t) then Merge(RowAt(rows, t), batch[t]) else RowAt(rows, t)
  }

  function Stored(traces: set<string>, stored: string -> bool): set<string> {
    set t | t in traces && stored(t)
  }

  function Only(batch: map<string, Delta>, some: set<string>): map<string, Delta> {
    map t | t in some && t in batch :: batch[t]
  }

  function CleanOf(deltas: map<string, Delta>): set<string> {
    set t | t in deltas && IsEmpty(deltas[t])
  }

  function Apply(policy: ResetPolicy, m: Machine, op: Op): Machine {
    match op
    case Observed(span) => m.(deltas := AfterSpan(m.deltas, span))
    case Taken => m.(deltas := AfterTaking(policy, m.deltas), flying := Batch(m.deltas))
    case WriteDone(t, ok) =>
      if t !in m.flying then m
      else m.(flying := m.flying - {t},
              rows := if ok then m.rows[t := Merge(RowAt(m.rows, t), m.flying[t])] else m.rows)
    case Evicted(victims) => m.(deltas := m.deltas - victims)
    case Reloaded(since) => m.(deltas := AfterReload(policy, m.deltas, Recent(m.rows, since)))
    case Crashed => m.(deltas := map[], flying := map[])
  }

  function RunFrom(policy: ResetPolicy, m: Machine, ops: seq<Op>): Machine {
    if ops == [] then m else Apply(policy, RunFrom(policy, m, ops[..|ops| - 1]), ops[|ops| - 1])
  }

  function Run(policy: ResetPolicy, ops: seq<Op>): Machine {
    RunFrom(policy, INITIAL, ops)
  }

  // Spans pass validation, one flush runs at a time, and only clean entries are evicted.
  predicate ValidStep(m: Machine, op: Op) {
    match op
    case Observed(span) => ValidSpan(span)
    case Taken => m.flying == map[]
    case Evicted(victims) => forall t | t in victims && t in m.deltas :: IsEmpty(m.deltas[t])
    case _ => true
  }

  predicate ValidFrom(policy: ResetPolicy, m: Machine, ops: seq<Op>) {
    ops == [] || (ValidFrom(policy, m, ops[..|ops| - 1])
                  && ValidStep(RunFrom(policy, m, ops[..|ops| - 1]), ops[|ops| - 1]))
  }

  predicate ValidRun(policy: ResetPolicy, ops: seq<Op>) {
    ValidFrom(policy, INITIAL, ops)
  }

  lemma {:induction false} RunSnoc(policy: ResetPolicy, m: Machine, ops: seq<Op>, op: Op)
    ensures RunFrom(policy, m, ops + [op]) == Apply(policy, RunFrom(policy, m, ops), op)
    ensures ValidFrom(policy, m, ops + [op]) <==> ValidFrom(policy, m, ops) && ValidStep(RunFrom(policy, m, ops), op)
  {
  }

  // ---------------------------------------------------------------- where the spans of one trace are

  // Spans stored, being written, pending and lost, in order of arrival; whether the trace has
  // an entry in memory; and which of the lists hold spans that met a reset or reloaded entry.
  datatype Trace = Trace(stored: seq<Span>, flying: seq<Span>, pending: seq<Span>, lost: seq<Span>, registered: bool,
                         lateStored: bool, lateFlying: bool, latePending: bool)
  {
    function Kept(): seq<Span> { stored + flying + pending }

    predicate Late() { lateStored || lateFlying || latePending }
  }

  const UNSEEN := Trace([], [], [], [], false, false, false, false)

  ghost function Follow(k: Trace, t: string, op: Op): Trace {
    match op
    case Observed(span) =>
      if span.traceId != t then k
      else k.(pending := k.pending + [span], registered := true,
              latePending := if k.pending == [] then k.registered else k.latePending)
    case Taken =>
      if k.pending == [] then k
      else k.(flying := k.pending, pending := [], lateFlying := k.latePending, latePending := false)
    case WriteDone(u, ok) =>
      if u != t || k.flying == [] then k
      else if ok then k.(stored := k.stored + k.flying, flying := [], lateStored := k.lateStored || k.lateFlying,
                         lateFlying := false)
      else k.(lost := k.lost + k.flying, flying := [], lateFlying := false)
    case Evicted(victims) => if t in victims then k.(registered := false) else k
    case Reloaded(since) => if exists x | x in k.stored :: End(x) > since then k.(registered := true) else k
    case Crashed =>
      k.(lost := k.lost + k.flying + k.pending, flying := [], pending := [], registered := false, lateFlying := false,
         latePending := false)
  }

  ghost function TraceOf(ops: seq<Op>, t: string): Trace {
    if ops == [] then UNSEEN else Follow(TraceOf(ops[..|ops| - 1], t), t, ops[|ops| - 1])
  }

  function SpansOf(ops: seq<Op>, t: string): seq<Span> {
    if ops == [] then []
    else
      var before, op := SpansOf(ops[..|ops| - 1], t), ops[|ops| - 1];
      if op.Observed? && op.span.traceId == t then before + [op.span] else before
  }

  ghost predicate DeltasAgree(policy: ResetPolicy, m: Machine, k: Trace, t: string) {
    && (t in m.deltas <==> k.registered)
    && (t in m.deltas ==> DeltaSums(policy, m.deltas[t], k.pending, k.latePending))
    && (!k.registered ==> k.pending == [])
    && AllValid(k.pending) && (k.pending == [] ==> !k.latePending)
  }

  ghost predicate FlyingAgrees(policy: ResetPolicy, m: Machine, k: Trace, t: string) {
    && (t in m.flying <==> k.flying != [])
    && (t in m.flying ==> DeltaSums(policy, m.flying[t], k.flying, k.lateFlying))
    && AllValid(k.flying) && (k.flying == [] ==> !k.lateFlying)
  }

  ghost predicate RowAgrees(policy: ResetPolicy, m: Machine, k: Trace, t: string) {
    && (t in m.rows <==> k.stored != [])
    && RowSumsAny(policy, RowAt(m.rows, t), k.stored, k.lateStored)
    && AllValid(k.stored)
  }

  ghost predicate Agrees(policy: ResetPolicy, m: Machine, k: Trace, t: string) {
    DeltasAgree(policy, m, k, t) && FlyingAgrees(policy, m, k, t) && RowAgrees(policy, m, k, t)
  }

  lemma EmptyIff(policy: ResetPolicy, d: Delta, s: seq<Span>, late: bool)
    requires DeltaSums(policy, d, s, late)
    ensures IsEmpty(d) <==> s == []
  {
  }

  lemma ResetSums(policy: ResetPolicy)
    ensures DeltaSums(policy, ResetDelta(policy), [], false)
  {
  }

  lemma ObservedAgrees(policy: ResetPolicy, m: Machine, k: Trace, t: string, span: Span)
    requires DeltasAgree(policy, m, k, t) && ValidSpan(span)
    ensures DeltasAgree(policy, Apply(policy, m, Observed(span)), Follow(k, t, Observed(span)), t)
  {
    hide DeltaSums;
    if span.traceId == t {
      if t in m.deltas {
        ObserveSums(policy, m.deltas[t], k.pending, k.latePending, span);
      } else {
        FirstSpanSums(policy, span);
        assert [] + [span] == [span];
      }
    }
  }

  lemma TakenAgrees(policy: ResetPolicy, m: Machine, k: Trace, t: string)
    requires DeltasAgree(policy, m, k, t) && FlyingAgrees(policy, m, k, t) && m.flying == map[]
    ensures DeltasAgree(policy, Apply(policy, m, Taken), Follow(k, t, Taken), t)
    ensures FlyingAgrees(policy, Apply(policy, m, Taken), Follow(k, t, Taken), t)
  {
    if t in m.deltas { EmptyIff(policy, m.deltas[t], k.pending, k.latePending); }
    ResetSums(policy);
  }

  lemma WrittenAgrees(policy: ResetPolicy, m: Machine, k: Trace, t: string, u: string, ok: bool)
    requires FlyingAgrees(policy, m, k, t) && RowAgrees(policy, m, k, t)
    ensures FlyingAgrees(policy, Apply(policy, m, WriteDone(u, ok)), Follow(k, t, WriteDone(u, ok)), t)
    ensures RowAgrees(policy, Apply(policy, m, WriteDone(u, ok)), Follow(k, t, WriteDone(u, ok)), t)
  {
    hide DeltaSums, RowSums, Merge;
    if u == t && t in m.flying && ok {
      ValidConcat(k.stored, k.flying);
      MergeSums(policy, RowAt(m.rows, t), k.stored, k.lateStored, m.flying[t], k.flying, k.lateFlying);
    }
  }

  lemma ReloadedAgrees(policy: ResetPolicy, m: Machine, k: Trace, t: string, since: int)
    requires DeltasAgree(policy, m, k, t) && RowAgrees(policy, m, k, t)
    ensures DeltasAgree(policy, Apply(policy, m, Reloaded(since)), Follow(k, t, Reloaded(since)), t)
  {
    ResetSums(policy);
    if t in m.rows {
      assert IsLatestEnd(m.rows[t].maxEnd, k.stored);
    }
  }

  lemma EvictedAgrees(policy: ResetPolicy, m: Machine, k: Trace, t: string, victims: set<string>)
    requires DeltasAgree(policy, m, k, t) && ValidStep(m, Evicted(victims))
    ensures DeltasAgree(policy, Apply(policy, m, Evicted(victims)), Follow(k, t, Evicted(victims)), t)
  {
  }

  lemma DeltasFrame(policy: ResetPolicy, m: Machine, k: Trace, n: Machine, j: Trace, t: string)
    requires DeltasAgree(policy, m, k, t) && n.deltas == m.deltas
    requires j.pending == k.pending && j.registered == k.registered && j.latePending == k.latePending
    ensures DeltasAgree(policy, n, j, t)
  {
  }

  lemma FlyingFrame(policy: ResetPolicy, m: Machine, k: Trace, n: Machine, j: Trace, t: string)
    requires FlyingAgrees(policy, m, k, t) && n.flying == m.flying && j.flying == k.flying
             && j.lateFlying == k.lateFlying
    ensures FlyingAgrees(policy, n, j, t)
  {
  }

  lemma RowFrame(policy: ResetPolicy, m: Machine, k: Trace, n: Machine, j: Trace, t: string)
    requires RowAgrees(policy, m, k, t) && n.rows == m.rows && j.stored == k.stored && j.lateStored == k.lateStored
    ensures RowAgrees(policy, n, j, t)
  {
  }

  lemma CrashAgrees(policy: ResetPolicy, m: Machine, k: Trace, t: string)
    ensures DeltasAgree(policy, Apply(policy, m, Crashed), Follow(k, t, Crashed), t)
    ensures FlyingAgrees(policy, Apply(policy, m, Crashed), Follow(k, t, Crashed), t)
  {
  }

  lemma StepAgrees(policy: ResetPolicy, m: Machine, k: Trace, t: string, op: Op)
    requires Agrees(policy, m, k, t) && ValidStep(m, op)
    ensures Agrees(policy, Apply(policy, m, op), Follow(k, t, op), t)
  {
    hide DeltaSums, RowSumsAny, AllValid;
    var n, j := Apply(policy, m, op), Follow(k, t, op);
    if op.WriteDone? {
      DeltasFrame(policy, m, k, n, j, t);
      WrittenAgrees(policy, m, k, t, op.traceId, op.ok);
    } else {
      RowFrame(policy, m, k, n, j, t);
      if op.Taken? {
        TakenAgrees(policy, m, k, t);
      } else if op.Crashed? {
        CrashAgrees(policy, m, k, t);
      } else {
        FlyingFrame(policy, m, k, n, j, t);
        if op.Observed? {
          ObservedAgrees(policy, m, k, t, op.span);
        } else if op.Evicted? {
          EvictedAgrees(policy, m, k, t, op.victims);
        } else {
          ReloadedAgrees(policy, m, k, t, op.since);
        }
      }
    }
  }

  lemma {:induction false} RunAgrees(policy: ResetPolicy, ops: seq<Op>, t: string)
    requires ValidRun(policy, ops)
    ensures Agrees(policy, Run(policy, ops), TraceOf(ops, t), t)
  {
    if ops != [] {
      RunAgrees(policy, ops[..|ops| - 1], t);
      StepAgrees(policy, Run(policy, ops[..|ops| - 1]), TraceOf(ops[..|ops| - 1], t), t, ops[|ops| - 1]);
    }
  }

  // ---------------------------------------------------------------- main results

  // The row as it will be once everything in flight and pending has been written.
  function Settled(m: Machine, t: string): Row {
    var row := RowAt(m.rows, t);
    var written := if t in m.flying then Merge(row, m.flying[t]) else row;
    if t in m.deltas && !IsEmpty(m.deltas[t]) then Merge(written, m.deltas[t]) else written
  }

  /**
    In every run the stored row, merged with what is in flight and pending, is the summary
    of the spans kept, in order of arrival: saturating counts, latest end, services, last
    collector, and the earliest root, the first to arrive winning ties. Its start is the
    earliest one for the intended reset, and for the written one exactly when no span met a
    reset or reloaded entry; otherwise it is 0.
   */
  lemma {:induction false} SettledIsSummary(policy: ResetPolicy, ops: seq<Op>, t: string)
    requires ValidRun(policy, ops) && TraceOf(ops, t).Kept() != []
    ensures RowSums(policy, Settled(Run(policy, ops), t), TraceOf(ops, t).Kept(), TraceOf(ops, t).Late())
  {
    hide DeltaSums, RowSums, AllValid;
    RunAgrees(policy, ops, t);
    SettleSums(policy, Run(policy, ops), TraceOf(ops, t), t);
  }

  lemma SettleSums(policy: ResetPolicy, m: Machine, k: Trace, t: string)
    requires Agrees(policy, m, k, t) && k.Kept() != []
    ensures RowSums(policy, Settled(m, t), k.Kept(), k.Late())
  {
    hide DeltaSums, RowSums, AllValid, Merge;
    var row := RowAt(m.rows, t);
    if t in m.flying { MergeSums(policy, row, k.stored, k.lateStored, m.flying[t], k.flying, k.lateFlying); }
    var written := if t in m.flying then Merge(row, m.flying[t]) else row;
    assert k.flying == [] ==> k.stored + k.flying == k.stored;
    if t in m.deltas && k.pending != [] {
      ValidConcat(k.stored, k.flying);
      MergeSums(policy, written, k.stored + k.flying, k.lateStored || k.lateFlying, m.deltas[t], k.pending,
                k.latePending);
    }
    if t in m.deltas { EmptyIff(policy, m.deltas[t], k.pending, k.latePending); }
    assert k.pending == [] ==> k.Kept() == k.stored + k.flying;
  }

  // ---------------------------------------------------------------- the summary, field by field

  // The position of the spans that report an error, and of those that have no parent.
  ghost function ErrorsAt(s: seq<Span>): set<nat> {
    set i: nat | i < |s| && s[i].status == "error"
  }

  lemma {:induction false} ErrorsCounted(s: seq<Span>)
    ensures ErrorCount(s) == |ErrorsAt(s)|
  {
    if s != [] {
      var init, n := s[..|s| - 1], |s| - 1;
      ErrorsCounted(init);
      assert ErrorsAt(s) == ErrorsAt(init) + if s[n].status == "error" then {n} else {};
    }
  }

  // The parentless span at `i` starts before every other one, or with it and arrived first.
  ghost predicate LeadsTrace(s: seq<Span>, i: nat) {
    && i < |s| && s[i].parentSpanId == ""
    && forall j | 0 <= j < |s| && j != i && s[j].parentSpanId == "" ::
         s[i].timestamp < s[j].timestamp || (s[i].timestamp == s[j].timestamp && i < j)
  }

  // The root columns come from the leading span, or are empty when every span has a parent.
  ghost predicate RootInFields(root: Root, s: seq<Span>) {
    if exists x | x in s :: x.parentSpanId == ""
    then exists i: nat :: LeadsTrace(s, i) && root.start == s[i].timestamp && root.service == s[i].service
                          && root.operation == s[i].name
    else root.start == 0 && root.service == "" && root.operation == ""
  }

  ghost predicate EndInFields(row: Row, s: seq<Span>) {
    && (forall x | x in s :: x.timestamp + x.duration <= row.maxEnd)
    && (exists x | x in s :: x.timestamp + x.duration == row.maxEnd)
    && row.duration == if row.start < row.maxEnd then row.maxEnd - row.start else 0
  }

  ghost predicate CountsInFields(row: Row, s: seq<Span>) {
    && row.spans == (if |s| <= 0xFFFF_FFFF then |s| else 0xFFFF_FFFF)
    && row.errors == (if |ErrorsAt(s)| <= 0xFFFF_FFFF then |ErrorsAt(s)| else 0xFFFF_FFFF)
    && row.status == (if exists x | x in s :: x.status == "error" then "error" else "ok")
    && (forall name :: name in row.services <==> exists x | x in s :: x.service == name)
  }

  ghost predicate CollectorInFields(row: Row, s: seq<Span>) {
    if exists x | x in s :: x.collector != ""
    then exists i: nat ::
        i < |s| && s[i].collector == row.collector != "" && forall j | i < j < |s| :: s[j].collector == ""
    else row.collector == ""
  }

  ghost predicate StartInFields(policy: ResetPolicy, row: Row, s: seq<Span>, late: bool) {
    if policy.AsWritten? && late then row.start == 0
    else (forall x | x in s :: row.start <= x.timestamp) && exists x | x in s :: x.timestamp == row.start
  }

  lemma {:induction false} LeadsWhenFirst(s: seq<Span>, i: nat)
    requires FirstRootAt(s, i)
    ensures LeadsTrace(s, i)
  {
  }

  lemma {:induction false} RootSumsInFields(row: Row, s: seq<Span>)
    requires IsFirstRoot(RowFacts(row).root, s) && (row.root.start == 0 ==> row.root == NO_ROW.root)
    ensures RootInFields(row.root, s)
  {
    if row.root.start != 0 {
      var i: nat :| FirstRootAt(s, i) && RootOf(s[i]) == row.root;
      LeadsWhenFirst(s, i);
      assert s[i] in s;
    }
  }

  lemma {:induction false} CountsSumInFields(policy: ResetPolicy, row: Row, s: seq<Span>, late: bool)
    requires RowSums(policy, row, s, late)
    ensures CountsInFields(row, s)
  {
    ErrorsCounted(s);
    if exists x | x in s :: x.status == "error" {
      var x :| x in s && x.status == "error";
      var i :| 0 <= i < |s| && s[i] == x;
      assert i in ErrorsAt(s);
    } else {
      assert ErrorsAt(s) == {};
    }
  }

  lemma {:induction false} RowInFields(policy: ResetPolicy, row: Row, s: seq<Span>, late: bool)
    requires RowSums(policy, row, s, late) && s != []
    ensures RootInFields(row.root, s) && EndInFields(row, s) && CountsInFields(row, s) && CollectorInFields(row, s)
    ensures StartInFields(policy, row, s, late)
  {
    hide RootInFields, CountsInFields;
    RootSumsInFields(row, s);
    CountsSumInFields(policy, row, s, late);
  }

  /**
    The same in terms of the spans' own fields: in every run the settled row has the start, service
    and name of the parentless span that starts first, the latest sum of a timestamp and a duration,
    the number of spans and of those with status "error" (up to 32 bits), every service, and the
    last collector named.
   */
  lemma {:induction false} SettledRowInFields(policy: ResetPolicy, ops: seq<Op>, t: string)
    requires ValidRun(policy, ops) && TraceOf(ops, t).Kept() != []
    ensures var row, s := Settled(Run(policy, ops), t), TraceOf(ops, t).Kept();
            && RootInFields(row.root, s) && EndInFields(row, s) && CountsInFields(row, s) && CollectorInFields(row, s)
            && StartInFields(policy, row, s, TraceOf(ops, t).Late())
  {
    hide *;
    SettledIsSummary(policy, ops, t);
    RowInFields(policy, Settled(Run(policy, ops), t), TraceOf(ops, t).Kept(), TraceOf(ops, t).Late());
  }

  lemma ValidConcat(a: seq<Span>, b: seq<Span>)
    requires AllValid(a) && AllValid(b)
    ensures AllValid(a + b)
  {
  }

  ghost predicate Accounted(k: Trace, seen: seq<Span>) {
    && multiset(k.Kept()) + multiset(k.lost) == multiset(seen)
    && (k.lost == [] ==> k.Kept() == seen)
  }

  lemma ArrivalAccounts(k: Trace, span: Span, seen: seq<Span>)
    requires Accounted(k, seen)
    ensures Accounted(k.(pending := k.pending + [span]), seen + [span])
  {
  }

  lemma MoveAccounts(k: Trace, j: Trace, seen: seq<Span>)
    requires Accounted(k, seen) && j.lost == k.lost && j.Kept() == k.Kept()
    ensures Accounted(j, seen)
  {
  }

  lemma LossAccounts(k: Trace, j: Trace, seen: seq<Span>)
    requires Accounted(k, seen) && j.stored == k.stored && j.flying == []
    requires (j.pending == k.pending && j.lost == k.lost + k.flying && k.flying != [])
          || (j.pending == [] && j.lost == k.lost + k.flying + k.pending)
    ensures Accounted(j, seen)
  {
  }

  lemma StepAccounts(k: Trace, t: string, op: Op, seen: seq<Span>)
    requires Accounted(k, seen) && (op.Taken? ==> k.flying == [])
    ensures Accounted(Follow(k, t, op), if op.Observed? && op.span.traceId == t then seen + [op.span] else seen)
  {
    hide Accounted;
    var j := Follow(k, t, op);
    if op.Observed? && op.span.traceId == t {
      ArrivalAccounts(k, op.span, seen);
      MoveAccounts(k.(pending := k.pending + [op.span]), j, seen + [op.span]);
    } else if op.Crashed? || (op.WriteDone? && op.traceId == t && k.flying != [] && !op.ok) {
      LossAccounts(k, j, seen);
    } else {
      assert j.Kept() == k.Kept();
      MoveAccounts(k, j, seen);
    }
  }

  /** Each span seen is kept or lost exactly once; when none is lost they are kept in order of arrival. */
  lemma {:induction false} SpansAccounted(policy: ResetPolicy, ops: seq<Op>, t: string)
    requires ValidRun(policy, ops)
    ensures Accounted(TraceOf(ops, t), SpansOf(ops, t))
  {
    if ops != [] {
      var init, op := ops[..|ops| - 1], ops[|ops| - 1];
      SpansAccounted(policy, init, t);
      RunAgrees(policy, init, t);
      TakenWhenIdle(policy, Run(policy, init), TraceOf(init, t), t, op);
      StepAccounts(TraceOf(init, t), t, op, SpansOf(init, t));
    }
  }

  lemma TakenWhenIdle(policy: ResetPolicy, m: Machine, k: Trace, t: string, op: Op)
    requires FlyingAgrees(policy, m, k, t) && ValidStep(m, op)
    ensures op.Taken? ==> k.flying == []
  {
  }

  // Writes succeed, and a restart finds nothing pending or in flight.
  ghost predicate Lossless(ops: seq<Op>, t: string) {
    ops == [] || (var init, op := ops[..|ops| - 1], ops[|ops| - 1];
                  && Lossless(init, t) && (op.WriteDone? ==> op.ok)
                  && (op.Crashed? ==> TraceOf(init, t).flying == [] && TraceOf(init, t).pending == []))
  }

  lemma {:induction false} LosslessKeepsAll(ops: seq<Op>, t: string)
    requires Lossless(ops, t)
    ensures TraceOf(ops, t).lost == []
  {
    if ops != [] {
      LosslessKeepsAll(ops[..|ops| - 1], t);
    }
  }

  lemma FactsUnique(f: Facts, g: Facts, s: seq<Span>)
    requires FactsSum(f, s) && FactsSum(g, s) && s != []
    ensures f == g
  {
  }

  lemma SummaryUnique(policy: ResetPolicy, r: Row, q: Row, s: seq<Span>, lr: bool, lq: bool)
    requires RowSums(policy, r, s, lr) && RowSums(policy, q, s, lq) && s != []
    ensures q.(start := r.start, duration := r.duration) == r
    ensures policy.AsIntended? || lr == lq ==> q == r
  {
  }

  // Everything seen of trace `t` has been stored.
  ghost predicate AllStored(policy: ResetPolicy, ops: seq<Op>, t: string) {
    && ValidRun(policy, ops) && Lossless(ops, t)
    && TraceOf(ops, t).flying == [] && TraceOf(ops, t).pending == []
  }

  /**
    Batching is invisible: two lossless runs that saw the same spans of a trace in the same
    order, and stored them, hold the same row, however they interleaved flushes, evictions,
    restarts, reloads and other traces. With the written reset this excepts start and duration.
   */
  lemma {:induction false} BatchingIsInvisible(policy: ResetPolicy, ops: seq<Op>, others: seq<Op>, t: string)
    requires AllStored(policy, ops, t) && AllStored(policy, others, t)
    requires SpansOf(ops, t) == SpansOf(others, t) != []
    ensures t in Run(policy, ops).rows && t in Run(policy, others).rows
    ensures var r, q := Run(policy, ops).rows[t], Run(policy, others).rows[t];
            && q.(start := r.start, duration := r.duration) == r
            && (policy.AsIntended? || TraceOf(ops, t).lateStored == TraceOf(others, t).lateStored ==> q == r)
  {
    hide RowSums;
    StoredRowSums(policy, ops, t);
    StoredRowSums(policy, others, t);
    SummaryUnique(policy, Run(policy, ops).rows[t], Run(policy, others).rows[t], SpansOf(ops, t),
                  TraceOf(ops, t).lateStored, TraceOf(others, t).lateStored);
  }

  lemma {:induction false} StoredRowSums(policy: ResetPolicy, ops: seq<Op>, t: string)
    requires AllStored(policy, ops, t) && SpansOf(ops, t) != []
    ensures t in Run(policy, ops).rows
    ensures RowSums(policy, Run(policy, ops).rows[t], SpansOf(ops, t), TraceOf(ops, t).lateStored)
  {
    hide DeltaSums, RowSums, AllValid;
    LosslessKeepsAll(ops, t);
    SpansAccounted(policy, ops, t);
    RunAgrees(policy, ops, t);
    assert TraceOf(ops, t).Kept() == TraceOf(ops, t).stored;
  }

  /** The written reset stores the right start exactly when no stored span met a reset or reloaded entry. */
  lemma {:induction false} WrittenStartExactIff(ops: seq<Op>, t: string)
    requires ValidRun(AsWritten, ops) && t in Run(AsWritten, ops).rows
    ensures IsEarliest(Run(AsWritten, ops).rows[t].start, TraceOf(ops, t).stored) <==> !TraceOf(ops, t).lateStored
  {
    RunAgrees(AsWritten, ops, t);
    var s := TraceOf(ops, t).stored;
    assert AllValid(s);
  }

  lemma {:induction false} TraceSnoc(ops: seq<Op>, t: string, op: Op)
    ensures TraceOf(ops + [op], t) == Follow(TraceOf(ops, t), t, op)
  {
  }

  // A span observed and flushed on its own.
  function FlushedSpan(span: Span): seq<Op> {
    [Observed(span)] + [Taken] + [WriteDone(span.traceId, true)]
  }

  lemma {:induction false} FlushedSpanStores(ops: seq<Op>, span: Span, t: string)
    requires span.traceId == t && TraceOf(ops, t).pending == [] && TraceOf(ops, t).flying == []
    ensures var k := TraceOf(ops, t);
            TraceOf(ops + FlushedSpan(span), t)
            == k.(stored := k.stored + [span], registered := true, lateStored := k.lateStored || k.registered,
                  lateFlying := false, latePending := false)
  {
    var one := ops + [Observed(span)];
    TraceSnoc(ops, t, Observed(span));
    TraceSnoc(one, t, Taken);
    TraceSnoc(one + [Taken], t, WriteDone(t, true));
    assert ops + FlushedSpan(span) == one + [Taken] + [WriteDone(t, true)];
    assert [] + [span] == [span];
  }

  lemma FlushedSpanValid(ops: seq<Op>, span: Span)
    requires ValidRun(AsWritten, ops) && Run(AsWritten, ops).flying == map[] && ValidSpan(span)
    requires forall t | t in Run(AsWritten, ops).deltas && t != span.traceId :: IsEmpty(Run(AsWritten, ops).deltas[t])
    ensures ValidRun(AsWritten, ops + FlushedSpan(span))
    ensures var m := Run(AsWritten, ops + FlushedSpan(span));
            m.flying == map[] && forall t | t in m.deltas :: IsEmpty(m.deltas[t])
  {
    hide Merge, ObserveDelta;
    var one := ops + [Observed(span)];
    RunSnoc(AsWritten, INITIAL, ops, Observed(span));
    RunSnoc(AsWritten, INITIAL, one, Taken);
    RunSnoc(AsWritten, INITIAL, one + [Taken], WriteDone(span.traceId, true));
    assert ops + FlushedSpan(span) == one + [Taken] + [WriteDone(span.traceId, true)];
  }

  /** The failing run of the written reset: two spans of one trace, each flushed on its own, start at 0. */
  lemma TwoFlushesStartAtZero(a: Span, b: Span)
    requires a.traceId == b.traceId && ValidSpan(a) && ValidSpan(b)
    ensures ValidRun(AsWritten, FlushedSpan(a) + FlushedSpan(b))
    ensures var rows := Run(AsWritten, FlushedSpan(a) + FlushedSpan(b)).rows;
            && a.traceId in rows && rows[a.traceId].start == 0
            && rows[a.traceId].duration == rows[a.traceId].maxEnd == Max(End(a), End(b))
  {
    hide FactsSum;
    var t, ops := a.traceId, FlushedSpan(a) + FlushedSpan(b);
    FlushedSpanStores([], a, t);
    assert [] + FlushedSpan(a) == FlushedSpan(a);
    FlushedSpanStores(FlushedSpan(a), b, t);
    FlushedSpanValid([], a);
    FlushedSpanValid(FlushedSpan(a), b);
    RunAgrees(AsWritten, ops, t);
    assert TraceOf(ops, t).stored == [a] + [b] by { assert [] + [a] == [a]; }
    SingleSums(a);
    SingleSums(b);
    FactsJoin(FactsOf(a), [a], FactsOf(b), [b]);
    FactsUnique(RowFacts(Run(AsWritten, ops).rows[t]), JoinFacts(FactsOf(a), FactsOf(b)), [a] + [b]);
  }

  function Overflow(live: nat, maxLive: nat, clean: nat): nat {
    if live <= maxLive then 0 else if live - maxLive <= clean then live - maxLive else clean
  }

  // What the code asks of a choice of entries to drop.
  ghost predicate OldestClean(deltas: map<string, Delta>, maxLive: nat, victims: set<string>) {
    && victims <= CleanOf(deltas)
    && |victims| == Overflow(|deltas|, maxLive, |CleanOf(deltas)|)
    && (forall v, k | v in victims && k in CleanOf(deltas) && k !in victims :: deltas[v].maxEnd <= deltas[k].maxEnd)
  }

  /** Clean entries all end at 0, so "oldest first" lets any clean entries of the right number go. */
  lemma EvictionIsBlind(policy: ResetPolicy, ops: seq<Op>, maxLive: nat, victims: set<string>)
    requires ValidRun(policy, ops)
    ensures var deltas := Run(policy, ops).deltas;
            OldestClean(deltas, maxLive, victims)
            <==> victims <= CleanOf(deltas) && |victims| == Overflow(|deltas|, maxLive, |CleanOf(deltas)|)
  {
    var deltas := Run(policy, ops).deltas;
    forall t | t in deltas && IsEmpty(deltas[t]) ensures deltas[t].maxEnd == 0 {
      RunAgrees(policy, ops, t);
      EmptyIff(policy, deltas[t], TraceOf(ops, t).pending, TraceOf(ops, t).latePending);
    }
  }

  // ---------------------------------------------------------------- the accumulator itself

  /** The stored summary rows. */
  class TraceTable {
    var rows: map<string, Row>

    constructor ()
      ensures rows == map[]
    {
      rows := map[];
    }

    // Reads the row back, merges, writes absolute values.
    method FlushOne(traceId: string, delta: Delta)
      modifies this
      ensures rows == old(rows)[traceId := Merge(RowAt(old(rows), traceId), delta)]
    {
      var row := if traceId in rows then rows[traceId] else NO_ROW;
      var deltaStart := if delta.start == I64_MAX then row.start else delta.start;
      var root := row.root;
      if delta.root.Some? {
        if root.start == 0 || delta.root.value.start < root.start {
          root := delta.root.value;
        }
      }
      row := row.(start := if row.spans == 0 && row.start == 0 then deltaStart else Min(row.start, deltaStart),
                  maxEnd := Max(row.maxEnd, delta.maxEnd),
                  spans := SaturatingAdd(row.spans, delta.spans),
                  errors := SaturatingAdd(row.errors, delta.errors),
                  services := row.services + delta.services,
                  root := root,
                  collector := if delta.collector != "" then delta.collector else row.collector);
      row := row.(duration := Max(0, row.maxEnd - row.start), status := if row.errors > 0 then "error" else "ok");
      rows := rows[traceId := row];
    }
  }

  // What a delta says of the span it just took in, whatever it held before.
  ghost predicate UpdatedBy(d: Delta, span: Span) {
    && d.start <= span.timestamp && span.timestamp + span.duration <= d.maxEnd && span.service in d.services
    && d.spans > 0 && (span.status == "error" ==> d.errors > 0)
       && (span.collector != "" ==> d.collector == span.collector)
    && (span.parentSpanId == "" ==> d.root.Some? && d.root.value.start <= span.timestamp)
  }

  // What changed from the delta before: the root becomes the span's own fields exactly when the span
  // has no parent and no root started as early.
  ghost predicate UpdatedFrom(before: Delta, d: Delta, span: Span) {
    var leads := span.parentSpanId == "" && (before.root.None? || span.timestamp < before.root.value.start);
    && (if leads then d.root.Some? && d.root.value.start == span.timestamp && d.root.value.service == span.service
                      && d.root.value.operation == span.name
        else d.root == before.root)
    && (d.start == span.timestamp || d.start == before.start) && d.start <= before.start
    && (d.maxEnd == span.timestamp + span.duration || d.maxEnd == before.maxEnd) && before.maxEnd <= d.maxEnd
    && (before.spans < 0xFFFF_FFFF ==> d.spans == before.spans + 1)
    && (span.status != "error" ==> d.errors == before.errors)
    && d.services == before.services + {span.service}
    && (span.collector == "" ==> d.collector == before.collector)
  }

  lemma DeltaUpdated(before: Delta, span: Span)
    ensures UpdatedBy(ObserveDelta(before, span), span) && UpdatedFrom(before, ObserveDelta(before, span), span)
  {
  }

  class TraceSummaryAccumulator {
    const maxLive: nat
    var deltas: map<string, Delta>
    var flushedTraces: nat
    var droppedTraces: nat

    constructor (maxLive: nat)
      ensures this.maxLive == maxLive && deltas == map[] && flushedTraces == 0 && droppedTraces == 0
    {
      this.maxLive := maxLive;
      deltas, flushedTraces, droppedTraces := map[], 0, 0;
    }

    ghost function View(table: TraceTable): Machine
      reads this, table
    {
      Machine(deltas, map[], table.rows)
    }

    method Observe(span: Span)
      modifies this`deltas
      ensures deltas == AfterSpan(old(deltas), span)
      ensures forall t | t != span.traceId ::
              (t in deltas <==> t in old(deltas)) && (t in deltas ==> deltas[t] == old(deltas)[t])
      ensures span.traceId in deltas && UpdatedBy(deltas[span.traceId], span)
      ensures span.traceId in old(deltas) ==> UpdatedFrom(old(deltas)[span.traceId], deltas[span.traceId], span)
    {
      hide UpdatedBy, UpdatedFrom;
      var delta := if span.traceId in deltas then deltas[span.traceId] else NewDelta(span);
      DeltaUpdated(delta, span);
      if span.timestamp < delta.start { delta := delta.(start := span.timestamp); }
      if End(span) > delta.maxEnd { delta := delta.(maxEnd := End(span)); }
      delta := delta.(spans := SaturatingAdd(delta.spans, 1), services := delta.services + {span.service});
      if span.IsError() { delta := delta.(errors := SaturatingAdd(delta.errors, 1)); }
      if span.collector != "" { delta := delta.(collector := span.collector); }
      if span.IsRoot() {
        var candidate := RootOf(span);
        if !(delta.root.Some? && delta.root.value.start <= candidate.start) {
          delta := delta.(root := Some(candidate));
        }
      }
      deltas := deltas[span.traceId := delta];
    }

    // Snapshots the nonempty deltas and resets them, before anything is written.
    method Take() returns (batch: map<string, Delta>)
      modifies this`deltas
      ensures deltas == AfterTaking(AsWritten, old(deltas)) && batch == Batch(old(deltas))
    {
      batch := map[];
      var todo := deltas.Keys;
      while todo != {}
        invariant todo <= old(deltas).Keys && deltas.Keys == old(deltas).Keys
        invariant forall t | t in todo :: deltas[t] == old(deltas)[t] && t !in batch
        invariant forall t | t in deltas && t !in todo ::
                    && deltas[t] == AfterTaking(AsWritten, old(deltas))[t]
                    && (t in batch <==> !IsEmpty(old(deltas)[t]))
        invariant forall t | t in batch :: t in old(deltas) && batch[t] == old(deltas)[t]
        decreases |todo|
      {
        var t :| t in todo;
        todo := todo - {t};
        if !IsEmpty(deltas[t]) {
          batch := batch[t := deltas[t]];
          deltas := deltas[t := ResetDelta(AsWritten)];
        }
      }
    }

    /** Snapshots and resets, writes every trace of the batch (a failed write loses its delta), then evicts. */
    method Flush(table: TraceTable, stored: string -> bool) returns (written: nat, ghost victims: set<string>)
      modifies this, table
      ensures OldestClean(AfterTaking(AsWritten, old(deltas)), maxLive, victims)
      ensures deltas == AfterTaking(AsWritten, old(deltas)) - victims
      ensures table.rows == AfterWrites(old(table.rows), Batch(old(deltas)), stored)
      ensures written == |Stored(Batch(old(deltas)).Keys, stored)|
      ensures flushedTraces == old(flushedTraces) + written
      ensures droppedTraces == old(droppedTraces) + |victims|
    {
      var batch := Take();
      written := WriteAll(table, batch, stored);
      victims := EvictIfNeeded();
      flushedTraces := flushedTraces + written;
    }

    static method WriteAll(table: TraceTable, batch: map<string, Delta>, stored: string -> bool) returns (written: nat)
      modifies table
      ensures table.rows == AfterWrites(old(table.rows), batch, stored)
      ensures written == |Stored(batch.Keys, stored)|
    {
      hide AfterWrites, Merge, Only, Stored;
      var todo := batch.Keys;
      written := 0;
      ghost var done: set<string> := {};
      NoWrites(table.rows, batch, stored);
      NoneStored(stored);
      while todo != {}
        invariant todo + done == batch.Keys && todo !! done
        invariant table.rows == AfterWrites(old(table.rows), Only(batch, done), stored)
        invariant written == |Stored(done, stored)|
        decreases |todo|
      {
        var t :| t in todo;
        WriteOneMore(old(table.rows), batch, done, t, stored);
        StoredOneMore(done, t, stored);
        todo, done := todo - {t}, done + {t};
        if stored(t) {
          table.FlushOne(t, batch[t]);
          written := written + 1;
        }
      }
      AllOfBatch(batch, done);
    }

    // Over capacity, drops the oldest clean entries until enough are gone or none is left.
    method EvictIfNeeded() returns (ghost victims: set<string>)
      modifies this`deltas, this`droppedTraces
      ensures OldestClean(old(deltas), maxLive, victims)
      ensures deltas == old(deltas) - victims
      ensures droppedTraces == old(droppedTraces) + |victims|
    {
      victims := {};
      if |deltas| > maxLive {
        victims := DropOldest(CleanOf(deltas), |deltas| - maxLive);
      }
    }

    method DropOldest(clean: set<string>, overflow: nat) returns (ghost victims: set<string>)
      requires clean <= deltas.Keys
      modifies this`deltas, this`droppedTraces
      ensures victims <= clean && |victims| == (if overflow <= |clean| then overflow else |clean|)
      ensures deltas == old(deltas) - victims && droppedTraces == old(droppedTraces) + |victims|
      ensures forall v, k | v in victims && k in clean - victims :: old(deltas)[v].maxEnd <= old(deltas)[k].maxEnd
    {
      var rest, left: nat := clean, overflow;
      victims := {};
      while left > 0 && rest != {}
        invariant rest <= clean && victims == clean - rest && |victims| + |rest| == |clean|
        invariant left + |victims| == overflow
        invariant deltas == old(deltas) - victims && droppedTraces == old(droppedTraces) + |victims|
        invariant forall v, k | v in victims && k in rest :: old(deltas)[v].maxEnd <= old(deltas)[k].maxEnd
        decreases left
      {
        var t := OldestOf(rest);
        assert deltas - {t} == old(deltas) - (victims + {t});
        deltas, droppedTraces := deltas - {t}, droppedTraces + 1;
        rest, victims, left := rest - {t}, victims + {t}, left - 1;
      }
    }

    method OldestOf(clean: set<string>) returns (oldest: string)
      requires clean != {} && clean <= deltas.Keys
      ensures oldest in clean && forall k | k in clean :: deltas[oldest].maxEnd <= deltas[k].maxEnd
    {
      oldest :| oldest in clean;
      var rest := clean - {oldest};
      while rest != {}
        invariant rest <= clean && oldest in clean
        invariant forall k | k in clean && k !in rest :: deltas[oldest].maxEnd <= deltas[k].maxEnd
        decreases |rest|
      {
        var k :| k in rest;
        rest := rest - {k};
        if deltas[k].maxEnd < deltas[oldest].maxEnd { oldest := k; }
      }
    }

    // Registers the traces still written to inside the reload window, with nothing pending.
    method Reload(table: TraceTable, nowTs: int, windowMicros: nat) returns (loaded: nat)
      modifies this`deltas
      ensures deltas == AfterReload(AsWritten, old(deltas), Recent(table.rows, nowTs - windowMicros))
      ensures loaded == |Recent(table.rows, nowTs - windowMicros)|
    {
      var recent := Recent(table.rows, nowTs - windowMicros);
      loaded := Register(recent);
    }

    method Register(recent: set<string>) returns (loaded: nat)
      modifies this`deltas
      ensures deltas == AfterReload(AsWritten, old(deltas), recent) && loaded == |recent|
    {
      hide AfterReload;
      var todo := recent;
      loaded := 0;
      ghost var done: set<string> := {};
      NoneRegistered(deltas);
      while todo != {}
        invariant todo + done == recent && todo !! done && loaded == |done|
        invariant deltas == AfterReload(AsWritten, old(deltas), done)
        decreases |todo|
      {
        var t :| t in todo;
        RegisterOneMore(old(deltas), done, t);
        todo, done := todo - {t}, done + {t};
        if t !in deltas { deltas := deltas[t := ResetDelta(AsWritten)]; }
        loaded := loaded + 1;
      }
      assert done == recent;
    }
  }

  lemma NoneRegistered(deltas: map<string, Delta>)
    ensures AfterReload(AsWritten, deltas, {}) == deltas
  {
  }

  lemma NoneStored(stored: string -> bool)
    ensures |Stored({}, stored)| == 0
  {
  }

  lemma StoredOneMore(done: set<string>, t: string, stored: string -> bool)
    requires t !in done
    ensures |Stored(done + {t}, stored)| == |Stored(done, stored)| + if stored(t) then 1 else 0
  {
    assert Stored(done + {t}, stored) == Stored(done, stored) + if stored(t) then {t} else {};
  }

  lemma AllOfBatch(batch: map<string, Delta>, done: set<string>)
    requires done == batch.Keys
    ensures Only(batch, done) == batch
  {
  }

  lemma NoWrites(rows: map<string, Row>, batch: map<string, Delta>, stored: string -> bool)
    ensures AfterWrites(rows, Only(batch, {}), stored) == rows
  {
  }

  lemma WriteOneMore(rows: map<string, Row>, batch: map<string, Delta>, done: set<string>, t: string,
                     stored: string -> bool)
    requires t in batch && t !in done
    ensures var before := AfterWrites(rows, Only(batch, done), stored);
            AfterWrites(rows, Only(batch, done + {t}), stored)
            == if stored(t) then before[t := Merge(RowAt(before, t), batch[t])] else before
  {
  }

  lemma RegisterOneMore(deltas: map<string, Delta>, done: set<string>, t: string)
    ensures var before := AfterReload(AsWritten, deltas, done);
            AfterReload(AsWritten, deltas, done + {t})
                == if t in before then before else before[t := ResetDelta(AsWritten)]
  {
  }

  // ---------------------------------------------------------------- the methods are steps of the machine

  function Midway(m: Machine, done: set<string>, stored: string -> bool): Machine {
    m.(flying := m.flying - done, rows := AfterWrites(m.rows, Only(m.flying, done), stored))
  }

  lemma WriteStep(policy: ResetPolicy, m: Machine, done: set<string>, t: string, stored: string -> bool)
    requires t in m.flying && t !in done
    ensures Apply(policy, Midway(m, done, stored), WriteDone(t, stored(t))) == Midway(m, done + {t}, stored)
  {
    hide AfterWrites, Merge;
    WriteOneMore(m.rows, m.flying, done, t, stored);
    assert m.flying - done - {t} == m.flying - (done + {t});
  }

  lemma {:induction false} WritesAreARun(policy: ResetPolicy, m: Machine, done: set<string>, stored: string -> bool)
    returns (steps: seq<Op>)
    requires done <= m.flying.Keys
    ensures ValidFrom(policy, m, steps)
    ensures RunFrom(policy, m, steps) == Midway(m, done, stored)
    ensures forall i | 0 <= i < |steps| :: steps[i].WriteDone? && steps[i].ok == stored(steps[i].traceId)
    decreases |done|
  {
    if done == {} {
      steps := [];
      NoWrites(m.rows, m.flying, stored);
      assert m.flying - done == m.flying;
    } else {
      hide Midway, Apply;
      var t :| t in done;
      var before := WritesAreARun(policy, m, done - {t}, stored);
      WriteStep(policy, m, done - {t}, t, stored);
      assert done - {t} + {t} == done;
      steps := before + [WriteDone(t, stored(t))];
      RunSnoc(policy, m, before, WriteDone(t, stored(t)));
    }
  }

  /**
    What the flush method does to memory and store is a valid run of the machine from there: take,
    write each trace of the batch as the store allows, evict clean entries. So every theorem
    about runs holds of any sequence of Observe, Flush and Reload calls.
   */
  lemma FlushIsARun(policy: ResetPolicy, m: Machine, stored: string -> bool, maxLive: nat, victims: set<string>)
    returns (steps: seq<Op>)
    requires m.flying == map[] && OldestClean(AfterTaking(policy, m.deltas), maxLive, victims)
    ensures ValidFrom(policy, m, steps)
    ensures RunFrom(policy, m, steps)
         == Machine(AfterTaking(policy, m.deltas) - victims, map[], AfterWrites(m.rows, Batch(m.deltas), stored))
    ensures forall i | 0 <= i < |steps| && steps[i].WriteDone? :: steps[i].ok == stored(steps[i].traceId)
  {
    hide AfterWrites, Merge, AfterTaking, Batch;
    var taken := Apply(policy, m, Taken);
    var writes := WritesAreARun(policy, taken, taken.flying.Keys, stored);
    assert Only(taken.flying, taken.flying.Keys) == taken.flying;
    assert taken.flying - taken.flying.Keys == map[];
    RunSnoc(policy, m, [], Taken);
    assert [] + [Taken] == [Taken];
    RunConcat(policy, m, [Taken], writes);
    RunSnoc(policy, m, [Taken] + writes, Evicted(victims));
    steps := [Taken] + writes + [Evicted(victims)];
  }

  lemma {:induction false} RunConcat(policy: ResetPolicy, m: Machine, a: seq<Op>, b: seq<Op>)
    ensures RunFrom(policy, m, a + b) == RunFrom(policy, RunFrom(policy, m, a), b)
    ensures ValidFrom(policy, m, a + b) <==> ValidFrom(policy, m, a) && ValidFrom(policy, RunFrom(policy, m, a), b)
    decreases |b|
  {
    if b == [] {
      assert a + b == a;
    } else {
      RunConcat(policy, m, a, b[..|b| - 1]);
      assert (a + b)[..|a + b| - 1] == a + b[..|b| - 1];
    }
  }
}
