/**
  Runs of the eBPF aggregation (crates/dataplane-apm/src/ebpf_metrics.rs): rounds
  move a watermark over the minutes, rounds that fail part way are replayed, and
  points of the same identity overwrite.
 */
module Watermark {
  import opened Wrappers
  import opened EbpfMetrics
  import opened EbpfPoints

  datatype Window = Window(lo: int, hi: int)

  // The edge rows, the watermark, the point store, and the windows committed so far.
  datatype World = World(rows: seq<EdgeRow>, watermark: Option<int>, store: Store, windows: seq<Window>)

  const START := World([], None, map[], [])

  // A round fails after `failAfter` of its writes, or completes.
  datatype Op =
    | Arrived(row: EdgeRow)
    | Round(now: int, series: seq<Series>, edges: seq<Edge>, failAfter: Option<nat>)

  function Upper(lagSecs: nat, now: int): int {
    FloorMinute(now - lagSecs * 1_000_000)
  }

  function RowsIn(rows: seq<EdgeRow>, win: Window): seq<EdgeRow> {
    if rows == [] then []
    else
      var last := rows[|rows| - 1];
      RowsIn(rows[..|rows| - 1], win) + if win.lo < last.bucketStart <= win.hi then [last] else []
  }

  // The orders in which a round emits the series and edges of its rows.
  ghost predicate Orders(rows: seq<EdgeRow>, series: seq<Series>, edges: seq<Edge>) {
    Sound(CountersOf(rows)) && Enumerates(series, CountersOf(rows).Keys) && Enumerates(edges, DurationsOf(rows).Keys)
  }

  ghost function Emitted(rows: seq<EdgeRow>, series: seq<Series>, edges: seq<Edge>): seq<Point> {
    if Orders(rows, series, edges)
    then CounterPoints(CountersOf(rows), series) + AllDurationPoints(DurationsOf(rows), rows, edges)
    else []
  }

  function Prefix(points: seq<Point>, n: nat): seq<Point> {
    if n <= |points| then points[..n] else points
  }

  ghost function AfterWindow(w: World, win: Window, op: Op): World
    requires op.Round?
  {
    var out := Emitted(RowsIn(w.rows, win), op.series, op.edges);
    match op.failAfter
    case None => w.(store := WriteAll(w.store, out), watermark := Some(win.hi), windows := w.windows + [win])
    case Some(n) => w.(store := WriteAll(w.store, Prefix(out, n)))
  }

  ghost function Apply(lagSecs: nat, w: World, op: Op): World {
    match op
    case Arrived(row) => w.(rows := w.rows + [row])
    case Round(now, series, edges, failAfter) =>
      var upper := Upper(lagSecs, now);
      if w.watermark.None? then (if failAfter.None? then w.(watermark := Some(upper)) else w)
      else if upper <= w.watermark.value then w
      else AfterWindow(w, Window(w.watermark.value, upper), op)
  }

  ghost function Run(lagSecs: nat, ops: seq<Op>): World {
    if ops == [] then START else Apply(lagSecs, Run(lagSecs, ops[..|ops| - 1]), ops[|ops| - 1])
  }

  // Rows are there before their window is processed, and a round emits every point once.
  ghost predicate ValidStep(lagSecs: nat, w: World, op: Op) {
    match op
    case Arrived(row) => w.watermark.Some? ==> row.bucketStart > w.watermark.value
    case Round(now, series, edges, failAfter) =>
      w.watermark.Some? && Upper(lagSecs, now) > w.watermark.value ==>
        Orders(RowsIn(w.rows, Window(w.watermark.value, Upper(lagSecs, now))), series, edges)
  }

  ghost predicate ValidRun(lagSecs: nat, ops: seq<Op>) {
    ops == [] || (ValidRun(lagSecs, ops[..|ops| - 1])
                  && ValidStep(lagSecs, Run(lagSecs, ops[..|ops| - 1]), ops[|ops| - 1]))
  }

  // ---------------------------------------------------------------- windows tile the time line

  // Consecutive, nonempty, minute-aligned windows from `from` up to the watermark.
  ghost predicate Tiles(windows: seq<Window>, from: int, to: int) {
    && from % MINUTE_MICROS == 0 && to % MINUTE_MICROS == 0
    && (if windows == [] then from == to
        else windows[0].lo == from && windows[|windows| - 1].hi == to)
    && (forall i | 0 <= i < |windows| :: windows[i].lo < windows[i].hi && windows[i].hi % MINUTE_MICROS == 0)
    && (forall i | 0 < i < |windows| :: windows[i - 1].hi == windows[i].lo)
  }

  // Where the first round put the watermark.
  ghost function Origin(w: World): int {
    if w.windows != [] then w.windows[0].lo else if w.watermark.Some? then w.watermark.value else 0
  }

  ghost predicate Tiled(w: World) {
    if w.watermark.None? then w.windows == [] else Tiles(w.windows, Origin(w), w.watermark.value)
  }

  lemma StepTiles(lagSecs: nat, w: World, op: Op)
    requires Tiled(w)
    ensures Tiled(Apply(lagSecs, w, op))
    ensures w.watermark.Some? ==>
              var after := Apply(lagSecs, w, op);
              after.watermark.Some? && after.watermark.value >= w.watermark.value && Origin(after) == Origin(w)
  {
    hide Emitted, WriteAll, RowsIn;
  }

  /**
    Whatever rounds fail and wherever the clock goes, committed windows tile the time line
    from the first watermark to the current one without gap or overlap.
   */
  lemma {:induction false} WindowsTile(lagSecs: nat, ops: seq<Op>)
    ensures Tiled(Run(lagSecs, ops))
  {
    if ops != [] {
      WindowsTile(lagSecs, ops[..|ops| - 1]);
      StepTiles(lagSecs, Run(lagSecs, ops[..|ops| - 1]), ops[|ops| - 1]);
    }
  }

  /** The watermark, once set, never decreases, and its origin never moves. */
  lemma {:induction false} WatermarkNeverDecreases(lagSecs: nat, ops: seq<Op>, n: nat)
    requires n <= |ops| && Run(lagSecs, ops[..n]).watermark.Some?
    ensures Run(lagSecs, ops).watermark.Some?
    ensures Run(lagSecs, ops).watermark.value >= Run(lagSecs, ops[..n]).watermark.value
    ensures Origin(Run(lagSecs, ops)) == Origin(Run(lagSecs, ops[..n]))
    decreases |ops|
  {
    if n == |ops| {
      assert ops[..n] == ops;
    } else {
      var init := ops[..|ops| - 1];
      assert init[..n] == ops[..n];
      WatermarkNeverDecreases(lagSecs, init, n);
      WindowsTile(lagSecs, init);
      StepTiles(lagSecs, Run(lagSecs, init), ops[|ops| - 1]);
    }
  }

  // ---------------------------------------------------------------- the lag

  // The last full minute that is at least the lag before `now`.
  ghost predicate MinuteBeforeLag(v: int, lagSecs: nat, now: int) {
    v % 60_000_000 == 0 && v <= now - lagSecs * 1_000_000 < v + 60_000_000
  }

  lemma MinuteIsFloor(lagSecs: nat, now: int)
    ensures forall v :: MinuteBeforeLag(v, lagSecs, now) <==> v == Upper(lagSecs, now)
  {
  }

  // A completed round that sets or advances the watermark leaves it at that minute, and one advances
  // it exactly when that minute is later; a failed round leaves it.
  ghost predicate MovesToLag(before: Option<int>, after: Option<int>, lagSecs: nat, now: int, failAfter: Option<nat>) {
    if failAfter.Some? then after == before
    else
      && after.Some?
      && (before.None? || after != before ==> MinuteBeforeLag(after.value, lagSecs, now))
      && (before.Some? ==>
            (after.value > before.value <==> exists v :: MinuteBeforeLag(v, lagSecs, now) && v > before.value)
            && after.value >= before.value)
  }

  lemma MovesToUpper(before: Option<int>, lagSecs: nat, now: int, failAfter: Option<nat>)
    ensures var upper := Upper(lagSecs, now);
            var after := if failAfter.None? && (before.None? || upper > before.value) then Some(upper) else before;
            MovesToLag(before, after, lagSecs, now, failAfter)
  {
    hide MinuteBeforeLag;
    MinuteIsFloor(lagSecs, now);
    assert MinuteBeforeLag(Upper(lagSecs, now), lagSecs, now);
  }

  // Some round of the run was at a clock that puts the watermark there.
  ghost predicate SetByRound(lagSecs: nat, ops: seq<Op>, v: int) {
    exists op | op in ops && op.Round? :: MinuteBeforeLag(v, lagSecs, op.now)
  }

  /** In every run the watermark is the last full minute before the lag, as of the clock of some round. */
  lemma {:induction false} WatermarkIsSetByRound(lagSecs: nat, ops: seq<Op>)
    ensures var w := Run(lagSecs, ops); w.watermark.Some? ==> SetByRound(lagSecs, ops, w.watermark.value)
  {
    hide Emitted, WriteAll, MinuteBeforeLag;
    if ops != [] {
      var init, op := ops[..|ops| - 1], ops[|ops| - 1];
      WatermarkIsSetByRound(lagSecs, init);
      assert forall o :: o in ops <==> o in init || o == op;
      if op.Round? { MinuteIsFloor(lagSecs, op.now); }
    }
  }

  // No round of the run looked at a clock later than this.
  ghost predicate ClockUpTo(ops: seq<Op>, clock: int) {
    forall op | op in ops && op.Round? :: op.now <= clock
  }

  /**
    No watermark is ahead of the clock minus the lag. So a row that comes no later than the lag
    after its time is still to be processed: that runs have every row before its window is what the
    lag is for, not an assumption on the rows.
   */
  lemma {:induction false} LagLeavesRoom(lagSecs: nat, ops: seq<Op>, clock: int, row: EdgeRow)
    requires ClockUpTo(ops, clock)
    ensures var w := Run(lagSecs, ops); w.watermark.Some? ==> w.watermark.value <= clock - lagSecs * 1_000_000
    ensures row.bucketStart > clock - lagSecs * 1_000_000 ==> ValidStep(lagSecs, Run(lagSecs, ops), Arrived(row))
  {
    hide Run;
    WatermarkIsSetByRound(lagSecs, ops);
  }

  // ---------------------------------------------------------------- what the store holds

  // The value the last committed window that saw the series wrote.
  ghost function LastValue(windows: seq<Window>, rows: seq<EdgeRow>, x: Series): Option<nat> {
    if windows == [] then None
    else
      var win := RowsIn(rows, windows[|windows| - 1]);
      if x in CountersOf(win) then Some(SumWeight(win, x)) else LastValue(windows[..|windows| - 1], rows, x)
  }

  // No row of the series waits for a later window.
  ghost predicate Settled(rows: seq<EdgeRow>, watermark: int, x: Series) {
    forall row | row in rows && Contributes(row, x) :: row.bucketStart <= watermark
  }

  ghost predicate Holds(store: Store, x: Series, v: Option<nat>)
    requires WellFormed(x)
  {
    match v
    case None => EbpfId(x) !in store
    case Some(n) => EbpfId(x) in store && store[EbpfId(x)] == n as real
  }

  ghost predicate StoreAgrees(w: World, x: Series)
    requires WellFormed(x)
  {
    if w.watermark.None? then w.store == map[] && w.windows == []
    else Settled(w.rows, w.watermark.value, x) ==> Holds(w.store, x, LastValue(w.windows, w.rows, x))
  }

  lemma {:induction false} RowsInWindow(rows: seq<EdgeRow>, win: Window, row: EdgeRow)
    ensures row in RowsIn(rows, win) <==> row in rows && win.lo < row.bucketStart <= win.hi
  {
    if rows != [] {
      RowsInWindow(rows[..|rows| - 1], win, row);
      assert rows == rows[..|rows| - 1] + [rows[|rows| - 1]];
    }
  }

  lemma {:induction false} LaterRowsDoNotMatter(windows: seq<Window>, rows: seq<EdgeRow>, row: EdgeRow, x: Series,
                                                to: int)
    requires row.bucketStart > to && forall i | 0 <= i < |windows| :: windows[i].hi <= to
    ensures LastValue(windows, rows + [row], x) == LastValue(windows, rows, x)
  {
    if windows != [] {
      LaterRowsDoNotMatter(windows[..|windows| - 1], rows, row, x, to);
      assert (rows + [row])[..|rows|] == rows;
      assert RowsIn(rows, windows[|windows| - 1]) + [] == RowsIn(rows, windows[|windows| - 1]);
    }
  }

  lemma {:induction false} TilesBelow(windows: seq<Window>, from: int, to: int)
    requires Tiles(windows, from, to)
    ensures forall i | 0 <= i < |windows| :: from <= windows[i].lo && windows[i].hi <= to
  {
    if windows != [] {
      var init := windows[..|windows| - 1];
      if |windows| > 1 { assert windows[|windows| - 2].hi == windows[|windows| - 1].lo; }
      TilesBelow(init, from, windows[|windows| - 1].lo);
      forall i | 0 <= i < |windows| ensures from <= windows[i].lo && windows[i].hi <= to {
        if i < |init| { assert windows[i] == init[i]; }
      }
    }
  }

  // A series no row of the window contributes to is left alone by any part of its points.
  lemma {:induction false} OtherSeriesUntouched(store: Store, rows: seq<EdgeRow>, series: seq<Series>, edges: seq<Edge>,
                                                n: nat, x: Series)
    requires Orders(rows, series, edges) && WellFormed(x) && x !in CountersOf(rows)
    ensures var after := WriteAll(store, Prefix(Emitted(rows, series, edges), n));
            (EbpfId(x) in after <==> EbpfId(x) in store)
                && (EbpfId(x) in store ==> after[EbpfId(x)] == store[EbpfId(x)])
  {
    var out := Emitted(rows, series, edges);
    NotEmitted(rows, series, edges, x);
    forall i | 0 <= i < |Prefix(out, n)| ensures Prefix(out, n)[i].id != EbpfId(x) {
      assert out[i].id != EbpfId(x);
    }
    WriteAllLeaves(store, Prefix(out, n), EbpfId(x));
  }

  lemma {:induction false} NotTimed(rows: seq<EdgeRow>, edges: seq<Edge>, x: Series)
    requires Enumerates(edges, DurationsOf(rows).Keys) && WellFormed(x)
    ensures !Has(AllDurationPoints(DurationsOf(rows), rows, edges), EbpfId(x))
  {
    AllDurationPointsDistinct(DurationsOf(rows), rows, edges);
  }

  lemma {:induction false} NotEmitted(rows: seq<EdgeRow>, series: seq<Series>, edges: seq<Edge>, x: Series)
    requires Orders(rows, series, edges) && WellFormed(x) && x !in CountersOf(rows)
    ensures !Has(Emitted(rows, series, edges), EbpfId(x))
  {
    var c := CountersOf(rows);
    CounterPointsHave(c, series, EbpfId(x));
    forall y | y in series ensures !Emits(y, EbpfId(x)) {
      if EbpfId(y) == EbpfId(x) { EbpfIdInjective(x, y); }
    }
    NotTimed(rows, edges, x);
    HasConcat(CounterPoints(c, series), AllDurationPoints(DurationsOf(rows), rows, edges), EbpfId(x));
  }

  lemma {:induction false} SeriesWritten(store: Store, rows: seq<EdgeRow>, series: seq<Series>, edges: seq<Edge>,
                                         x: Series)
    requires Orders(rows, series, edges) && x in CountersOf(rows)
    ensures Holds(WriteAll(store, Emitted(rows, series, edges)), x, Some(SumWeight(rows, x)))
  {
    var c := CountersOf(rows);
    EbpfPointsSurvive(store, c, series, x);
    SeriesHoldsItsRows(rows, x);
    NotTimed(rows, edges, x);
    WriteAllConcat(store, CounterPoints(c, series), AllDurationPoints(DurationsOf(rows), rows, edges));
    WriteAllLeaves(WriteAll(store, CounterPoints(c, series)), AllDurationPoints(DurationsOf(rows), rows, edges),
                   EbpfId(x));
  }

  // A series with a row in the window is counted there, and only then.
  lemma {:induction false} CountedInWindow(rows: seq<EdgeRow>, win: Window, x: Series)
    ensures x in CountersOf(RowsIn(rows, win))
       <==> exists row | row in rows && win.lo < row.bucketStart <= win.hi :: Contributes(row, x)
  {
    SeriesHoldsItsRows(RowsIn(rows, win), x);
    if x in CountersOf(RowsIn(rows, win)) {
      var row :| row in RowsIn(rows, win) && Contributes(row, x);
      RowsInWindow(rows, win, row);
    }
    if exists row | row in rows && win.lo < row.bucketStart <= win.hi :: Contributes(row, x) {
      var row :| row in rows && win.lo < row.bucketStart <= win.hi && Contributes(row, x);
      RowsInWindow(rows, win, row);
    }
  }

  lemma ArrivalAgrees(w: World, row: EdgeRow, x: Series)
    requires WellFormed(x) && Tiled(w) && StoreAgrees(w, x)
    requires w.watermark.Some? ==> row.bucketStart > w.watermark.value
    ensures StoreAgrees(w.(rows := w.rows + [row]), x)
  {
    if w.watermark.Some? && Settled(w.rows + [row], w.watermark.value, x) {
      assert forall r | r in w.rows :: r in w.rows + [row];
      TilesBelow(w.windows, Origin(w), w.watermark.value);
      LaterRowsDoNotMatter(w.windows, w.rows, row, x, w.watermark.value);
    }
  }

  lemma {:induction false} WindowAgrees(w: World, win: Window, op: Op, x: Series)
    requires WellFormed(x) && StoreAgrees(w, x) && w.watermark == Some(win.lo) && win.lo < win.hi && op.Round?
    requires Orders(RowsIn(w.rows, win), op.series, op.edges)
    ensures StoreAgrees(AfterWindow(w, win, op), x)
  {
    hide WriteAll, Emitted;
    var rows := RowsIn(w.rows, win);
    CountedInWindow(w.rows, win, x);
    if op.failAfter.Some? {
      if Settled(w.rows, win.lo, x) {
        OtherSeriesUntouched(w.store, rows, op.series, op.edges, op.failAfter.value, x);
      }
    } else {
      assert (w.windows + [win])[..|w.windows|] == w.windows;
      if x in CountersOf(rows) {
        SeriesWritten(w.store, rows, op.series, op.edges, x);
      } else if Settled(w.rows, win.hi, x) {
        var out := Emitted(rows, op.series, op.edges);
        OtherSeriesUntouched(w.store, rows, op.series, op.edges, |out|, x);
        assert Prefix(out, |out|) == out;
      }
    }
  }

  lemma StepAgrees(lagSecs: nat, w: World, op: Op, x: Series)
    requires WellFormed(x) && Tiled(w) && StoreAgrees(w, x) && ValidStep(lagSecs, w, op)
    ensures StoreAgrees(Apply(lagSecs, w, op), x)
  {
    hide AfterWindow, Holds, LastValue, Orders;
    match op
    case Arrived(row) => ArrivalAgrees(w, row, x);
    case Round(now, series, edges, failAfter) =>
      if w.watermark.Some? && Upper(lagSecs, now) > w.watermark.value {
        WindowAgrees(w, Window(w.watermark.value, Upper(lagSecs, now)), op, x);
      } else if w.watermark.None? && failAfter.None? {
        NothingHeld(w, Upper(lagSecs, now), x);
      }
  }

  lemma NothingHeld(w: World, upper: int, x: Series)
    requires WellFormed(x) && w.store == map[] && w.windows == []
    ensures StoreAgrees(w.(watermark := Some(upper)), x)
  {
  }

  /**
    In every run, with rounds failing anywhere before their watermark is written, the store
    holds for each series none of whose rows still waits exactly what the last committed
    window with a row of it summed: as if no round had ever failed.
   */
  lemma {:induction false} StoreHoldsCommitted(lagSecs: nat, ops: seq<Op>, x: Series)
    requires WellFormed(x) && ValidRun(lagSecs, ops)
    ensures StoreAgrees(Run(lagSecs, ops), x)
  {
    if ops != [] {
      StoreHoldsCommitted(lagSecs, ops[..|ops| - 1], x);
      WindowsTile(lagSecs, ops[..|ops| - 1]);
      StepAgrees(lagSecs, Run(lagSecs, ops[..|ops| - 1]), ops[|ops| - 1], x);
    }
  }

  // ---------------------------------------------------------------- when a committed minute is complete

  // The minute of a series: from its bucket to the next one.
  ghost predicate Aligned(x: Series) { x.edge.bucket % MINUTE_MICROS == 0 }

  function Boundary(x: Series): Window { Window(x.edge.bucket - 1, x.edge.bucket) }

  function Interior(x: Series): Window { Window(x.edge.bucket, x.edge.bucket + MINUTE_MICROS - 1) }

  lemma ContributesInMinute(row: EdgeRow, x: Series)
    requires Aligned(x) && Contributes(row, x)
    ensures x.edge.bucket <= row.bucketStart < x.edge.bucket + MINUTE_MICROS
  {
  }

  // A window that reaches past the minute sums its interior, and its first microsecond too if it starts before.
  lemma {:induction false} WindowSums(rows: seq<EdgeRow>, win: Window, x: Series)
    requires Aligned(x) && win.lo <= x.edge.bucket && win.hi >= x.edge.bucket + MINUTE_MICROS - 1
    ensures SumWeight(RowsIn(rows, win), x)
         == SumWeight(RowsIn(rows, Interior(x)), x)
            + if win.lo < x.edge.bucket then SumWeight(RowsIn(rows, Boundary(x)), x) else 0
  {
    if rows != [] {
      WindowSums(rows[..|rows| - 1], win, x);
      RowInWindowSum(rows, win, x);
      RowInWindowSum(rows, Interior(x), x);
      RowInWindowSum(rows, Boundary(x), x);
    }
  }

  lemma RowInWindowSum(rows: seq<EdgeRow>, win: Window, x: Series)
    requires rows != []
    ensures SumWeight(RowsIn(rows, win), x)
         == SumWeight(RowsIn(rows[..|rows| - 1], win), x)
            + if win.lo < rows[|rows| - 1].bucketStart <= win.hi then Weight(rows[|rows| - 1], x) else 0
  {
    var before, last := RowsIn(rows[..|rows| - 1], win), rows[|rows| - 1];
    assert (before + [last])[..|before|] == before;
    assert before + [] == before;
  }

  lemma {:induction false} AllRowsSum(rows: seq<EdgeRow>, x: Series)
    requires Aligned(x)
    ensures SumWeight(rows, x) == SumWeight(RowsIn(rows, Interior(x)), x) + SumWeight(RowsIn(rows, Boundary(x)), x)
  {
    if rows != [] {
      AllRowsSum(rows[..|rows| - 1], x);
      RowInWindowSum(rows, Interior(x), x);
      RowInWindowSum(rows, Boundary(x), x);
    }
  }

  lemma {:induction false} WindowsOrdered(windows: seq<Window>, from: int, to: int, i: nat, j: nat)
    requires Tiles(windows, from, to) && i < j < |windows|
    ensures windows[i].hi <= windows[j].lo
    decreases j - i
  {
    if i + 1 < j {
      WindowsOrdered(windows, from, to, i, j - 1);
      assert windows[j - 1].hi == windows[j].lo;
    }
  }

  lemma {:induction false} WindowOf(windows: seq<Window>, from: int, to: int, m: int) returns (i: nat)
    requires Tiles(windows, from, to) && from <= m < to
    ensures i < |windows| && windows[i].lo <= m < windows[i].hi
    ensures i > 0 ==> windows[i - 1].hi == windows[i].lo
  {
    i := 0;
    while windows[i].hi <= m
      invariant i < |windows| && windows[i].lo <= m
      invariant i > 0 ==> windows[i - 1].hi == windows[i].lo
      decreases |windows| - i
    {
      i := i + 1;
    }
  }

  lemma {:induction false} NotCountedLater(rows: seq<EdgeRow>, win: Window, x: Series)
    requires Aligned(x) && win.lo >= x.edge.bucket + MINUTE_MICROS
    ensures x !in CountersOf(RowsIn(rows, win))
  {
    hide CountersOf;
    CountedInWindow(rows, win, x);
    forall row | row in rows && Contributes(row, x) ensures row.bucketStart < win.lo { ContributesInMinute(row, x); }
  }

  // Windows after the minute see nothing of it.
  lemma {:induction false} LaterWindowsIgnore(windows: seq<Window>, rows: seq<EdgeRow>, x: Series, k: nat)
    requires Aligned(x) && k <= |windows| && forall j | k <= j < |windows| ::
             windows[j].lo >= x.edge.bucket + MINUTE_MICROS
    ensures LastValue(windows, rows, x) == LastValue(windows[..k], rows, x)
    decreases |windows|
  {
    hide CountersOf, SumWeight;
    if k < |windows| {
      var n := |windows| - 1;
      NotCountedLater(rows, windows[n], x);
      LaterWindowsIgnore(windows[..n], rows, x, k);
      assert windows[..n][..k] == windows[..k];
    } else {
      assert windows[..k] == windows;
    }
  }

  ghost predicate CutAt(windows: seq<Window>, m: int) {
    exists j :: 0 <= j < |windows| && windows[j].lo == m
  }

  // Rows of the series exactly on its minute, and rows inside it.
  ghost predicate HasBoundary(rows: seq<EdgeRow>, x: Series) { x in CountersOf(RowsIn(rows, Boundary(x))) }

  ghost predicate HasInterior(rows: seq<EdgeRow>, x: Series) { x in CountersOf(RowsIn(rows, Interior(x))) }

  ghost predicate HasRows(rows: seq<EdgeRow>, x: Series) { exists row | row in rows :: Contributes(row, x) }

  lemma RowsAreBoundaryOrInterior(rows: seq<EdgeRow>, x: Series)
    requires Aligned(x)
    ensures HasRows(rows, x) <==> HasBoundary(rows, x) || HasInterior(rows, x)
  {
    CountedInWindow(rows, Boundary(x), x);
    CountedInWindow(rows, Interior(x), x);
    if HasRows(rows, x) {
      var row :| row in rows && Contributes(row, x);
      ContributesInMinute(row, x);
    }
  }

  lemma {:induction false} WindowCounts(rows: seq<EdgeRow>, win: Window, x: Series)
    requires Aligned(x) && win.lo <= x.edge.bucket
    ensures win.hi >= x.edge.bucket + MINUTE_MICROS - 1 ==>
              (x in CountersOf(RowsIn(rows, win))
               <==> HasInterior(rows, x) || (win.lo < x.edge.bucket && HasBoundary(rows, x)))
    ensures win.hi == x.edge.bucket && win.lo < x.edge.bucket
            ==> (x in CountersOf(RowsIn(rows, win)) <==> HasBoundary(rows, x))
  {
    hide CountersOf;
    CountedInWindow(rows, win, x);
    CountedInWindow(rows, Boundary(x), x);
    CountedInWindow(rows, Interior(x), x);
    forall row | row in rows && Contributes(row, x)
      ensures x.edge.bucket <= row.bucketStart < x.edge.bucket + MINUTE_MICROS
    {
      ContributesInMinute(row, x);
    }
  }

  lemma {:induction false} NothingCountsNothing(rows: seq<EdgeRow>, x: Series)
    requires x !in CountersOf(rows)
    ensures SumWeight(rows, x) == 0
  {
    SeriesHoldsItsRows(rows, x);
  }

  lemma {:induction false} BoundaryWindowSums(rows: seq<EdgeRow>, win: Window, x: Series)
    requires Aligned(x) && win.lo < x.edge.bucket == win.hi
    ensures SumWeight(RowsIn(rows, win), x) == SumWeight(RowsIn(rows, Boundary(x)), x)
  {
    if rows != [] {
      BoundaryWindowSums(rows[..|rows| - 1], win, x);
      RowInWindowSum(rows, win, x);
      RowInWindowSum(rows, Boundary(x), x);
    }
  }

  // What the windows committed since `from` make of one whole minute: a row exactly on `from` is in none.
  ghost function MinuteValue(windows: seq<Window>, from: int, rows: seq<EdgeRow>, x: Series): Option<nat> {
    if !HasRows(rows, x) || (from == x.edge.bucket && !HasInterior(rows, x)) then None
    else if CutAt(windows, x.edge.bucket) && HasInterior(rows, x) then Some(SumWeight(RowsIn(rows, Interior(x)), x))
    else Some(SumWeight(rows, x))
  }

  lemma {:induction false} CommittedMinute(windows: seq<Window>, from: int, to: int, rows: seq<EdgeRow>, x: Series)
    requires Aligned(x) && Tiles(windows, from, to) && from <= x.edge.bucket && x.edge.bucket + MINUTE_MICROS <= to
    ensures LastValue(windows, rows, x) == MinuteValue(windows, from, rows, x)
  {
    hide CountersOf, SumWeight, RowsIn, LastValue, HasRows, HasInterior, HasBoundary;
    var m := x.edge.bucket;
    var i := WindowOf(windows, from, to, m);
    AlignedAbove(m, windows[i].hi);
    forall j | i < j < |windows| ensures windows[j].lo >= m + MINUTE_MICROS { WindowsOrdered(windows, from, to, i, j); }
    assert CutAt(windows, m) <==> windows[i].lo == m by {
      if windows[i].lo != m {
        forall j | 0 <= j < i ensures windows[j].lo != m { WindowsOrdered(windows, from, to, j, i); }
      }
    }
    if from == m && i > 0 { WindowsOrdered(windows, from, to, 0, i); }
    LaterWindowsIgnore(windows, rows, x, i + 1);
    MinuteOfWindow(windows[..i + 1], from, rows, x);
    assert windows[..i + 1][i] == windows[i];
  }

  lemma AlignedAbove(m: int, hi: int)
    requires m % MINUTE_MICROS == 0 && hi % MINUTE_MICROS == 0 && m < hi
    ensures m + MINUTE_MICROS <= hi
  {
  }

  lemma {:induction false} MinuteOfWindow(windows: seq<Window>, from: int, rows: seq<EdgeRow>, x: Series)
    requires Aligned(x) && windows != [] && windows[0].lo == from <= x.edge.bucket
    requires windows[|windows| - 1].lo <= x.edge.bucket && windows[|windows| - 1].hi >= x.edge.bucket + MINUTE_MICROS
    requires |windows| > 1 ==> windows[|windows| - 2].lo < windows[|windows| - 2].hi == windows[|windows| - 1].lo
    requires from == x.edge.bucket ==> |windows| == 1
    ensures LastValue(windows, rows, x)
         == if !HasRows(rows, x) || (from == x.edge.bucket && !HasInterior(rows, x)) then None
            else if windows[|windows| - 1].lo == x.edge.bucket && HasInterior(rows, x)
              then Some(SumWeight(RowsIn(rows, Interior(x)), x))
            else Some(SumWeight(rows, x))
  {
    hide CountersOf, SumWeight, RowsIn;
    var n := |windows| - 1;
    var win := windows[n];
    WindowCounts(rows, win, x);
    WindowSums(rows, win, x);
    AllRowsSum(rows, x);
    RowsAreBoundaryOrInterior(rows, x);
    if x !in CountersOf(RowsIn(rows, win)) {
      NothingCountsNothing(RowsIn(rows, win), x);
      if HasRows(rows, x) && from < x.edge.bucket {
        // Only boundary rows, and they were in the window before.
        assert windows[..n][n - 1] == windows[n - 1];
        WindowCounts(rows, windows[n - 1], x);
        BoundaryWindowSums(rows, windows[n - 1], x);
      } else if !HasRows(rows, x) {
        NoRowsNoValue(windows[..n], rows, x);
      }
    }
    if !HasBoundary(rows, x) { NothingCountsNothing(RowsIn(rows, Boundary(x)), x); }
  }

  lemma {:induction false} NoRowsNoValue(windows: seq<Window>, rows: seq<EdgeRow>, x: Series)
    requires !HasRows(rows, x)
    ensures LastValue(windows, rows, x) == None
  {
    hide CountersOf, SumWeight;
    if windows != [] {
      NoRowsNoValue(windows[..|windows| - 1], rows, x);
      CountedInWindow(rows, windows[|windows| - 1], x);
    }
  }

  ghost predicate Committed(w: World, x: Series) {
    w.watermark.Some? && Origin(w) <= x.edge.bucket && x.edge.bucket + MINUTE_MICROS <= w.watermark.value
  }

  lemma CommittedIsSettled(w: World, x: Series)
    requires Aligned(x) && Committed(w, x)
    ensures Settled(w.rows, w.watermark.value, x)
  {
  }

  /**
    Replays do no harm: when no row of a series starts exactly on its minute, its point in a
    committed minute holds the minute's full sum (and there is none without rows), however
    many rounds failed on the way.
   */
  lemma {:induction false} CommittedMinuteIsComplete(lagSecs: nat, ops: seq<Op>, x: Series)
    requires WellFormed(x) && Aligned(x) && ValidRun(lagSecs, ops) && Committed(Run(lagSecs, ops), x)
    requires !HasBoundary(Run(lagSecs, ops).rows, x)
    ensures var w := Run(lagSecs, ops);
            Holds(w.store, x, if HasRows(w.rows, x) then Some(SumWeight(w.rows, x)) else None)
  {
    hide LastValue, SumWeight, RowsIn, CountersOf;
    var w := Run(lagSecs, ops);
    WindowsTile(lagSecs, ops);
    StoreHoldsCommitted(lagSecs, ops, x);
    CommittedIsSettled(w, x);
    CommittedMinute(w.windows, Origin(w), w.watermark.value, w.rows, x);
    RowsAreBoundaryOrInterior(w.rows, x);
    AllRowsSum(w.rows, x);
    NothingCountsNothing(RowsIn(w.rows, Boundary(x)), x);
  }

  ghost predicate OverwritesBoundary(w: World, x: Series) {
    CutAt(w.windows, x.edge.bucket) && HasInterior(w.rows, x) && SumWeight(RowsIn(w.rows, Boundary(x)), x) > 0
  }

  ghost predicate SkipsOrigin(w: World, x: Series) {
    Origin(w) == x.edge.bucket && !HasInterior(w.rows, x)
  }

  /**
    With rows on the minute, the point is still the full sum except in exactly two cases. A round
    ended on that minute, the series has rows inside it, and those on it count for something: the
    part on the minute was written first and overwritten. Or the first watermark was that minute
    and there is nothing inside it: the rows on it are in no window, and there is no point.
   */
  lemma {:induction false} CommittedMinuteCompleteIff(lagSecs: nat, ops: seq<Op>, x: Series)
    requires WellFormed(x) && Aligned(x) && ValidRun(lagSecs, ops) && Committed(Run(lagSecs, ops), x)
    requires HasRows(Run(lagSecs, ops).rows, x)
    ensures var w := Run(lagSecs, ops);
            Holds(w.store, x, Some(SumWeight(w.rows, x)))
            <==> !OverwritesBoundary(w, x) && !SkipsOrigin(w, x)
  {
    hide LastValue, SumWeight, RowsIn, CountersOf;
    var w := Run(lagSecs, ops);
    WindowsTile(lagSecs, ops);
    StoreHoldsCommitted(lagSecs, ops, x);
    CommittedIsSettled(w, x);
    CommittedMinute(w.windows, Origin(w), w.watermark.value, w.rows, x);
    AllRowsSum(w.rows, x);
  }

  // ---------------------------------------------------------------- a run that loses a boundary row

  lemma {:induction false} EnumerationExists<T(!new)>(keys: set<T>) returns (order: seq<T>)
    ensures Enumerates(order, keys)
    decreases |keys|
  {
    if keys == {} {
      order := [];
    } else {
      var k :| k in keys;
      var rest := EnumerationExists(keys - {k});
      order := rest + [k];
    }
  }

  // A complete round ending at the aligned time `upper`.
  lemma RoundTo(lagSecs: nat, rows: seq<EdgeRow>, upper: int) returns (op: Op)
    requires upper % MINUTE_MICROS == 0
    ensures op.Round? && op.failAfter == None && Upper(lagSecs, op.now) == upper
    ensures Orders(rows, op.series, op.edges)
  {
    AggregatedSeriesAreWellFormed(rows);
    var series := EnumerationExists(CountersOf(rows).Keys);
    var edges := EnumerationExists(DurationsOf(rows).Keys);
    op := Round(upper + lagSecs * 1_000_000, series, edges, None);
  }

  lemma {:induction false} RunSnoc(lagSecs: nat, ops: seq<Op>, op: Op)
    ensures Run(lagSecs, ops + [op]) == Apply(lagSecs, Run(lagSecs, ops), op)
    ensures ValidRun(lagSecs, ops + [op]) <==> ValidRun(lagSecs, ops) && ValidStep(lagSecs, Run(lagSecs, ops), op)
  {
  }

  lemma ArriveAndProcess(lagSecs: nat, ops: seq<Op>, row: EdgeRow, upper: int) returns (longer: seq<Op>)
    requires ValidRun(lagSecs, ops) && Run(lagSecs, ops).watermark.Some? && upper % MINUTE_MICROS == 0
    requires Run(lagSecs, ops).watermark.value < row.bucketStart <= upper
    ensures ValidRun(lagSecs, longer)
    ensures var w, after := Run(lagSecs, ops), Run(lagSecs, longer);
            && after.rows == w.rows + [row] && after.watermark == Some(upper)
            && after.windows == w.windows + [Window(w.watermark.value, upper)]
  {
    hide AfterWindow;
    RunSnoc(lagSecs, ops, Arrived(row));
    longer := OneMoreRound(lagSecs, ops + [Arrived(row)], upper);
  }

  lemma FirstRound(lagSecs: nat, upper: int) returns (ops: seq<Op>)
    requires upper % MINUTE_MICROS == 0
    ensures ValidRun(lagSecs, ops) && Run(lagSecs, ops) == START.(watermark := Some(upper))
  {
    var op := RoundTo(lagSecs, [], upper);
    RunSnoc(lagSecs, [], op);
    assert [] + [op] == [op];
    ops := [op];
  }

  lemma {:induction false} SingleRow(row: EdgeRow, x: Series)
    ensures SumWeight([row], x) == Weight(row, x)
    ensures x in CountersOf([row]) <==> Contributes(row, x)
  {
    SeriesHoldsItsRows([row], x);
    assert [row][..0] == [];
    assert row in [row];
  }

  /**
    Two rows of one edge and port in the same minute, the first exactly on it: processed minute
    by minute without any failure, the point ends up with the second row's connections only.
   */
  lemma BoundaryRowIsLost(lagSecs: nat, a: EdgeRow, b: EdgeRow) returns (ops: seq<Op>)
    requires a.bucketStart % MINUTE_MICROS == 0 && a.bucketStart < b.bucketStart < a.bucketStart + MINUTE_MICROS
    requires a.src == b.src && a.dst == b.dst && a.dstPort == b.dstPort && a.connections > 0
    ensures ValidRun(lagSecs, ops) && Run(lagSecs, ops).rows == [a, b]
    ensures var x := Series(Connections, EdgeOf(a), Port(a.dstPort));
            && Committed(Run(lagSecs, ops), x)
            && Holds(Run(lagSecs, ops).store, x, Some(b.connections))
            && SumWeight([a, b], x) == a.connections + b.connections
  {
    hide *;
    var m := a.bucketStart;
    ops := TwoRounds(lagSecs, a, b);
    BoundaryRun(lagSecs, ops, a, b, Series(Connections, EdgeOf(a), Port(a.dstPort)));
  }

  lemma TwoRounds(lagSecs: nat, a: EdgeRow, b: EdgeRow) returns (ops: seq<Op>)
    requires a.bucketStart % MINUTE_MICROS == 0 && a.bucketStart < b.bucketStart < a.bucketStart + MINUTE_MICROS
    ensures ValidRun(lagSecs, ops)
    ensures var w, m := Run(lagSecs, ops), a.bucketStart;
            && w.rows == [a, b] && w.watermark == Some(m + MINUTE_MICROS)
            && w.windows == [Window(m - MINUTE_MICROS, m), Window(m, m + MINUTE_MICROS)]
  {
    hide Apply, ValidStep;
    var m := a.bucketStart;
    var first := FirstRound(lagSecs, m - MINUTE_MICROS);
    var second := ArriveAndProcess(lagSecs, first, a, m);
    assert [] + [a] == [a] && [] + [Window(m - MINUTE_MICROS, m)] == [Window(m - MINUTE_MICROS, m)];
    ops := ArriveAndProcess(lagSecs, second, b, m + MINUTE_MICROS);
    assert [a] + [b] == [a, b];
  }

  lemma {:induction false} BoundaryRun(lagSecs: nat, ops: seq<Op>, a: EdgeRow, b: EdgeRow, x: Series)
    requires a.bucketStart % MINUTE_MICROS == 0 && a.bucketStart < b.bucketStart < a.bucketStart + MINUTE_MICROS
    requires a.src == b.src && a.dst == b.dst && a.dstPort == b.dstPort
             && x == Series(Connections, EdgeOf(a), Port(a.dstPort))
    requires ValidRun(lagSecs, ops)
    requires var w, m := Run(lagSecs, ops), a.bucketStart;
             && w.rows == [a, b] && w.watermark == Some(m + MINUTE_MICROS)
             && w.windows == [Window(m - MINUTE_MICROS, m), Window(m, m + MINUTE_MICROS)]
    ensures Committed(Run(lagSecs, ops), x)
    ensures Holds(Run(lagSecs, ops).store, x, Some(b.connections))
    ensures SumWeight([a, b], x) == a.connections + b.connections
  {
    hide LastValue, SumWeight, Run, ValidRun;
    var w := Run(lagSecs, ops);
    StoreHoldsCommitted(lagSecs, ops, x);
    CommittedIsSettled(w, x);
    SplitMinute(a, b, w.windows, x);
  }

  /** A row exactly on the minute the first round stops at is in no window: its minute is committed without a point. */
  lemma OriginRowIsLost(lagSecs: nat, a: EdgeRow) returns (ops: seq<Op>)
    requires a.bucketStart % MINUTE_MICROS == 0
    ensures ValidRun(lagSecs, ops) && Run(lagSecs, ops).rows == [a]
    ensures var x := Series(Connections, EdgeOf(a), Port(a.dstPort));
            Committed(Run(lagSecs, ops), x) && Holds(Run(lagSecs, ops).store, x, None)
                && SumWeight([a], x) == a.connections
  {
    hide AfterWindow, Emitted, CountersOf, SumWeight, LastValue;
    var m, x := a.bucketStart, Series(Connections, EdgeOf(a), Port(a.dstPort));
    var one := [Arrived(a)];
    RunSnoc(lagSecs, [], Arrived(a));
    assert [] + one == one && [] + [a] == [a];
    var first := RoundTo(lagSecs, [], m);
    RunSnoc(lagSecs, one, first);
    assert Run(lagSecs, one + [first]) == START.(rows := [a], watermark := Some(m));
    ops := OneMoreRound(lagSecs, one + [first], m + MINUTE_MICROS);
    SingleRow(a, x);
    assert Aligned(x);
    CountedInWindow([a], Interior(x), x);
    CountedInWindow([a], Window(m, m + MINUTE_MICROS), x);
    var w := Run(lagSecs, ops);
    StoreHoldsCommitted(lagSecs, ops, x);
    CommittedIsSettled(w, x);
    WindowsTile(lagSecs, ops);
    CommittedMinute(w.windows, Origin(w), w.watermark.value, w.rows, x);
  }

  lemma OneMoreRound(lagSecs: nat, ops: seq<Op>, upper: int) returns (longer: seq<Op>)
    requires ValidRun(lagSecs, ops) && Run(lagSecs, ops).watermark.Some? && upper % MINUTE_MICROS == 0
    requires Run(lagSecs, ops).watermark.value < upper
    ensures ValidRun(lagSecs, longer)
    ensures var w, after := Run(lagSecs, ops), Run(lagSecs, longer);
            && after.rows == w.rows && after.watermark == Some(upper)
            && after.windows == w.windows + [Window(w.watermark.value, upper)]
  {
    hide WriteAll, Emitted;
    var w := Run(lagSecs, ops);
    var op := RoundTo(lagSecs, RowsIn(w.rows, Window(w.watermark.value, upper)), upper);
    RunSnoc(lagSecs, ops, op);
    longer := ops + [op];
  }

  lemma {:induction false} SplitMinute(a: EdgeRow, b: EdgeRow, windows: seq<Window>, x: Series)
    requires a.bucketStart % MINUTE_MICROS == 0 && a.bucketStart < b.bucketStart < a.bucketStart + MINUTE_MICROS
    requires a.src == b.src && a.dst == b.dst && a.dstPort == b.dstPort
    requires x == Series(Connections, EdgeOf(a), Port(a.dstPort))
    requires |windows| == 2 && windows[1] == Window(a.bucketStart, a.bucketStart + MINUTE_MICROS)
    ensures LastValue(windows, [a, b], x) == Some(b.connections)
    ensures SumWeight([a, b], x) == a.connections + b.connections
  {
    hide CountersOf, SumWeight;
    assert [a, b][..1] == [a] && [a][..0] == [];
    assert RowsIn([a], windows[1]) == [];
    assert RowsIn([a, b], windows[1]) == [b];
    SingleRow(b, x);
    SumOfTwo(a, b, x);
  }

  lemma {:induction false} SumOfTwo(a: EdgeRow, b: EdgeRow, x: Series)
    ensures SumWeight([a, b], x) == Weight(a, x) + Weight(b, x)
  {
    SingleRow(a, x);
    assert [a, b][..1] == [a];
  }

  // ---------------------------------------------------------------- the aggregator itself

  class Aggregator {
    const lagSecs: nat
    var watermark: Option<int>
    var store: Store
    ghost var windows: seq<Window>

    constructor (lagSecs: nat)
      ensures this.lagSecs == lagSecs && View([]) == START
    {
      this.lagSecs := lagSecs;
      watermark, store, windows := None, map[], [];
    }

    ghost function View(rows: seq<EdgeRow>): World
      reads this
    {
      World(rows, watermark, store, windows)
    }

    /** One round over the stored rows, failing after `failAfter` point writes if at all: a valid step of a run. */
    method RunOnce(rows: seq<EdgeRow>, now: int, failAfter: Option<nat>) returns (written: nat, ghost op: Op)
      modifies this
      ensures op.Round? && op.now == now && op.failAfter == failAfter
      ensures ValidStep(lagSecs, old(View(rows)), op)
      ensures View(rows) == Apply(lagSecs, old(View(rows)), op)
      ensures MovesToLag(old(watermark), watermark, lagSecs, now, failAfter)
    {
      hide MovesToLag, MinuteBeforeLag;
      MovesToUpper(watermark, lagSecs, now, failAfter);
      var upper := FloorMinute(now - lagSecs * 1_000_000);
      written := 0;
      op := Round(now, [], [], failAfter);
      if watermark.None? {
        if failAfter.None? { watermark := Some(upper); }
        return;
      }
      if upper <= watermark.value { return; }
      var loaded := LoadRows(rows, watermark.value, upper);
      var out, series, edges := Aggregate(loaded);
      op := Round(now, series, edges, failAfter);
      written := WritePoints(out, failAfter);
      if failAfter.Some? { return; }
      windows := windows + [Window(watermark.value, upper)];
      watermark := Some(upper);
    }

    method WritePoints(out: seq<Point>, failAfter: Option<nat>) returns (written: nat)
      modifies this`store
      ensures written == (if failAfter.Some? && failAfter.value <= |out| then failAfter.value else |out|)
      ensures store == WriteAll(old(store), if failAfter.Some? then Prefix(out, failAfter.value) else out)
    {
      written := 0;
      while written < |out| && !(failAfter.Some? && failAfter.value == written)
        invariant written <= |out| && (failAfter.Some? && failAfter.value <= |out| ==> written <= failAfter.value)
        invariant store == WriteAll(old(store), out[..written])
      {
        assert out[..written + 1][..written] == out[..written];
        store := store[out[written].id := out[written].value];
        written := written + 1;
      }
      assert out[..|out|] == out;
    }
  }

  method LoadRows(rows: seq<EdgeRow>, fromExclusive: int, toInclusive: int) returns (loaded: seq<EdgeRow>)
    ensures loaded == RowsIn(rows, Window(fromExclusive, toInclusive))
  {
    loaded := [];
    for i := 0 to |rows|
      invariant loaded == RowsIn(rows[..i], Window(fromExclusive, toInclusive))
    {
      assert rows[..i + 1][..i] == rows[..i];
      if rows[i].bucketStart > fromExclusive && rows[i].bucketStart <= toInclusive {
        loaded := loaded + [rows[i]];
      }
    }
    assert rows[..|rows|] == rows;
  }
}
