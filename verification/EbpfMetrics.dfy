/**
  The points derived from one window of eBPF edge rows
  (crates/dataplane-apm/src/ebpf_metrics.rs): what is conserved, which points
  share an identity, and what that costs in a store that overwrites.
 */
module EbpfMetrics {
  import opened Wrappers
  import opened Totals
  import opened LatencyP95

  const MINUTE_MICROS: nat := 60_000_000

  datatype EdgeRow = EdgeRow(bucketStart: int, src: string, dst: string, srcIp: string, dstIp: string, dstPort: int,
                             protocol: string, connections: nat, bytesSent: nat, bytesRecv: nat,
                             durationSum: nat, durationMax: nat, retrans: nat, resets: nat,
                             failures: nat, failureReason: string, hist: Histogram)

  // One (minute, source, target): what the duration points and the conservation laws range over.
  datatype Edge = Edge(bucket: int, src: string, dst: string)
  datatype Metric = Connections | Retrans | Resets | Failures | Bytes
  datatype Direction = Sent | Received
  datatype Detail =
    | NoDetail
    | Port(port: int)
    | Reason(reason: string)
    | Flow(srcIp: string, dstIp: string, dstPort: int, protocol: string, direction: Direction)

  // The key of one counter; the source keeps a map per metric.
  datatype Series = Series(metric: Metric, edge: Edge, detail: Detail)
  datatype DurationAgg = DurationAgg(sum: nat, max: nat, hist: Histogram)

  type Counters = map<Series, nat>
  type Durations = map<Edge, DurationAgg>

  function FloorMinute(ts: int): int { ts - ts % MINUTE_MICROS }

  function EdgeOf(row: EdgeRow): Edge { Edge(FloorMinute(row.bucketStart), row.src, row.dst) }

  function ReasonOf(row: EdgeRow): string { if row.failureReason == "" then "other" else row.failureReason }

  function FlowOf(row: EdgeRow, direction: Direction): Detail {
    Flow(row.srcIp, row.dstIp, row.dstPort, row.protocol, direction)
  }

  // ---------------------------------------------------------------- accumulation

  function ValueAt(c: Counters, x: Series): nat { if x in c then c[x] else 0 }

  // Adds `n` to a series; a zero creates no entry unless `always`.
  function Bump(c: Counters, x: Series, n: nat, always: bool): Counters {
    if n > 0 || always then c[x := ValueAt(c, x) + n] else c
  }

  function AddRow(c: Counters, row: EdgeRow): Counters {
    var e := EdgeOf(row);
    var c1 := Bump(c, Series(Connections, e, Port(row.dstPort)), row.connections, true);
    var c2 := Bump(c1, Series(Retrans, e, NoDetail), row.retrans, false);
    var c3 := Bump(c2, Series(Resets, e, NoDetail), row.resets, false);
    var c4 := Bump(c3, Series(Failures, e, Reason(ReasonOf(row))), row.failures, false);
    var c5 := Bump(c4, Series(Bytes, e, FlowOf(row, Sent)), row.bytesSent, false);
    Bump(c5, Series(Bytes, e, FlowOf(row, Received)), row.bytesRecv, false)
  }

  function AddDuration(d: Durations, row: EdgeRow): Durations {
    var e := EdgeOf(row);
    var agg := if e in d then d[e] else DurationAgg(0, 0, []);
    d[e := DurationAgg(agg.sum + row.durationSum, if agg.max >= row.durationMax then agg.max else row.durationMax,
                       Add(agg.hist, row.hist))]
  }

  function CountersOf(rows: seq<EdgeRow>): Counters {
    if rows == [] then map[] else AddRow(CountersOf(rows[..|rows| - 1]), rows[|rows| - 1])
  }

  function DurationsOf(rows: seq<EdgeRow>): Durations {
    if rows == [] then map[] else AddDuration(DurationsOf(rows[..|rows| - 1]), rows[|rows| - 1])
  }

  method AggregateRows(rows: seq<EdgeRow>) returns (counters: Counters, durations: Durations)
    ensures counters == CountersOf(rows) && durations == DurationsOf(rows)
  {
    counters, durations := map[], map[];
    for i := 0 to |rows|
      invariant counters == CountersOf(rows[..i]) && durations == DurationsOf(rows[..i])
    {
      assert rows[..i + 1][..i] == rows[..i];
      counters := CountRow(counters, rows[i]);
      durations := AddDurationOf(durations, rows[i]);
    }
    assert rows[..|rows|] == rows;
  }

  method CountRow(c: Counters, row: EdgeRow) returns (r: Counters)
    ensures r == AddRow(c, row)
  {
    hide Bump;
    var e := Edge(FloorMinute(row.bucketStart), row.src, row.dst);
    r := Tally(c, Series(Connections, e, Port(row.dstPort)), row.connections, true);
    r := Tally(r, Series(Retrans, e, NoDetail), row.retrans, false);
    r := Tally(r, Series(Resets, e, NoDetail), row.resets, false);
    var reason := if row.failureReason == "" then "other" else row.failureReason;
    r := Tally(r, Series(Failures, e, Reason(reason)), row.failures, false);
    r := Tally(r, Series(Bytes, e, FlowOf(row, Sent)), row.bytesSent, false);
    r := Tally(r, Series(Bytes, e, FlowOf(row, Received)), row.bytesRecv, false);
  }

  method Tally(c: Counters, x: Series, n: nat, always: bool) returns (r: Counters)
    ensures r == Bump(c, x, n, always)
  {
    r := c;
    if n > 0 || always {
      if x !in r { r := r[x := 0]; }
      r := r[x := r[x] + n];
    }
  }

  method AddDurationOf(d: Durations, row: EdgeRow) returns (r: Durations)
    ensures r == AddDuration(d, row)
  {
    var e := EdgeOf(row);
    // A first entry starts from zeros as long as the row's own histogram.
    var agg := if e in d then d[e] else DurationAgg(0, 0, seq(|row.hist|, _ => 0));
    var hist := Accumulate(agg.hist, row.hist);
    assert e !in d ==> hist == Add([], row.hist);
    r := d[e := DurationAgg(agg.sum + row.durationSum, if agg.max >= row.durationMax then agg.max else row.durationMax,
                            hist)];
  }

  // ---------------------------------------------------------------- what a series holds

  // What one row adds to one series.
  function Weight(row: EdgeRow, x: Series): nat {
    if EdgeOf(row) != x.edge then 0
    else match x.metric
      case Connections => if x.detail == Port(row.dstPort) then row.connections else 0
      case Retrans => if x.detail == NoDetail then row.retrans else 0
      case Resets => if x.detail == NoDetail then row.resets else 0
      case Failures => if x.detail == Reason(ReasonOf(row)) then row.failures else 0
      case Bytes =>
        if x.detail == FlowOf(row, Sent) then row.bytesSent
        else if x.detail == FlowOf(row, Received) then row.bytesRecv
        else 0
  }

  predicate Contributes(row: EdgeRow, x: Series) {
    Weight(row, x) > 0 || x == Series(Connections, EdgeOf(row), Port(row.dstPort))
  }

  function SumWeight(rows: seq<EdgeRow>, x: Series): nat {
    if rows == [] then 0 else SumWeight(rows[..|rows| - 1], x) + Weight(rows[|rows| - 1], x)
  }

  lemma BumpAt(c: Counters, x: Series, n: nat, always: bool, y: Series)
    ensures ValueAt(Bump(c, x, n, always), y) == ValueAt(c, y) + if x == y then n else 0
    ensures y in Bump(c, x, n, always) <==> y in c || (x == y && (n > 0 || always))
  {
  }

  lemma AddRowAt(c: Counters, row: EdgeRow, y: Series)
    ensures ValueAt(AddRow(c, row), y) == ValueAt(c, y) + Weight(row, y)
    ensures y in AddRow(c, row) <==> y in c || Contributes(row, y)
  {
    hide Bump, ValueAt;
    var e := EdgeOf(row);
    var c1 := Bump(c, Series(Connections, e, Port(row.dstPort)), row.connections, true);
    var c2 := Bump(c1, Series(Retrans, e, NoDetail), row.retrans, false);
    var c3 := Bump(c2, Series(Resets, e, NoDetail), row.resets, false);
    var c4 := Bump(c3, Series(Failures, e, Reason(ReasonOf(row))), row.failures, false);
    var c5 := Bump(c4, Series(Bytes, e, FlowOf(row, Sent)), row.bytesSent, false);
    BumpAt(c, Series(Connections, e, Port(row.dstPort)), row.connections, true, y);
    BumpAt(c1, Series(Retrans, e, NoDetail), row.retrans, false, y);
    BumpAt(c2, Series(Resets, e, NoDetail), row.resets, false, y);
    BumpAt(c3, Series(Failures, e, Reason(ReasonOf(row))), row.failures, false, y);
    BumpAt(c4, Series(Bytes, e, FlowOf(row, Sent)), row.bytesSent, false, y);
    BumpAt(c5, Series(Bytes, e, FlowOf(row, Received)), row.bytesRecv, false, y);
  }

  /** Each series holds the sum of what the rows of its minute, edge and detail add, and exists only if one does. */
  lemma {:induction false} SeriesHoldsItsRows(rows: seq<EdgeRow>, x: Series)
    ensures ValueAt(CountersOf(rows), x) == SumWeight(rows, x)
    ensures x in CountersOf(rows) <==> exists row | row in rows :: Contributes(row, x)
  {
    if rows != [] {
      var init, last := rows[..|rows| - 1], rows[|rows| - 1];
      SeriesHoldsItsRows(init, x);
      AddRowAt(CountersOf(init), last, x);
      assert forall row :: row in rows <==> row in init || row == last;
    }
  }

  // ---------------------------------------------------------------- conservation

  function Amount(row: EdgeRow, metric: Metric): nat {
    match metric
    case Connections => row.connections
    case Retrans => row.retrans
    case Resets => row.resets
    case Failures => row.failures
    case Bytes => row.bytesSent + row.bytesRecv
  }

  // The rescan of the rows: the amounts of one edge in one minute.
  function EdgeTotal(rows: seq<EdgeRow>, metric: Metric, e: Edge): nat {
    if rows == [] then 0
    else
      EdgeTotal(rows[..|rows| - 1], metric, e)
      + if EdgeOf(rows[|rows| - 1]) == e then Amount(rows[|rows| - 1], metric) else 0
  }

  method ConnectionsTotal(rows: seq<EdgeRow>, src: string, dst: string, bucket: int) returns (total: nat)
    ensures total == EdgeTotal(rows, Connections, Edge(bucket, src, dst))
  {
    total := 0;
    for i := 0 to |rows|
      invariant total == EdgeTotal(rows[..i], Connections, Edge(bucket, src, dst))
    {
      assert rows[..i + 1][..i] == rows[..i];
      if rows[i].src == src && rows[i].dst == dst && FloorMinute(rows[i].bucketStart) == bucket {
        total := total + rows[i].connections;
      }
    }
    assert rows[..|rows|] == rows;
  }

  function SeriesMeasure(metric: Metric, e: Edge): (Series, nat) -> nat {
    (x: Series, n: nat) => if x.metric == metric && x.edge == e then n else 0
  }

  ghost function SeriesSum(c: Counters, metric: Metric, e: Edge): nat {
    MapFold<Series, nat>(Calls, c, SeriesMeasure(metric, e))
  }

  lemma BumpSum(c: Counters, x: Series, n: nat, always: bool, metric: Metric, e: Edge)
    ensures SeriesSum(Bump(c, x, n, always), metric, e)
         == SeriesSum(c, metric, e) + if x.metric == metric && x.edge == e then n else 0
  {
    FoldUpdate<Series, nat>(Calls, c, SeriesMeasure(metric, e), x, ValueAt(c, x) + n,
                            if x.metric == metric && x.edge == e then n else 0);
  }

  lemma AddRowSum(c: Counters, row: EdgeRow, metric: Metric, at: Edge)
    ensures SeriesSum(AddRow(c, row), metric, at) == SeriesSum(c, metric, at)
            + if EdgeOf(row) == at then Amount(row, metric) else 0
  {
    hide Bump, SeriesSum;
    var e := EdgeOf(row);
    var c1 := Bump(c, Series(Connections, e, Port(row.dstPort)), row.connections, true);
    var c2 := Bump(c1, Series(Retrans, e, NoDetail), row.retrans, false);
    var c3 := Bump(c2, Series(Resets, e, NoDetail), row.resets, false);
    var c4 := Bump(c3, Series(Failures, e, Reason(ReasonOf(row))), row.failures, false);
    var c5 := Bump(c4, Series(Bytes, e, FlowOf(row, Sent)), row.bytesSent, false);
    BumpSum(c, Series(Connections, e, Port(row.dstPort)), row.connections, true, metric, at);
    BumpSum(c1, Series(Retrans, e, NoDetail), row.retrans, false, metric, at);
    BumpSum(c2, Series(Resets, e, NoDetail), row.resets, false, metric, at);
    BumpSum(c3, Series(Failures, e, Reason(ReasonOf(row))), row.failures, false, metric, at);
    BumpSum(c4, Series(Bytes, e, FlowOf(row, Sent)), row.bytesSent, false, metric, at);
    BumpSum(c5, Series(Bytes, e, FlowOf(row, Received)), row.bytesRecv, false, metric, at);
  }

  /**
    Nothing is lost or counted twice: per minute, source and target, the series of a metric
    (over ports, reasons, flows and directions) sum to what a rescan of the rows finds.
   */
  lemma {:induction false} AggregationConserves(rows: seq<EdgeRow>, metric: Metric, e: Edge)
    ensures SeriesSum(CountersOf(rows), metric, e) == EdgeTotal(rows, metric, e)
  {
    if rows == [] {
      FoldZero<Series, nat>(Calls, CountersOf(rows), SeriesMeasure(metric, e));
    } else {
      var init := rows[..|rows| - 1];
      AggregationConserves(init, metric, e);
      AddRowSum(CountersOf(init), rows[|rows| - 1], metric, e);
    }
  }

  // ---------------------------------------------------------------- durations

  function RowsOf(rows: seq<EdgeRow>, e: Edge): seq<EdgeRow> {
    if rows == [] then []
    else RowsOf(rows[..|rows| - 1], e) + if EdgeOf(rows[|rows| - 1]) == e then [rows[|rows| - 1]] else []
  }

  function DurationTotal(rows: seq<EdgeRow>): nat {
    if rows == [] then 0 else DurationTotal(rows[..|rows| - 1]) + rows[|rows| - 1].durationSum
  }

  function HistsOf(rows: seq<EdgeRow>): seq<Histogram> {
    if rows == [] then [] else HistsOf(rows[..|rows| - 1]) + [rows[|rows| - 1].hist]
  }

  ghost predicate IsLongest(m: nat, rows: seq<EdgeRow>) {
    (forall row | row in rows :: row.durationMax <= m) && (m == 0 || exists row | row in rows :: row.durationMax == m)
  }

  ghost predicate SumsDurations(agg: DurationAgg, rows: seq<EdgeRow>) {
    agg.sum == DurationTotal(rows) && IsLongest(agg.max, rows) && agg.hist == MergeAll(HistsOf(rows))
  }

  /** The duration entry of an edge sums its rows, keeps the longest and merges their histograms. */
  lemma {:induction false} DurationsSumTheirRows(rows: seq<EdgeRow>, e: Edge)
    ensures e in DurationsOf(rows) <==> RowsOf(rows, e) != []
    ensures e in DurationsOf(rows) ==> SumsDurations(DurationsOf(rows)[e], RowsOf(rows, e))
  {
    hide SumsDurations, MergeAll, Add, IsLongest, DurationTotal;
    if rows == [] {
    } else {
      var init, last := rows[..|rows| - 1], rows[|rows| - 1];
      DurationsSumTheirRows(init, e);
      if EdgeOf(last) == e {
        NothingLasts();
        ExtendDurations(if e in DurationsOf(init) then DurationsOf(init)[e] else DurationAgg(0, 0, []), RowsOf(init, e),
                        last);
      } else {
        assert RowsOf(init, e) + [] == RowsOf(init, e);
      }
    }
  }

  lemma NothingLasts()
    ensures SumsDurations(DurationAgg(0, 0, []), [])
  {
  }

  lemma ExtendDurations(agg: DurationAgg, rows: seq<EdgeRow>, last: EdgeRow)
    requires SumsDurations(agg, rows)
    ensures SumsDurations(DurationAgg(agg.sum + last.durationSum,
                                      if agg.max >= last.durationMax then agg.max else last.durationMax,
                                   Add(agg.hist, last.hist)), rows + [last])
  {
  }

  predicate Plausible(row: EdgeRow) {
    row.durationSum <= row.connections * row.durationMax
  }

  lemma {:induction false} SumAtMostMax(rows: seq<EdgeRow>, e: Edge, m: nat)
    requires forall row | row in rows && EdgeOf(row) == e :: Plausible(row) && row.durationMax <= m
    ensures DurationTotal(RowsOf(rows, e)) <= EdgeTotal(rows, Connections, e) * m
  {
    if rows != [] {
      var init, last := rows[..|rows| - 1], rows[|rows| - 1];
      SumAtMostMax(init, e, m);
      if EdgeOf(last) == e {
        assert last in rows;
        assert (RowsOf(init, e) + [last])[..|RowsOf(init, e)|] == RowsOf(init, e);
        Distribute(EdgeTotal(init, Connections, e), last.connections, last.durationMax, m);
      } else {
        assert RowsOf(rows, e) == RowsOf(init, e);
      }
    }
  }

  lemma Distribute(a: nat, b: nat, k: nat, m: nat)
    requires k <= m
    ensures a * m + b * k <= (a + b) * m
  {
  }

  lemma {:induction false} RowsOfIn(rows: seq<EdgeRow>, e: Edge, row: EdgeRow)
    ensures row in RowsOf(rows, e) <==> row in rows && EdgeOf(row) == e
  {
    if rows != [] {
      RowsOfIn(rows[..|rows| - 1], e, row);
      assert rows == rows[..|rows| - 1] + [rows[|rows| - 1]];
    }
  }

  /** If no row's duration sum exceeds connections times its maximum, the average is at most the maximum. */
  lemma {:induction false} AverageAtMostMax(rows: seq<EdgeRow>, e: Edge)
    requires e in DurationsOf(rows) && EdgeTotal(rows, Connections, e) > 0
    requires forall row | row in rows && EdgeOf(row) == e :: Plausible(row)
    ensures DurationsOf(rows)[e].sum as real / EdgeTotal(rows, Connections, e) as real
            <= DurationsOf(rows)[e].max as real
  {
    DurationsSumTheirRows(rows, e);
    var agg, n := DurationsOf(rows)[e], EdgeTotal(rows, Connections, e);
    forall row | row in rows && EdgeOf(row) == e ensures row.durationMax <= agg.max { RowsOfIn(rows, e, row); }
    SumAtMostMax(rows, e, agg.max);
    DivideReals(agg.sum, n, agg.max);
  }

  lemma DivideReals(s: nat, n: nat, m: nat)
    requires n > 0 && s <= n * m
    ensures s as real / n as real <= m as real
  {
  }
}
