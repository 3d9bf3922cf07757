/**
  The points of a window in terms of the rows' own fields: under which identity the store holds
  which sum of which rows (crates/dataplane-apm/src/ebpf_metrics.rs).
 */
module EbpfFields {
  import opened Wrappers
  import opened EbpfMetrics
  import opened EbpfPoints
  import opened Watermark

  // What the rows that qualify add up to.
  function SumWhere(rows: seq<EdgeRow>, of: EdgeRow -> bool, amount: EdgeRow -> nat): nat {
    if rows == [] then 0
    else
      var last := rows[|rows| - 1];
      SumWhere(rows[..|rows| - 1], of, amount) + if of(last) then amount(last) else 0
  }

  lemma {:induction false} WeightsAdd(rows: seq<EdgeRow>, x: Series, of: EdgeRow -> bool, amount: EdgeRow -> nat)
    requires forall r :: Weight(r, x) == if of(r) then amount(r) else 0
    ensures SumWeight(rows, x) == SumWhere(rows, of, amount)
  {
    hide Weight;
    if rows != [] { WeightsAdd(rows[..|rows| - 1], x, of, amount); }
  }

  // The row is of this minute.
  predicate InMinute(row: EdgeRow, minute: int) {
    minute % 60_000_000 == 0 && minute <= row.bucketStart < minute + 60_000_000
  }

  predicate SameEdge(a: EdgeRow, b: EdgeRow, minute: int) {
    a.src == b.src && a.dst == b.dst && InMinute(a, minute) && InMinute(b, minute)
  }

  function NamedReason(row: EdgeRow): string {
    if |row.failureReason| > 0 then row.failureReason else "other"
  }

  predicate SameFlow(a: EdgeRow, b: EdgeRow, minute: int) {
    && SameEdge(a, b, minute) && a.srcIp == b.srcIp && a.dstIp == b.dstIp && a.dstPort == b.dstPort
    && a.protocol == b.protocol
  }

  // The rows that agree with this one, and the columns summed over them.
  function OnEdge(r: EdgeRow, minute: int): EdgeRow -> bool { (q: EdgeRow) => SameEdge(q, r, minute) }

  function OnPort(r: EdgeRow, minute: int): EdgeRow -> bool {
    (q: EdgeRow) => SameEdge(q, r, minute) && q.dstPort == r.dstPort
  }

  function ForReason(r: EdgeRow, minute: int): EdgeRow -> bool {
    (q: EdgeRow) => SameEdge(q, r, minute) && NamedReason(q) == NamedReason(r)
  }

  function OnFlow(r: EdgeRow, minute: int): EdgeRow -> bool { (q: EdgeRow) => SameFlow(q, r, minute) }

  function ConnectionsOf(): EdgeRow -> nat { (q: EdgeRow) => q.connections }

  function RetransOf(): EdgeRow -> nat { (q: EdgeRow) => q.retrans }

  function ResetsOf(): EdgeRow -> nat { (q: EdgeRow) => q.resets }

  function FailuresOf(): EdgeRow -> nat { (q: EdgeRow) => q.failures }

  function SentBy(): EdgeRow -> nat { (q: EdgeRow) => q.bytesSent }

  function ReceivedBy(): EdgeRow -> nat { (q: EdgeRow) => q.bytesRecv }

  function BytesId(r: EdgeRow, direction: Direction, minute: int): Identity {
    Identity(EbpfEdgeBytesTotal,
             [SrcService(r.src), DstService(r.dst), SrcIp(r.srcIp), DstIp(r.dstIp), DstPort(r.dstPort),
                                  Protocol(r.protocol), DirectionOf(direction)], minute)
  }

  ghost predicate Stores(store: Store, id: Identity, n: nat) {
    id in store && store[id] == n as real
  }

  lemma MinuteIsBucket(row: EdgeRow, minute: int)
    requires InMinute(row, minute)
    ensures forall q: EdgeRow :: FloorMinute(q.bucketStart) == minute <==> InMinute(q, minute)
  {
  }

  // The series a row counts in, and what it adds to each.
  lemma {:induction false} CountedSeries(rows: seq<EdgeRow>, x: Series, r: EdgeRow)
    requires r in rows && Contributes(r, x)
    ensures x in CountersOf(rows)
  {
    SeriesHoldsItsRows(rows, x);
  }

  lemma {:induction false} StoredSeries(store: Store, rows: seq<EdgeRow>, series: seq<Series>, edges: seq<Edge>,
                                        x: Series,
                                        r: EdgeRow, of: EdgeRow -> bool, amount: EdgeRow -> nat)
    requires Orders(rows, series, edges) && r in rows && Contributes(r, x) && WellFormed(x)
    requires forall q :: Weight(q, x) == if of(q) then amount(q) else 0
    ensures Stores(WriteAll(store, Emitted(rows, series, edges)), EbpfId(x), SumWhere(rows, of, amount))
  {
    hide Orders, Emitted, WriteAll, Contributes, Weight, EbpfId;
    CountedSeries(rows, x, r);
    SeriesWritten(store, rows, series, edges, x);
    WeightsAdd(rows, x, of, amount);
  }

  /**
    Once a window is written, the store holds per minute and pair of services: connections per port,
    retransmits, resets, failures per reason, and the bytes sent and received per flow, each the sum
    over exactly the rows that agree in those fields, under the identity those fields make.
   */
  lemma {:induction false} CountersInFields(store: Store, rows: seq<EdgeRow>, series: seq<Series>, edges: seq<Edge>,
                                            r: EdgeRow, minute: int)
    requires Orders(rows, series, edges) && r in rows && InMinute(r, minute)
    ensures var after := WriteAll(store, Emitted(rows, series, edges));
            var src, dst := SrcService(r.src), DstService(r.dst);
            && Stores(after, Identity(EbpfEdgeConnectionsTotal, [src, dst, DstPort(r.dstPort)], minute),
                      SumWhere(rows, OnPort(r, minute), ConnectionsOf()))
            && (r.retrans > 0 ==> Stores(after, Identity(EbpfTcpRetransTotal, [src, dst], minute),
                                         SumWhere(rows, OnEdge(r, minute), RetransOf())))
            && (r.resets > 0 ==> Stores(after, Identity(EbpfTcpResetsTotal, [src, dst], minute),
                                        SumWhere(rows, OnEdge(r, minute), ResetsOf())))
            && (r.failures > 0 ==>
                  Stores(after, Identity(EbpfTcpFailuresTotal, [src, dst, ReasonTag(NamedReason(r))], minute),
                         SumWhere(rows, ForReason(r, minute), FailuresOf())))
            && (r.bytesSent > 0 ==> Stores(after, BytesId(r, Sent, minute),
                                           SumWhere(rows, OnFlow(r, minute), SentBy())))
            && (r.bytesRecv > 0 ==> Stores(after, BytesId(r, Received, minute),
                                           SumWhere(rows, OnFlow(r, minute), ReceivedBy())))
  {
    hide Orders, Emitted, WriteAll, SumWhere, Stores;
    MinuteIsBucket(r, minute);
    var e := Edge(minute, r.src, r.dst);
    assert EdgeOf(r) == e;
    var sent, received :=
        Flow(r.srcIp, r.dstIp, r.dstPort, r.protocol, Sent), Flow(r.srcIp, r.dstIp, r.dstPort, r.protocol, Received);
    StoredSeries(store, rows, series, edges, Series(Connections, e, Port(r.dstPort)), r, OnPort(r, minute),
                 ConnectionsOf());
    if r.retrans > 0 {
      StoredSeries(store, rows, series, edges, Series(Retrans, e, NoDetail), r, OnEdge(r, minute), RetransOf());
    }
    if r.resets > 0 {
      StoredSeries(store, rows, series, edges, Series(Resets, e, NoDetail), r, OnEdge(r, minute), ResetsOf());
    }
    if r.failures > 0 {
      StoredSeries(store, rows, series, edges, Series(Failures, e, Reason(NamedReason(r))), r, ForReason(r, minute),
                   FailuresOf());
    }
    if r.bytesSent > 0 {
      StoredSeries(store, rows, series, edges, Series(Bytes, e, sent), r, OnFlow(r, minute), SentBy());
    }
    if r.bytesRecv > 0 {
      StoredSeries(store, rows, series, edges, Series(Bytes, e, received), r, OnFlow(r, minute), ReceivedBy());
    }
  }

  // ---------------------------------------------------------------- durations and shared points

  lemma {:induction false} EdgeRowsInFields(rows: seq<EdgeRow>, e: Edge, q: EdgeRow)
    requires e.bucket % 60_000_000 == 0
    ensures q in RowsOf(rows, e) <==> q in rows && q.src == e.src && q.dst == e.dst && InMinute(q, e.bucket)
  {
    RowsOfIn(rows, e, q);
  }

  lemma SameEdgeIff(q: EdgeRow, r: EdgeRow, minute: int)
    requires InMinute(r, minute)
    ensures EdgeOf(q) == Edge(minute, r.src, r.dst) <==> SameEdge(q, r, minute)
  {
    MinuteIsBucket(r, minute);
  }

  lemma {:induction false} ConnectionsInFields(rows: seq<EdgeRow>, r: EdgeRow, minute: int)
    requires InMinute(r, minute)
    ensures EdgeTotal(rows, Connections, Edge(minute, r.src, r.dst))
            == SumWhere(rows, OnEdge(r, minute), ConnectionsOf())
  {
    hide EdgeOf, SameEdge, InMinute;
    if rows != [] {
      ConnectionsInFields(rows[..|rows| - 1], r, minute);
      SameEdgeIff(rows[|rows| - 1], r, minute);
    }
  }

  // The longest duration, and the sum, over the rows of a row's edge and minute.
  ghost predicate LongestOn(n: nat, rows: seq<EdgeRow>, r: EdgeRow, minute: int) {
    && (forall q | q in rows && SameEdge(q, r, minute) :: q.durationMax <= n)
    && (exists q | q in rows && SameEdge(q, r, minute) :: q.durationMax == n)
  }

  function DurationSumsOf(): EdgeRow -> nat { (q: EdgeRow) => q.durationSum }

  function DurationPoint(r: EdgeRow, field: string, minute: int): Identity {
    Identity(ApmEdgeDurationMicros, [SrcService(r.src), DstService(r.dst), SpanKind(""), Field(field), Source("ebpf")],
             minute)
  }

  lemma {:induction false} DurationSumInFields(rows: seq<EdgeRow>, r: EdgeRow, minute: int)
    requires InMinute(r, minute)
    ensures DurationTotal(RowsOf(rows, Edge(minute, r.src, r.dst)))
            == SumWhere(rows, OnEdge(r, minute), DurationSumsOf())
  {
    if rows != [] {
      hide EdgeOf, SameEdge, InMinute;
      var e, init, last := Edge(minute, r.src, r.dst), rows[..|rows| - 1], rows[|rows| - 1];
      DurationSumInFields(init, r, minute);
      SameEdgeIff(last, r, minute);
      assert (RowsOf(init, e) + [last])[..|RowsOf(init, e)|] == RowsOf(init, e);
      assert RowsOf(init, e) + [] == RowsOf(init, e);
    }
  }

  /**
    And per minute and pair of services: the average duration is the rows' duration sums over their
    connections, the maximum the longest of theirs, under measurement, services and field by name.
   */
  lemma {:induction false} DurationsInFields(store: Store, rows: seq<EdgeRow>, series: seq<Series>, edges: seq<Edge>,
                                             r: EdgeRow, minute: int, longest: nat)
    requires Orders(rows, series, edges) && r in rows && InMinute(r, minute) && LongestOn(longest, rows, r, minute)
    ensures var after := WriteAll(store, Emitted(rows, series, edges));
            var connections := SumWhere(rows, OnEdge(r, minute), ConnectionsOf());
            && (connections > 0 ==>
                  && DurationPoint(r, "avg", minute) in after
                  && after[DurationPoint(r, "avg", minute)]
                     == SumWhere(rows, OnEdge(r, minute), DurationSumsOf()) as real / connections as real)
            && (longest > 0 ==> Stores(after, DurationPoint(r, "max", minute), longest))
  {
    hide CounterPoints, AllDurationPoints, WriteAll, SumWhere, EdgeTotal, DurationTotal;
    var e := Edge(minute, r.src, r.dst);
    ConnectionsInFields(rows, r, minute);
    DurationSumInFields(rows, r, minute);
    forall q ensures q in RowsOf(rows, e) <==> q in rows && SameEdge(q, r, minute) { EdgeRowsInFields(rows, e, q); }
    DurationPointsSurvive(store, rows, series, edges, e, longest);
  }

  /** The shared points by name: the last series of an edge leaves its value as the edge's requests, or its errors. */
  lemma {:induction false} SharedPointInFields(store: Store, c: Counters, order: seq<Series>, x: Series)
    requires x.metric.Connections? || x.metric.Failures?
    requires Sound(c) && Enumerates(order, c.Keys) && x in c
    ensures var id := if x.metric.Connections?
                      then Identity(ApmEdgeRequestsTotal, [SrcService(x.edge.src), DstService(x.edge.dst), SpanKind(""),
                                                           Status(""), Source("ebpf")], x.edge.bucket)
                      else Identity(ApmEdgeErrorsTotal, [SrcService(x.edge.src), DstService(x.edge.dst), SpanKind(""),
                                                         Source("ebpf")], x.edge.bucket);
            var after := WriteAll(store, CounterPoints(c, order));
            id in after && exists y | y in c && y.metric == x.metric && y.edge == x.edge :: after[id] == c[y] as real
  {
    var id := SharedId(x.metric, x.edge);
    LastSeriesStays(store, c, order, id);
    SomeSeriesEmits(order, x, id);
    var y := LastEmitting(order, id).value;
    if Shared(y.metric) && SharedId(y.metric, y.edge) == id { SharedIdInjective(x.metric, x.edge, y.metric, y.edge); }
  }
}
