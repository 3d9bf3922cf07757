/**
  The metric points emitted for one window (crates/dataplane-apm/src/ebpf_metrics.rs)
  and what a store that overwrites points of the same identity keeps of them.
 */
module EbpfPoints {
  import opened Wrappers
  import opened Totals
  import opened LatencyP95
  import opened EbpfMetrics

  datatype Measurement =
    | EbpfEdgeConnectionsTotal | EbpfTcpRetransTotal | EbpfTcpResetsTotal | EbpfTcpFailuresTotal | EbpfEdgeBytesTotal
    | ApmEdgeRequestsTotal | ApmEdgeErrorsTotal | ApmEdgeDurationMicros

  // A tag: its key and its value.
  datatype Label =
    | SrcService(text: string) | DstService(text: string) | SrcIp(text: string) | DstIp(text: string)
    | DstPort(number: int) | Protocol(text: string) | DirectionOf(direction: Direction) | ReasonTag(text: string)
    | SpanKind(text: string) | Status(text: string) | Source(text: string) | Field(text: string)

  // Points with the same measurement, labels and timestamp overwrite each other.
  datatype Identity = Identity(measurement: Measurement, labels: seq<Label>, timestamp: int)
  datatype Point = Point(id: Identity, value: real)
  type Store = map<Identity, real>

  predicate WellFormed(x: Series) {
    match x.metric
    case Connections => x.detail.Port?
    case Retrans => x.detail.NoDetail?
    case Resets => x.detail.NoDetail?
    case Failures => x.detail.Reason?
    case Bytes => x.detail.Flow?
  }

  function EbpfId(x: Series): Identity
    requires WellFormed(x)
  {
    var src, dst := SrcService(x.edge.src), DstService(x.edge.dst);
    match x.metric
    case Connections => Identity(EbpfEdgeConnectionsTotal, [src, dst, DstPort(x.detail.port)], x.edge.bucket)
    case Retrans => Identity(EbpfTcpRetransTotal, [src, dst], x.edge.bucket)
    case Resets => Identity(EbpfTcpResetsTotal, [src, dst], x.edge.bucket)
    case Failures => Identity(EbpfTcpFailuresTotal, [src, dst, ReasonTag(x.detail.reason)], x.edge.bucket)
    case Bytes =>
      Identity(EbpfEdgeBytesTotal,
               [src, dst, SrcIp(x.detail.srcIp), DstIp(x.detail.dstIp), DstPort(x.detail.dstPort),
                Protocol(x.detail.protocol), DirectionOf(x.detail.direction)], x.edge.bucket)
  }

  function RequestsId(e: Edge): Identity {
    Identity(ApmEdgeRequestsTotal, [SrcService(e.src), DstService(e.dst), SpanKind(""), Status(""), Source("ebpf")],
             e.bucket)
  }

  function ErrorsId(e: Edge): Identity {
    Identity(ApmEdgeErrorsTotal, [SrcService(e.src), DstService(e.dst), SpanKind(""), Source("ebpf")], e.bucket)
  }

  function DurationId(e: Edge, field: string): Identity {
    Identity(ApmEdgeDurationMicros, [SrcService(e.src), DstService(e.dst), SpanKind(""), Field(field), Source("ebpf")],
             e.bucket)
  }

  // The series shared with the APM side drop the port, or the reason.
  predicate Shared(metric: Metric) { metric.Connections? || metric.Failures? }

  function SharedId(metric: Metric, e: Edge): Identity
    requires Shared(metric)
  {
    if metric.Connections? then RequestsId(e) else ErrorsId(e)
  }

  function PointsOf(x: Series, n: nat): seq<Point>
    requires WellFormed(x)
  {
    [Point(EbpfId(x), n as real)] + if Shared(x.metric) then [Point(SharedId(x.metric, x.edge), n as real)] else []
  }

  function DurationPoints(e: Edge, agg: DurationAgg, connections: nat): seq<Point> {
    (if connections > 0 then [Point(DurationId(e, "avg"), agg.sum as real / connections as real)] else [])
    + (if agg.max > 0 then [Point(DurationId(e, "max"), agg.max as real)] else [])
    + (if P95Of(agg.hist).Some? then [Point(DurationId(e, "p95"), P95Of(agg.hist).value as real)] else [])
  }

  ghost predicate Sound(c: Counters) {
    forall x | x in c :: WellFormed(x)
  }

  function CounterPoints(c: Counters, order: seq<Series>): seq<Point>
    requires forall x | x in order :: x in c && WellFormed(x)
  {
    if order == [] then []
    else
      var x := order[|order| - 1];
      CounterPoints(c, order[..|order| - 1]) + PointsOf(x, c[x])
  }

  function AllDurationPoints(d: Durations, rows: seq<EdgeRow>, order: seq<Edge>): seq<Point>
    requires forall e | e in order :: e in d
  {
    if order == [] then []
    else
      var e := order[|order| - 1];
      AllDurationPoints(d, rows, order[..|order| - 1]) + DurationPoints(e, d[e], EdgeTotal(rows, Connections, e))
  }

  ghost predicate Enumerates<T(!new)>(order: seq<T>, keys: set<T>) {
    && (forall i, j | 0 <= i < j < |order| :: order[i] != order[j])
    && (forall x :: x in order <==> x in keys)
  }

  lemma {:induction false} AggregatedSeriesAreWellFormed(rows: seq<EdgeRow>)
    ensures Sound(CountersOf(rows))
  {
    forall x | x in CountersOf(rows) ensures WellFormed(x) {
      SeriesHoldsItsRows(rows, x);
    }
  }

  /**
    The points of one window: each series exactly once under its own identity, every point of an
    `ebpf_*` measurement being one of these; and no identity twice exactly when the rows are uniform.
   */
  method Aggregate(rows: seq<EdgeRow>) returns (out: seq<Point>, ghost series: seq<Series>, ghost edges: seq<Edge>)
    ensures Sound(CountersOf(rows))
    ensures forall p ::
              p in out && IsEbpf(p.id)
              <==> exists x | x in CountersOf(rows) :: p == Point(EbpfId(x), CountersOf(rows)[x] as real)
    ensures Distinct(out, EbpfOnly()) && (Distinct(out, AllIds()) <==> Uniform(rows))
    ensures Enumerates(series, CountersOf(rows).Keys) && Enumerates(edges, DurationsOf(rows).Keys)
    ensures out == CounterPoints(CountersOf(rows), series) + AllDurationPoints(DurationsOf(rows), rows, edges)
  {
    hide CountersOf, DurationsOf, CounterPoints, AllDurationPoints, EbpfId, IsEbpf, Distinct, Uniform, Sound,
        Enumerates;
    var counters, durations := AggregateRows(rows);
    AggregatedSeriesAreWellFormed(rows);
    var counted, timed;
    counted, series := EmitCounters(counters);
    timed, edges := EmitDurations(durations, rows);
    out := counted + timed;
    IdentitiesUniqueIff(rows, series, edges);
    EbpfPointsAreSeries(rows, series, edges);
  }

  method EmitCounters(c: Counters) returns (out: seq<Point>, ghost order: seq<Series>)
    requires Sound(c)
    ensures Enumerates(order, c.Keys) && out == CounterPoints(c, order)
  {
    var todo := c.Keys;
    out, order := [], [];
    while todo != {}
      invariant todo <= c.Keys && Enumerates(order, c.Keys - todo)
      invariant out == CounterPoints(c, order)
      decreases |todo|
    {
      var x :| x in todo;
      todo := todo - {x};
      assert (order + [x])[..|order|] == order;
      order := order + [x];
      out := out + [Point(EbpfId(x), c[x] as real)];
      if x.metric.Connections? {
        out := out + [Point(RequestsId(x.edge), c[x] as real)];
      } else if x.metric.Failures? {
        out := out + [Point(ErrorsId(x.edge), c[x] as real)];
      }
    }
  }

  method EmitDurations(d: Durations, rows: seq<EdgeRow>) returns (out: seq<Point>, ghost order: seq<Edge>)
    ensures Enumerates(order, d.Keys) && out == AllDurationPoints(d, rows, order)
  {
    hide DurationPoints;
    var todo := d.Keys;
    out, order := [], [];
    while todo != {}
      invariant todo <= d.Keys && Enumerates(order, d.Keys - todo)
      invariant out == AllDurationPoints(d, rows, order)
      decreases |todo|
    {
      var e :| e in todo;
      todo := todo - {e};
      assert (order + [e])[..|order|] == order;
      order := order + [e];
      var total := ConnectionsTotal(rows, e.src, e.dst, e.bucket);
      var timed := EmitDuration(e, d[e], total);
      out := out + timed;
    }
  }

  method EmitDuration(e: Edge, agg: DurationAgg, connections: nat) returns (out: seq<Point>)
    ensures out == DurationPoints(e, agg, connections)
  {
    out := [];
    if connections > 0 { out := out + [Point(DurationId(e, "avg"), agg.sum as real / connections as real)]; }
    if agg.max > 0 { out := out + [Point(DurationId(e, "max"), agg.max as real)]; }
    var p95 := HistogramP95(agg.hist);
    if p95.Some? { out := out + [Point(DurationId(e, "p95"), p95.value as real)]; }
  }

  // ---------------------------------------------------------------- identities

  lemma EbpfIdInjective(x: Series, y: Series)
    requires WellFormed(x) && WellFormed(y) && EbpfId(x) == EbpfId(y)
    ensures x == y
  {
  }

  lemma SharedIdInjective(m: Metric, e: Edge, n: Metric, f: Edge)
    requires Shared(m) && Shared(n) && SharedId(m, e) == SharedId(n, f)
    ensures m == n && e == f
  {
  }

  predicate IsEbpf(id: Identity) {
    !id.measurement.ApmEdgeRequestsTotal? && !id.measurement.ApmEdgeErrorsTotal?
        && !id.measurement.ApmEdgeDurationMicros?
  }

  function EbpfOnly(): Identity -> bool { id => IsEbpf(id) }

  function AllIds(): Identity -> bool { id => true }

  // No two points share an identity among those `of` selects.
  predicate Distinct(points: seq<Point>, of: Identity -> bool) {
    forall i, j | 0 <= i < j < |points| && of(points[i].id) :: points[i].id != points[j].id
  }

  predicate Has(points: seq<Point>, id: Identity) {
    exists i :: 0 <= i < |points| && points[i].id == id
  }

  lemma HasConcat(a: seq<Point>, b: seq<Point>, id: Identity)
    ensures Has(a + b, id) <==> Has(a, id) || Has(b, id)
  {
    if Has(a, id) {
      var i :| 0 <= i < |a| && a[i].id == id;
      assert (a + b)[i].id == id;
    }
    if Has(b, id) {
      var i :| 0 <= i < |b| && b[i].id == id;
      assert (a + b)[|a| + i].id == id;
    }
  }

  predicate Apart(a: seq<Point>, b: seq<Point>, of: Identity -> bool) {
    forall i | 0 <= i < |b| && of(b[i].id) :: !Has(a, b[i].id)
  }

  lemma DistinctConcat(a: seq<Point>, b: seq<Point>, of: Identity -> bool)
    ensures Distinct(a + b, of) <==> Distinct(a, of) && Distinct(b, of) && Apart(a, b, of)
  {
    var s := a + b;
    if Distinct(s, of) {
      forall i, j | 0 <= i < j < |a| && of(a[i].id) ensures a[i].id != a[j].id { assert s[i].id != s[j].id; }
      forall i, j | 0 <= i < j < |b| && of(b[i].id) ensures b[i].id != b[j].id {
        assert s[|a| + i].id != s[|a| + j].id;
      }
      forall i, j | 0 <= i < |b| && 0 <= j < |a| && of(b[i].id) ensures a[j].id != b[i].id {
        assert s[j] == a[j] && s[|a| + i] == b[i];
      }
    }
    if Distinct(a, of) && Distinct(b, of) && Apart(a, b, of) {
      forall i, j | 0 <= i < j < |s| && of(s[i].id) ensures s[i].id != s[j].id {
        if i < |a| <= j { assert s[i].id == s[j].id ==> Has(a, b[j - |a|].id); }
      }
    }
  }

  predicate Emits(x: Series, id: Identity)
    requires WellFormed(x)
  {
    id == EbpfId(x) || (Shared(x.metric) && id == SharedId(x.metric, x.edge))
  }

  lemma PointsOfHas(x: Series, n: nat, id: Identity)
    requires WellFormed(x)
    ensures Has(PointsOf(x, n), id) <==> Emits(x, id)
  {
    var s := PointsOf(x, n);
    assert s[0].id == EbpfId(x);
    if Shared(x.metric) { assert s[1].id == SharedId(x.metric, x.edge); }
  }

  lemma {:induction false} CounterPointsHave(c: Counters, order: seq<Series>, id: Identity)
    requires forall x | x in order :: x in c && WellFormed(x)
    ensures Has(CounterPoints(c, order), id) <==> exists x | x in order :: Emits(x, id)
  {
    if order != [] {
      var init, x := order[..|order| - 1], order[|order| - 1];
      CounterPointsHave(c, init, id);
      HasConcat(CounterPoints(c, init), PointsOf(x, c[x]), id);
      PointsOfHas(x, c[x], id);
      assert forall y :: y in order <==> y in init || y == x;
    }
  }

  predicate NoRepeats<T(==)>(order: seq<T>) {
    forall i, j | 0 <= i < j < |order| :: order[i] != order[j]
  }

  // No edge has two ports, or two failure reasons, in one minute.
  predicate OnePerEdge(order: seq<Series>) {
    forall x, y | x in order && y in order && Shared(x.metric) && x.metric == y.metric && x.edge == y.edge :: x == y
  }

  // What keeps the points of one more series apart from the earlier ones.
  lemma {:induction false} NextSeriesApart(c: Counters, init: seq<Series>, x: Series)
    requires x in c && WellFormed(x) && x !in init && forall y | y in init :: y in c && WellFormed(y)
    ensures Apart(CounterPoints(c, init), PointsOf(x, c[x]), EbpfOnly())
    ensures Apart(CounterPoints(c, init), PointsOf(x, c[x]), AllIds())
            <==> forall y | y in init && Shared(x.metric) && y.metric == x.metric :: y.edge != x.edge
    ensures Distinct(PointsOf(x, c[x]), AllIds()) && Distinct(PointsOf(x, c[x]), EbpfOnly())
  {
    var s, before := PointsOf(x, c[x]), CounterPoints(c, init);
    assert !Has(before, EbpfId(x)) by {
      CounterPointsHave(c, init, EbpfId(x));
      forall y | y in init ensures !Emits(y, EbpfId(x)) {
        if EbpfId(y) == EbpfId(x) { EbpfIdInjective(x, y); }
      }
    }
    if Shared(x.metric) {
      SharedPointRepeats(c, init, x);
      assert s[1].id == SharedId(x.metric, x.edge);
    }
  }

  lemma {:induction false} SharedPointRepeats(c: Counters, init: seq<Series>, x: Series)
    requires Shared(x.metric) && forall y | y in init :: y in c && WellFormed(y)
    ensures Has(CounterPoints(c, init), SharedId(x.metric, x.edge))
       <==> exists y | y in init :: y.metric == x.metric && y.edge == x.edge
  {
    var id := SharedId(x.metric, x.edge);
    CounterPointsHave(c, init, id);
    forall y | y in init ensures Emits(y, id) <==> y.metric == x.metric && y.edge == x.edge {
      if Shared(y.metric) && SharedId(y.metric, y.edge) == id { SharedIdInjective(x.metric, x.edge, y.metric, y.edge); }
    }
  }

  lemma {:induction false} CounterPointsDistinct(c: Counters, order: seq<Series>)
    requires NoRepeats(order) && forall x | x in order :: x in c && WellFormed(x)
    ensures Distinct(CounterPoints(c, order), EbpfOnly())
    ensures Distinct(CounterPoints(c, order), AllIds()) <==> OnePerEdge(order)
  {
    if order != [] {
      var init, x := order[..|order| - 1], order[|order| - 1];
      CounterPointsDistinct(c, init);
      NextSeriesApart(c, init, x);
      DistinctConcat(CounterPoints(c, init), PointsOf(x, c[x]), EbpfOnly());
      DistinctConcat(CounterPoints(c, init), PointsOf(x, c[x]), AllIds());
      OnePerEdgeNext(init, x);
      assert order == init + [x];
    }
  }

  lemma OnePerEdgeNext(init: seq<Series>, x: Series)
    requires x !in init
    ensures OnePerEdge(init + [x])
       <==> OnePerEdge(init) && forall y | y in init && Shared(x.metric) && y.metric == x.metric :: y.edge != x.edge
  {
  }

  lemma DurationPointsDistinct(e: Edge, agg: DurationAgg, total: nat)
    ensures Distinct(DurationPoints(e, agg, total), AllIds())
    ensures forall i | 0 <= i < |DurationPoints(e, agg, total)| ::
              exists field :: DurationPoints(e, agg, total)[i].id == DurationId(e, field)
  {
  }

  lemma {:induction false} AllDurationPointsDistinct(d: Durations, rows: seq<EdgeRow>, order: seq<Edge>)
    requires NoRepeats(order) && forall e | e in order :: e in d
    ensures Distinct(AllDurationPoints(d, rows, order), AllIds())
    ensures forall id | Has(AllDurationPoints(d, rows, order), id) ::
            exists e, field | e in order :: id == DurationId(e, field)
  {
    hide DurationPoints;
    if order != [] {
      var init, e := order[..|order| - 1], order[|order| - 1];
      AllDurationPointsDistinct(d, rows, init);
      var a, b := AllDurationPoints(d, rows, init), DurationPoints(e, d[e], EdgeTotal(rows, Connections, e));
      DurationPointsDistinct(e, d[e], EdgeTotal(rows, Connections, e));
      forall i | 0 <= i < |b| ensures !Has(a, b[i].id) {
        var field :| b[i].id == DurationId(e, field);
        forall f, other | f in init ensures b[i].id != DurationId(f, other) { DurationEdge(e, field, f, other); }
      }
      DistinctConcat(a, b, AllIds());
      forall id | Has(a + b, id) ensures exists f, field | f in order :: id == DurationId(f, field) {
        HasConcat(a, b, id);
        if Has(a, id) {
          var f, field :| f in init && id == DurationId(f, field);
          assert f in order;
        } else {
          var i :| 0 <= i < |b| && b[i].id == id;
          var field :| b[i].id == DurationId(e, field);
        }
      }
    }
  }

  lemma DurationEdge(e: Edge, field: string, f: Edge, other: string)
    ensures e != f ==> DurationId(e, field) != DurationId(f, other)
  {
  }

  lemma Weaken(points: seq<Point>)
    requires Distinct(points, AllIds())
    ensures Distinct(points, EbpfOnly())
  {
  }

  lemma {:induction false} CountersApartFromDurations(c: Counters, series: seq<Series>, timed: seq<Point>,
                                                      of: Identity -> bool)
    requires forall x | x in series :: x in c && WellFormed(x)
    requires forall id | Has(timed, id) :: id.measurement == ApmEdgeDurationMicros
    ensures Apart(CounterPoints(c, series), timed, of)
  {
    forall i | 0 <= i < |timed| && of(timed[i].id) ensures !Has(CounterPoints(c, series), timed[i].id) {
      assert Has(timed, timed[i].id);
      CounterPointsHave(c, series, timed[i].id);
    }
  }

  // No two rows of one edge and minute differ in port, nor two failing ones in reason.
  ghost predicate Uniform(rows: seq<EdgeRow>) {
    forall r, q | r in rows && q in rows && EdgeOf(r) == EdgeOf(q) ::
      r.dstPort == q.dstPort && (r.failures > 0 && q.failures > 0 ==> ReasonOf(r) == ReasonOf(q))
  }

  lemma {:induction false} OnePerEdgeIffUniform(rows: seq<EdgeRow>, series: seq<Series>)
    requires Enumerates(series, CountersOf(rows).Keys)
    ensures OnePerEdge(series) <==> Uniform(rows)
  {
    hide CountersOf;
    if OnePerEdge(series) {
      forall r, q | r in rows && q in rows && EdgeOf(r) == EdgeOf(q)
        ensures r.dstPort == q.dstPort && (r.failures > 0 && q.failures > 0 ==> ReasonOf(r) == ReasonOf(q))
      {
        RowHasSeries(rows, r);
        RowHasSeries(rows, q);
      }
    }
    if Uniform(rows) {
      forall x, y | x in series && y in series && Shared(x.metric) && x.metric == y.metric && x.edge == y.edge
          ensures x == y {
        UniformSeries(rows, x, y);
      }
    }
  }

  lemma {:induction false} UniformSeries(rows: seq<EdgeRow>, x: Series, y: Series)
    requires Uniform(rows) && x in CountersOf(rows) && y in CountersOf(rows)
    requires Shared(x.metric) && x.metric == y.metric && x.edge == y.edge
    ensures x == y
  {
    hide CountersOf;
    SeriesHoldsItsRows(rows, x);
    SeriesHoldsItsRows(rows, y);
    var r :| r in rows && Contributes(r, x);
    var q :| q in rows && Contributes(q, y);
    assert r.dstPort == q.dstPort;
  }

  lemma {:induction false} RowHasSeries(rows: seq<EdgeRow>, row: EdgeRow)
    requires row in rows
    ensures Series(Connections, EdgeOf(row), Port(row.dstPort)) in CountersOf(rows)
    ensures row.failures > 0 ==> Series(Failures, EdgeOf(row), Reason(ReasonOf(row))) in CountersOf(rows)
  {
    SeriesHoldsItsRows(rows, Series(Connections, EdgeOf(row), Port(row.dstPort)));
    SeriesHoldsItsRows(rows, Series(Failures, EdgeOf(row), Reason(ReasonOf(row))));
    assert Contributes(row, Series(Connections, EdgeOf(row), Port(row.dstPort)));
    assert row.failures > 0 ==> Contributes(row, Series(Failures, EdgeOf(row), Reason(ReasonOf(row))));
  }

  /**
    No two emitted `ebpf_*` points share an identity; and no two points at all do exactly when
    in each minute each edge uses one port and fails for one reason.
   */
  lemma {:induction false} IdentitiesUniqueIff(rows: seq<EdgeRow>, series: seq<Series>, edges: seq<Edge>)
    requires Enumerates(series, CountersOf(rows).Keys) && Enumerates(edges, DurationsOf(rows).Keys)
    ensures Sound(CountersOf(rows))
    ensures var out := CounterPoints(CountersOf(rows), series) + AllDurationPoints(DurationsOf(rows), rows, edges);
            Distinct(out, EbpfOnly()) && (Distinct(out, AllIds()) <==> Uniform(rows))
  {
    AggregatedSeriesAreWellFormed(rows);
    var c := CountersOf(rows);
    var counted, timed := CounterPoints(c, series), AllDurationPoints(DurationsOf(rows), rows, edges);
    CounterPointsDistinct(c, series);
    AllDurationPointsDistinct(DurationsOf(rows), rows, edges);
    Weaken(timed);
    CountersApartFromDurations(c, series, timed, EbpfOnly());
    CountersApartFromDurations(c, series, timed, AllIds());
    DistinctConcat(counted, timed, EbpfOnly());
    DistinctConcat(counted, timed, AllIds());
    OnePerEdgeIffUniform(rows, series);
  }

  lemma {:induction false} CounterPointsAre(c: Counters, order: seq<Series>, p: Point)
    requires forall x | x in order :: x in c && WellFormed(x)
    ensures p in CounterPoints(c, order) && IsEbpf(p.id)
            <==> exists x | x in order :: p == Point(EbpfId(x), c[x] as real)
  {
    if order != [] {
      var init, x := order[..|order| - 1], order[|order| - 1];
      CounterPointsAre(c, init, p);
      assert forall y :: y in order <==> y in init || y == x;
      assert p in PointsOf(x, c[x]) && IsEbpf(p.id) <==> p == Point(EbpfId(x), c[x] as real) by {
        var s := PointsOf(x, c[x]);
        assert s[0] == Point(EbpfId(x), c[x] as real);
      }
    }
  }

  lemma {:induction false} EbpfPointsAreSeries(rows: seq<EdgeRow>, series: seq<Series>, edges: seq<Edge>)
    requires Sound(CountersOf(rows)) && Enumerates(series, CountersOf(rows).Keys)
             && Enumerates(edges, DurationsOf(rows).Keys)
    ensures var out := CounterPoints(CountersOf(rows), series) + AllDurationPoints(DurationsOf(rows), rows, edges);
            forall p ::
              p in out && IsEbpf(p.id)
              <==> exists x | x in CountersOf(rows) :: p == Point(EbpfId(x), CountersOf(rows)[x] as real)
  {
    hide CountersOf, CounterPoints, EbpfId;
    var c, timed := CountersOf(rows), AllDurationPoints(DurationsOf(rows), rows, edges);
    AllDurationPointsDistinct(DurationsOf(rows), rows, edges);
    forall p: Point ensures p in CounterPoints(c, series) + timed && IsEbpf(p.id)
        <==> exists x | x in c :: p == Point(EbpfId(x), c[x] as real) {
      CounterPointsAre(c, series, p);
      if p in timed {
        var i :| 0 <= i < |timed| && timed[i] == p;
        assert Has(timed, p.id);
      }
    }
  }

  // ---------------------------------------------------------------- what an overwriting store keeps

  function WriteAll(store: Store, points: seq<Point>): Store {
    if points == [] then store
    else WriteAll(store, points[..|points| - 1])[points[|points| - 1].id := points[|points| - 1].value]
  }

  lemma {:induction false} WriteAllConcat(store: Store, a: seq<Point>, b: seq<Point>)
    ensures WriteAll(store, a + b) == WriteAll(WriteAll(store, a), b)
    decreases |b|
  {
    if b == [] {
      assert a + b == a;
    } else {
      WriteAllConcat(store, a, b[..|b| - 1]);
      assert (a + b)[..|a + b| - 1] == a + b[..|b| - 1];
    }
  }

  lemma {:induction false} WriteAllLeaves(store: Store, points: seq<Point>, id: Identity)
    requires !Has(points, id)
    ensures id in WriteAll(store, points) <==> id in store
    ensures id in store ==> WriteAll(store, points)[id] == store[id]
  {
    if points != [] {
      var init := points[..|points| - 1];
      forall i | 0 <= i < |init| ensures init[i].id != id { assert points[i].id != id; }
      WriteAllLeaves(store, init, id);
      assert points[|points| - 1].id != id;
    }
  }

  lemma {:induction false} PointsOfStored(store: Store, x: Series, n: nat, id: Identity)
    requires WellFormed(x)
    ensures if Emits(x, id)
            then id in WriteAll(store, PointsOf(x, n)) && WriteAll(store, PointsOf(x, n))[id] == n as real
            else (id in WriteAll(store, PointsOf(x, n)) <==> id in store)
                 && (id in store ==> WriteAll(store, PointsOf(x, n))[id] == store[id])
  {
    var s := PointsOf(x, n);
    PointsOfHas(x, n, id);
    if !Emits(x, id) {
      WriteAllLeaves(store, s, id);
    } else {
      var first := [s[0]];
      assert s[..1] == first && first[..0] == [];
      if |s| == 1 { assert s == first; }
    }
  }

  // The last series in the order of emission that writes a given identity.
  function LastEmitting(order: seq<Series>, id: Identity): Option<Series>
    requires forall x | x in order :: WellFormed(x)
  {
    if order == [] then None
    else if Emits(order[|order| - 1], id) then Some(order[|order| - 1])
    else LastEmitting(order[..|order| - 1], id)
  }

  /** The store ends up with the value of the last series that writes the identity, not with their sum. */
  lemma {:induction false} LastSeriesStays(store: Store, c: Counters, order: seq<Series>, id: Identity)
    requires forall x | x in order :: x in c && WellFormed(x)
    ensures var after, last := WriteAll(store, CounterPoints(c, order)), LastEmitting(order, id);
            match last
            case None => (id in after <==> id in store) && (id in store ==> after[id] == store[id])
            case Some(x) => x in order && Emits(x, id) && id in after && after[id] == c[x] as real
  {
    if order != [] {
      var init, x := order[..|order| - 1], order[|order| - 1];
      LastSeriesStays(store, c, init, id);
      WriteAllConcat(store, CounterPoints(c, init), PointsOf(x, c[x]));
      PointsOfStored(WriteAll(store, CounterPoints(c, init)), x, c[x], id);
    }
  }

  lemma {:induction false} SomeSeriesEmits(order: seq<Series>, x: Series, id: Identity)
    requires x in order && (forall y | y in order :: WellFormed(y)) && Emits(x, id)
    ensures LastEmitting(order, id).Some?
  {
    if !Emits(order[|order| - 1], id) {
      assert x in order[..|order| - 1];
      SomeSeriesEmits(order[..|order| - 1], x, id);
    }
  }

  /** Every `ebpf_*` counter point survives the write of a window with its own value. */
  lemma {:induction false} EbpfPointsSurvive(store: Store, c: Counters, order: seq<Series>, x: Series)
    requires Sound(c) && Enumerates(order, c.Keys) && x in c
    ensures EbpfId(x) in WriteAll(store, CounterPoints(c, order))
    ensures WriteAll(store, CounterPoints(c, order))[EbpfId(x)] == c[x] as real
  {
    LastSeriesStays(store, c, order, EbpfId(x));
    SomeSeriesEmits(order, x, EbpfId(x));
    EbpfIdInjective(x, LastEmitting(order, EbpfId(x)).value);
  }

  /**
    What the shared points lose: after a window is written, the requests point of an edge holds
    the edge's connections (the errors point its failures) exactly when every series of that
    edge except the last one emitted is zero.
   */
  lemma {:induction false} SharedPointExactIff(store: Store, rows: seq<EdgeRow>, order: seq<Series>, x: Series)
    requires Sound(CountersOf(rows)) && Enumerates(order, CountersOf(rows).Keys)
    requires x in CountersOf(rows) && Shared(x.metric) && LastEmitting(order, SharedId(x.metric, x.edge)) == Some(x)
    ensures var after := WriteAll(store, CounterPoints(CountersOf(rows), order));
            var id := SharedId(x.metric, x.edge);
            id in after
            && (after[id] == EdgeTotal(rows, x.metric, x.edge) as real
                <==> SeriesSum(CountersOf(rows) - {x}, x.metric, x.edge) == 0)
  {
    var c, id := CountersOf(rows), SharedId(x.metric, x.edge);
    LastSeriesStays(store, c, order, id);
    AggregationConserves(rows, x.metric, x.edge);
    FoldRemove<Series, nat>(Calls, c, SeriesMeasure(x.metric, x.edge), x);
  }

  // Two positive series of one shared point: the store holds less than their edge counted.
  lemma {:induction false} TwoSeriesLose(store: Store, rows: seq<EdgeRow>, order: seq<Series>, x: Series, y: Series)
    requires Sound(CountersOf(rows)) && Enumerates(order, CountersOf(rows).Keys)
    requires Shared(x.metric) && x.metric == y.metric && x.edge == y.edge && x != y
    requires x in CountersOf(rows) && y in CountersOf(rows) && CountersOf(rows)[x] > 0 && CountersOf(rows)[y] > 0
    ensures var after, id := WriteAll(store, CounterPoints(CountersOf(rows), order)), SharedId(x.metric, x.edge);
            id in after && after[id] < EdgeTotal(rows, x.metric, x.edge) as real
  {
    hide CountersOf, CounterPoints, WriteAll, EdgeTotal;
    var c, id := CountersOf(rows), SharedId(x.metric, x.edge);
    LastSeriesStays(store, c, order, id);
    SomeSeriesEmits(order, x, id);
    var last := LastEmitting(order, id).value;
    if Shared(last.metric) && SharedId(last.metric, last.edge) == id {
      SharedIdInjective(x.metric, x.edge, last.metric, last.edge);
    }
    var other := if last == x then y else x;
    AggregationConserves(rows, x.metric, x.edge);
    FoldRemove<Series, nat>(Calls, c, SeriesMeasure(x.metric, x.edge), last);
    FoldRemove<Series, nat>(Calls, c - {last}, SeriesMeasure(x.metric, x.edge), other);
  }

  // One edge and minute, two ports, two failure reasons: seven requests and three errors.
  const TWO_PORTS: seq<EdgeRow> := [
    EdgeRow(0, "a", "b", "", "", 80, "tcp", 3, 0, 0, 0, 0, 0, 0, 1, "refused", []),
    EdgeRow(0, "a", "b", "", "", 443, "tcp", 4, 0, 0, 0, 0, 0, 0, 2, "timeout", [])]

  /** A window that loses both shared points, in whatever order its points are written. */
  lemma {:induction false} TwoPortsLosePoints(store: Store, order: seq<Series>)
    requires Enumerates(order, CountersOf(TWO_PORTS).Keys)
    ensures Sound(CountersOf(TWO_PORTS))
    ensures var after, e := WriteAll(store, CounterPoints(CountersOf(TWO_PORTS), order)), Edge(0, "a", "b");
            && EdgeTotal(TWO_PORTS, Connections, e) == 7 && EdgeTotal(TWO_PORTS, Failures, e) == 3
            && RequestsId(e) in after && after[RequestsId(e)] < 7.0 && ErrorsId(e) in after && after[ErrorsId(e)] < 3.0
  {
    hide WriteAll, CounterPoints;
    AggregatedSeriesAreWellFormed(TWO_PORTS);
    var e, one := Edge(0, "a", "b"), TWO_PORTS[..1];
    assert EdgeTotal(one[..0], Connections, e) == 0 && EdgeTotal(one[..0], Failures, e) == 0;
    assert EdgeTotal(one, Connections, e) == 3 && EdgeTotal(one, Failures, e) == 1;
    assert SharedId(Connections, e) == RequestsId(e) && SharedId(Failures, e) == ErrorsId(e);
    forall x | x in {Series(Connections, e, Port(80)), Series(Connections, e, Port(443)),
                     Series(Failures, e, Reason("refused")), Series(Failures, e, Reason("timeout"))}
      ensures x in CountersOf(TWO_PORTS) && CountersOf(TWO_PORTS)[x] > 0
    {
      hide CountersOf, EdgeTotal;
      SeriesHoldsItsRows(TWO_PORTS, x);
      assert TWO_PORTS[0] in TWO_PORTS && TWO_PORTS[1] in TWO_PORTS;
      assert Contributes(TWO_PORTS[0], x) || Contributes(TWO_PORTS[1], x);
      assert SumWeight(one, x) == Weight(TWO_PORTS[0], x) by { assert SumWeight(one[..0], x) == 0; }
    }
    hide CountersOf, EdgeTotal;
    TwoSeriesLose(store, TWO_PORTS, order, Series(Connections, e, Port(80)), Series(Connections, e, Port(443)));
    TwoSeriesLose(store, TWO_PORTS, order, Series(Failures, e, Reason("refused")),
                  Series(Failures, e, Reason("timeout")));
  }

  // ---------------------------------------------------------------- what the store keeps of durations

  // Writing left this value at the identity, or whatever was there before.
  predicate Keeps(before: Store, after: Store, id: Identity, value: Option<real>) {
    match value
    case Some(v) => id in after && after[id] == v
    case None => (id in after <==> id in before) && (id in before ==> after[id] == before[id])
  }

  datatype Statistic = Average | Longest | P95

  function FieldOf(statistic: Statistic): string {
    match statistic case Average => "avg" case Longest => "max" case P95 => "p95"
  }

  function ValueOf(agg: DurationAgg, connections: nat, statistic: Statistic): Option<real> {
    match statistic
    case Average => if connections > 0 then Some(agg.sum as real / connections as real) else None
    case Longest => if agg.max > 0 then Some(agg.max as real) else None
    case P95 => if P95Of(agg.hist).Some? then Some(P95Of(agg.hist).value as real) else None
  }

  lemma {:induction false} MaybeStored(store: Store, id: Identity, value: Option<real>, at: Identity)
    ensures Keeps(store, WriteAll(store, if value.Some? then [Point(id, value.value)] else []), at,
                  if at == id then value else None)
  {
    if value.Some? {
      assert [Point(id, value.value)][..0] == [];
    }
  }

  lemma {:induction false} EdgeDurationsStored(store: Store, f: Edge, agg: DurationAgg, n: nat, e: Edge,
                                               statistic: Statistic)
    ensures Keeps(store, WriteAll(store, DurationPoints(f, agg, n)), DurationId(e, FieldOf(statistic)),
                  if e == f then ValueOf(agg, n, statistic) else None)
  {
    hide WriteAll, P95Of;
    var at := DurationId(e, FieldOf(statistic));
    var avg := if n > 0 then [Point(DurationId(f, "avg"), agg.sum as real / n as real)] else [];
    var max := if agg.max > 0 then [Point(DurationId(f, "max"), agg.max as real)] else [];
    var p95 := if P95Of(agg.hist).Some? then [Point(DurationId(f, "p95"), P95Of(agg.hist).value as real)] else [];
    WriteAllConcat(store, avg + max, p95);
    WriteAllConcat(store, avg, max);
    MaybeStored(store, DurationId(f, "avg"), ValueOf(agg, n, Average), at);
    MaybeStored(WriteAll(store, avg), DurationId(f, "max"), ValueOf(agg, n, Longest), at);
    MaybeStored(WriteAll(store, avg + max), DurationId(f, "p95"), ValueOf(agg, n, P95), at);
    assert DurationPoints(f, agg, n) == avg + max + p95;
  }

  lemma {:induction false} AllDurationsStored(store: Store, d: Durations, rows: seq<EdgeRow>, order: seq<Edge>, e: Edge,
                                              statistic: Statistic)
    requires forall f | f in order :: f in d
    ensures Keeps(store, WriteAll(store, AllDurationPoints(d, rows, order)), DurationId(e, FieldOf(statistic)),
                  if e in order then ValueOf(d[e], EdgeTotal(rows, Connections, e), statistic) else None)
  {
    hide DurationPoints, DurationId, ValueOf, EdgeTotal;
    if order != [] {
      var init, f := order[..|order| - 1], order[|order| - 1];
      AllDurationsStored(store, d, rows, init, e, statistic);
      WriteAllConcat(store, AllDurationPoints(d, rows, init), DurationPoints(f, d[f], EdgeTotal(rows, Connections, f)));
      EdgeDurationsStored(WriteAll(store, AllDurationPoints(d, rows, init)), f, d[f], EdgeTotal(rows, Connections, f),
                          e, statistic);
      assert e in order <==> e in init || e == f;
    }
  }

  /**
    What the store holds of an edge's durations once a window is written: the average is the sum
    over its rows by its connections, the maximum the longest of its rows, the percentile that of
    all its rows' histograms merged; and where there is none the store keeps what it had.
   */
  lemma {:induction false} DurationPointsSurvive(store: Store, rows: seq<EdgeRow>, series: seq<Series>,
                                                 edges: seq<Edge>, e: Edge, longest: nat)
    requires Sound(CountersOf(rows)) && Enumerates(series, CountersOf(rows).Keys)
             && Enumerates(edges, DurationsOf(rows).Keys)
    requires IsLongest(longest, RowsOf(rows, e))
    ensures var after :=
            WriteAll(store,
                     CounterPoints(CountersOf(rows), series) + AllDurationPoints(DurationsOf(rows), rows, edges));
            var mine, connections := RowsOf(rows, e), EdgeTotal(rows, Connections, e);
            var p95 := P95Of(MergeAll(HistsOf(mine)));
            && Keeps(store, after, DurationId(e, "avg"),
                     if connections > 0 then Some(DurationTotal(mine) as real / connections as real) else None)
            && Keeps(store, after, DurationId(e, "max"), if longest > 0 then Some(longest as real) else None)
            && Keeps(store, after, DurationId(e, "p95"), if p95.Some? then Some(p95.value as real) else None)
  {
    hide CountersOf, DurationsOf, CounterPoints, AllDurationPoints, WriteAll, P95Of, MergeAll, RowsOf, EdgeTotal;
    var counted, timed := CounterPoints(CountersOf(rows), series), AllDurationPoints(DurationsOf(rows), rows, edges);
    WriteAllConcat(store, counted, timed);
    DurationsSumTheirRows(rows, e);
    if e !in edges { NoRowsNoDurations(rows, e); }
    forall statistic: Statistic
      ensures Keeps(store, WriteAll(store, counted + timed), DurationId(e, FieldOf(statistic)),
                    if e in edges then ValueOf(DurationsOf(rows)[e], EdgeTotal(rows, Connections, e), statistic)
                    else None)
    {
      var id := DurationId(e, FieldOf(statistic));
      CounterPointsHave(CountersOf(rows), series, id);
      WriteAllLeaves(store, counted, id);
      AllDurationsStored(WriteAll(store, counted), DurationsOf(rows), rows, edges, e, statistic);
    }
    assert FieldOf(Average) == "avg" && FieldOf(Longest) == "max" && FieldOf(P95) == "p95";
    if e in edges {
      OneLongest(DurationsOf(rows)[e].max, longest, RowsOf(rows, e));
    }
  }

  lemma OneLongest(m: nat, n: nat, rows: seq<EdgeRow>)
    requires IsLongest(m, rows) && IsLongest(n, rows)
    ensures m == n
  {
  }

  lemma {:induction false} NoRowsNoDurations(rows: seq<EdgeRow>, e: Edge)
    requires RowsOf(rows, e) == []
    ensures EdgeTotal(rows, Connections, e) == 0 && P95Of(MergeAll(HistsOf([]))).None?
  {
    if rows != [] {
      NoRowsNoDurations(rows[..|rows| - 1], e);
    }
  }
}
