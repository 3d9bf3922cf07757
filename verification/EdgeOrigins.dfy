/**
  Where counted calls, edges, rows and samples come from, in terms of the fields of the spans
  that were observed: who called whom, in which minute, and what a call weighs.
 */
module EdgeOrigins {
  import opened Wrappers
  import opened Spans
  import opened Samples
  import opened Totals
  import opened EdgePairing
  import opened EdgeTheorems
  import B = EdgeBalance

  // ---------------------------------------------------------------- spans behind pending entries

  function FallbackName(peerHost: string): string {
    if peerHost == "" then "unknown" else "unknown:" + peerHost
  }

  // This step observed the client with this key.
  predicate ObservesClient(op: Op, key: CallKey) {
    op.Observed? && op.span.kind.Client? && op.span.traceId == key.traceId && op.span.spanId == key.spanId
  }

  // This step observed a server called by the client with this key.
  predicate ObservesServerOf(op: Op, key: CallKey) {
    && op.Observed? && op.span.kind.Server? && op.span.traceId == key.traceId
    && op.span.parentSpanId == key.spanId && key.spanId != ""
  }

  ghost predicate ClientBehind(ops: seq<Op>, key: CallKey, p: Pending) {
    exists op | op in ops && ObservesClient(op, key) ::
      && p.service == op.span.service && p.timestamp == op.span.timestamp && p.duration == op.span.duration
      && p.status == op.span.status && p.agentId == op.agentId && p.fallbackDst == FallbackName(op.span.peerHost)
  }

  ghost predicate ServerBehind(ops: seq<Op>, key: CallKey, p: Pending) {
    exists op | op in ops && ObservesServerOf(op, key) ::
        p.service == op.span.service && p.timestamp == op.span.timestamp
  }

  // The minute that holds a time.
  predicate HoldsTime(minute: int, time: int) {
    minute % 60_000_000 == 0 && minute <= time < minute + 60_000_000
  }

  // The call has the client's time, outcome and duration, starts at its service and is counted in its minute.
  predicate IsCallOf(c: Call, client: Op)
    requires client.Observed?
  {
    && c.timestamp == client.span.timestamp && c.status == client.span.status && c.duration == client.span.duration
    && c.edge.src == client.span.service && HoldsTime(c.edge.bucketStart, client.span.timestamp)
  }

  // It goes to the service of a server it called, by whoever reported either of them, or to the fallback.
  ghost predicate GoesTo(ops: seq<Op>, c: Call, client: Op)
    requires client.Observed?
  {
    || (c.edge.dst == FallbackName(client.span.peerHost) && c.edge.agentId == client.agentId)
    || (exists op | op in ops && ObservesServerOf(op, c.client) ::
          c.edge.dst == op.span.service && (c.edge.agentId == op.agentId || c.edge.agentId == client.agentId))
  }

  ghost predicate CallBehind(ops: seq<Op>, c: Call) {
    exists client | client in ops && ObservesClient(client, c.client) :: IsCallOf(c, client) && GoesTo(ops, c, client)
  }

  ghost predicate Traced(s: State, ops: seq<Op>) {
    && (forall k | k in s.waitingServer :: ClientBehind(ops, k, s.waitingServer[k]))
    && (forall k, x | k in s.waitingClient && x in s.waitingClient[k] :: ServerBehind(ops, k, x))
  }

  lemma BehindGrows(ops: seq<Op>, op: Op, key: CallKey, p: Pending)
    ensures ClientBehind(ops, key, p) ==> ClientBehind(ops + [op], key, p)
    ensures ServerBehind(ops, key, p) ==> ServerBehind(ops + [op], key, p)
  {
    assert forall o | o in ops :: o in ops + [op];
  }

  lemma CallGrows(ops: seq<Op>, op: Op, c: Call)
    ensures CallBehind(ops, c) ==> CallBehind(ops + [op], c)
  {
    assert forall o | o in ops :: o in ops + [op];
  }

  lemma TracedGrows(s: State, ops: seq<Op>, op: Op)
    requires Traced(s, ops)
    ensures Traced(s, ops + [op])
  {
    hide ClientBehind, ServerBehind;
    forall k | k in s.waitingServer ensures ClientBehind(ops + [op], k, s.waitingServer[k]) {
      BehindGrows(ops, op, k, s.waitingServer[k]);
    }
    forall k, x | k in s.waitingClient && x in s.waitingClient[k] ensures ServerBehind(ops + [op], k, x) {
      BehindGrows(ops, op, k, x);
    }
  }

  lemma FloorHolds(time: int)
    ensures HoldsTime(BucketOf(time), time)
  {
  }

  // A call made of a pending client and a server of it, or of the client's fallback.
  lemma PairedCallBehind(ops: seq<Op>, key: CallKey, client: Pending, dst: string, agentId: string, server: Op)
    requires ClientBehind(ops, key, client) && server in ops && ObservesServerOf(server, key)
    requires dst == server.span.service && (agentId == server.agentId || agentId == client.agentId)
    ensures CallBehind(ops, CallOf(key, client, dst, agentId))
  {
    FloorHolds(client.timestamp);
  }

  lemma FallbackCallBehind(ops: seq<Op>, key: CallKey, client: Pending)
    requires ClientBehind(ops, key, client)
    ensures CallBehind(ops, CallOf(key, client, client.fallbackDst, client.agentId))
  {
    FloorHolds(client.timestamp);
  }

  // ---------------------------------------------------------------- steps

  lemma {:induction false} RecordServersCalls(cfg: Config, s: State, client: Span, agentId: string,
                                              servers: seq<Pending>)
    ensures var (after, calls) := RecordServers(cfg, s, client, agentId, servers);
            && after.waitingClient == s.waitingClient && after.waitingServer == s.waitingServer
            && forall c | c in calls ::
                 exists x | x in servers :: c == CallOf(OwnKey(client), PendingOf(client, agentId), x.service, agentId)
  {
    if servers != [] {
      var init, last := servers[..|servers| - 1], servers[|servers| - 1];
      RecordServersCalls(cfg, s, client, agentId, init);
      assert forall x :: x in servers <==> x in init || x == last;
    }
  }

  lemma ClientTraced(cfg: Config, s: State, ops: seq<Op>, op: Op)
    requires Traced(s, ops) && op.Observed? && op.span.kind.Client?
    ensures var (paired, calls) := Paired(cfg, s, op.span, op.agentId);
            Traced(paired, ops + [op]) && forall c | c in calls :: CallBehind(ops + [op], c)
  {
    hide CallBehind, RecordServers;
    var longer, own, info := ops + [op], OwnKey(op.span), PendingOf(op.span, op.agentId);
    TracedGrows(s, ops, op);
    assert op in longer && ObservesClient(op, own) && ClientBehind(longer, own, info);
    if own in s.waitingClient {
      var servers := s.waitingClient[own];
      RecordServersCalls(cfg, s.(waitingClient := s.waitingClient - {own}), op.span, op.agentId, servers);
      forall x | x in servers ensures CallBehind(longer, CallOf(own, info, x.service, op.agentId)) {
        assert ServerBehind(longer, own, x);
        var server :| server in longer && ObservesServerOf(server, own) && x.service == server.span.service;
        PairedCallBehind(longer, own, info, x.service, op.agentId, server);
      }
    }
  }

  lemma ServerTraced(cfg: Config, s: State, ops: seq<Op>, op: Op)
    requires Traced(s, ops) && op.Observed? && op.span.kind.Server? && op.span.parentSpanId != ""
    ensures var (paired, calls) := Paired(cfg, s, op.span, op.agentId);
            Traced(paired, ops + [op]) && forall c | c in calls :: CallBehind(ops + [op], c)
  {
    hide CallBehind, ClientBehind;
    var longer, key := ops + [op], ParentKey(op.span);
    TracedGrows(s, ops, op);
    assert op in longer && ObservesServerOf(op, key);
    if key in s.waitingServer {
      PairedCallBehind(longer, key, s.waitingServer[key], op.span.service, op.agentId, op);
    } else {
      assert ServerBehind(longer, key, PendingOf(op.span, op.agentId));
    }
  }

  lemma EvictTraced(s: State, now: int, victims: set<CallKey>, ops: seq<Op>)
    requires Traced(s, ops)
    ensures Traced(Evict(s, now, victims), ops)
  {
    hide ClientBehind, ServerBehind, FreshOnly;
    forall k, x | k in s.waitingClient && x in FreshOnly(s.waitingClient[k], now) ensures x in s.waitingClient[k] {
      B.FreshOnlyIsExact(s.waitingClient[k], now, x);
    }
  }

  lemma {:induction false} FlushTraced(cfg: Config, s: State, now: int, order: seq<CallKey>, ops: seq<Op>)
    requires Traced(s, ops)
    ensures var (after, calls) := FlushClients(cfg, s, now, order);
            Traced(after, ops) && forall c | c in calls :: CallBehind(ops, c)
  {
    hide ClientBehind, ServerBehind, CallBehind;
    if order != [] {
      var init, key := order[..|order| - 1], order[|order| - 1];
      FlushTraced(cfg, s, now, init, ops);
      var before := FlushClients(cfg, s, now, init).0;
      if key in before.waitingServer { FallbackCallBehind(ops, key, before.waitingServer[key]); }
    }
  }

  /**
    Every call a run counts is one of an observed client span: with its time, status and duration,
    from its service, in the minute that holds its time, and either to the service of an observed
    server whose parent it is, or to the name its peer host gives.
   */
  lemma {:induction false} CallsComeFromSpans(cfg: Config, ops: seq<Op>)
    ensures Traced(Run(cfg, ops).state, ops)
    ensures forall c | c in Run(cfg, ops).counted :: CallBehind(ops, c)
  {
    hide CallBehind, Traced, Paired, Evict, FlushClients;
    if ops == [] {
      NothingTraced(ops);
    } else {
      var init, op := ops[..|ops| - 1], ops[|ops| - 1];
      CallsComeFromSpans(cfg, init);
      var w := Run(cfg, init);
      assert ops == init + [op];
      forall c | c in w.counted ensures CallBehind(ops, c) { CallGrows(init, op, c); }
      TracedGrows(w.state, init, op);
      match op
      case Observed(span, agentId, victims) => ObservationTraced(cfg, w, init, op);
      case Flushed(now, clients, order, outcome) =>
        FlushTraced(cfg, w.state, now, clients, ops);
        FlushEdgesFrame(FlushClients(cfg, w.state, now, clients).0, order);
        SamePending(FlushClients(cfg, w.state, now, clients).0, Run(cfg, ops).state, ops);
      case Drained(_, _) => SamePending(w.state, Run(cfg, ops).state, ops);
    }
  }

  lemma ObservationTraced(cfg: Config, w: World, ops: seq<Op>, op: Op)
    requires op.Observed? && Traced(w.state, ops) && forall c | c in w.counted :: CallBehind(ops + [op], c)
    ensures Traced(Apply(cfg, w, op).state, ops + [op])
    ensures forall c | c in Apply(cfg, w, op).counted :: CallBehind(ops + [op], c)
  {
    hide CallBehind, Traced, Evict;
    var (paired, calls) := Paired(cfg, w.state, op.span, op.agentId);
    TracedGrows(w.state, ops, op);
    if Relevant(op.span) {
      if op.span.kind.Client? { ClientTraced(cfg, w.state, ops, op); } else { ServerTraced(cfg, w.state, ops, op); }
      EvictTraced(paired, op.span.timestamp, op.victims, ops + [op]);
    }
  }

  lemma NothingTraced(ops: seq<Op>)
    ensures Traced(INITIAL, ops)
  {
  }

  lemma SamePending(s: State, t: State, ops: seq<Op>)
    requires Traced(s, ops) && t.waitingServer == s.waitingServer && t.waitingClient == s.waitingClient
    ensures Traced(t, ops)
  {
  }

  // ---------------------------------------------------------------- keys of edges, rows and samples

  ghost predicate EdgeCounted(counted: seq<Call>, k: EdgeKey) {
    exists c | c in counted :: c.edge == k
  }

  // A sample group of some counted call: its minute, both services and its status.
  ghost predicate GroupCounted(counted: seq<Call>, g: GroupKey) {
    exists c | c in counted ::
      g == GroupKey(c.edge.bucketStart, c.edge.src, c.edge.dst, "server", c.status)
  }

  // A stored row is keyed by some counted call's edge, or by what its unknown target resolved to.
  ghost predicate RowCounted(counted: seq<Call>, k: EdgeKey) {
    exists c | c in counted ::
      && k.bucketStart == c.edge.bucketStart && k.src == c.edge.src && k.agentId == c.edge.agentId
      && (k.dst == c.edge.dst || (|c.edge.dst| >= 7 && c.edge.dst[..7] == "unknown"))
  }

  ghost predicate KeysCounted(s: State, counted: seq<Call>) {
    && (forall k | k in s.edges :: EdgeCounted(counted, k))
    && (forall g | g in s.samples :: GroupCounted(counted, g))
  }

  lemma CountedMore(counted: seq<Call>, calls: seq<Call>)
    ensures forall k | EdgeCounted(counted, k) :: EdgeCounted(counted + calls, k)
    ensures forall g | GroupCounted(counted, g) :: GroupCounted(counted + calls, g)
    ensures forall k | RowCounted(counted, k) :: RowCounted(counted + calls, k)
  {
    assert forall c | c in counted :: c in counted + calls;
  }

  lemma RecordKeys(cfg: Config, s: State, dedup: CallKey, call: Call, counted: seq<Call>)
    requires KeysCounted(s, counted)
    ensures var (after, calls) := Record(cfg, s, dedup, call); KeysCounted(after, counted + calls)
  {
    CountedMore(counted, Record(cfg, s, dedup, call).1);
    if dedup !in s.recorded { assert call in counted + [call]; }
  }

  lemma {:induction false} RecordServersKeys(cfg: Config, s: State, client: Span, agentId: string,
                                             servers: seq<Pending>,
                                             counted: seq<Call>)
    requires KeysCounted(s, counted)
    ensures var (after, calls) := RecordServers(cfg, s, client, agentId, servers); KeysCounted(after, counted + calls)
  {
    hide KeysCounted, Record;
    if servers == [] {
      assert counted + [] == counted;
    } else {
      var init, last := servers[..|servers| - 1], servers[|servers| - 1];
      RecordServersKeys(cfg, s, client, agentId, init, counted);
      var (before, calls) := RecordServers(cfg, s, client, agentId, init);
      var call := CallOf(OwnKey(client), PendingOf(client, agentId), last.service, agentId);
      RecordKeys(cfg, before, DedupOf(cfg, client), call, counted + calls);
      var more := Record(cfg, before, DedupOf(cfg, client), call).1;
      assert counted + (calls + more) == counted + calls + more;
    }
  }

  lemma PairedKeys(cfg: Config, s: State, span: Span, agentId: string, counted: seq<Call>)
    requires KeysCounted(s, counted)
    ensures var (paired, calls) := Paired(cfg, s, span, agentId); KeysCounted(paired, counted + calls)
  {
    hide Record, RecordServers, EdgeCounted, GroupCounted;
    assert counted + [] == counted;
    if Relevant(span) {
      if span.kind.Client? {
        var own := OwnKey(span);
        if own in s.waitingClient {
          RecordServersKeys(cfg, s.(waitingClient := s.waitingClient - {own}), span, agentId, s.waitingClient[own],
                            counted);
        }
      } else {
        var key := ParentKey(span);
        if key in s.waitingServer {
          RecordKeys(cfg, s.(waitingServer := s.waitingServer - {key}), key,
                     CallOf(key, s.waitingServer[key], span.service, agentId), counted);
        }
      }
    }
  }

  lemma {:induction false} FlushClientsKeys(cfg: Config, s: State, now: int, order: seq<CallKey>, counted: seq<Call>)
    requires KeysCounted(s, counted)
    ensures var (after, calls) := FlushClients(cfg, s, now, order); KeysCounted(after, counted + calls)
  {
    hide EdgeCounted, GroupCounted;
    if order == [] {
      assert counted + [] == counted;
    } else {
      var init, key := order[..|order| - 1], order[|order| - 1];
      FlushClientsKeys(cfg, s, now, init, counted);
      var (before, calls) := FlushClients(cfg, s, now, init);
      FlushClientKeys(cfg, before, now, key, counted + calls);
      var more := FlushClient(cfg, before, now, key).1;
      assert counted + (calls + more) == counted + calls + more;
    }
  }

  lemma FlushClientKeys(cfg: Config, s: State, now: int, key: CallKey, counted: seq<Call>)
    requires KeysCounted(s, counted)
    ensures var (after, calls) := FlushClient(cfg, s, now, key); KeysCounted(after, counted + calls)
  {
    var (after, calls) := FlushClient(cfg, s, now, key);
    CountedMore(counted, calls);
    if calls != [] { assert calls[0] in counted + calls; }
  }

  lemma {:induction false} FlushEdgesItems(s: State, order: seq<EdgeKey>)
    ensures var (after, items) := FlushEdges(s, order);
            after.edges.Keys <= s.edges.Keys && forall i | i in items :: i.edge in s.edges
  {
    if order != [] { FlushEdgesItems(s, order[..|order| - 1]); }
  }

  lemma {:induction false} ItemsOfCalls(calls: seq<Call>)
    ensures forall i | i in ItemsOf(calls) :: EdgeCounted(calls, i.edge)
  {
    if calls != [] {
      var init, last := calls[..|calls| - 1], calls[|calls| - 1];
      ItemsOfCalls(init);
      assert calls == init + [last];
      CountedMore(init, [last]);
      assert last in calls;
    }
  }

  ghost predicate ItemsCounted(counted: seq<Call>, items: seq<Item>) {
    forall i | i in items :: EdgeCounted(counted, i.edge)
  }

  lemma TakenItems(cfg: Config, s: State, now: int, clients: seq<CallKey>, edges: seq<EdgeKey>, counted: seq<Call>)
    requires KeysCounted(s, counted)
    ensures var (after, calls, batch) := TakeBatch(cfg, s, now, clients, edges);
            KeysCounted(after, counted + calls) && ItemsCounted(counted + calls, batch)
  {
    hide FlushClients, FlushEdges, EdgeCounted, GroupCounted;
    FlushClientsKeys(cfg, s, now, clients, counted);
    var (closed, calls) := FlushClients(cfg, s, now, clients);
    FlushEdgesItems(closed, edges);
    FlushEdgesFrame(closed, edges);
    ItemsOfCalls(calls);
    forall i | i in ItemsOf(calls) ensures EdgeCounted(counted + calls, i.edge) { CountedLast(counted, calls, i.edge); }
  }

  lemma CountedLast(counted: seq<Call>, calls: seq<Call>, k: EdgeKey)
    requires EdgeCounted(calls, k)
    ensures EdgeCounted(counted + calls, k)
  {
    assert forall c | c in calls :: c in counted + calls;
  }

  lemma {:induction false} WrittenRows(rows: map<EdgeKey, Total>, batch: seq<Item>, outcome: nat -> Outcome,
                                       counted: seq<Call>)
    requires ItemsCounted(counted, batch) && forall k | k in rows :: RowCounted(counted, k)
    ensures var (after, lost) := WriteBatch(rows, batch, outcome);
            (forall k | k in after :: RowCounted(counted, k)) && ItemsCounted(counted, lost)
  {
    hide EdgeCounted, RowCounted;
    if batch != [] {
      var i := |batch| - 1;
      assert batch[i] in batch && forall x | x in batch[..i] :: x in batch;
      WrittenRows(rows, batch[..i], outcome, counted);
      ResolvedCounted(counted, batch[i].edge, outcome(i));
    }
  }

  lemma ResolvedCounted(counted: seq<Call>, edge: EdgeKey, outcome: Outcome)
    requires EdgeCounted(counted, edge)
    ensures RowCounted(counted, Resolved(edge, outcome))
  {
    ResolvesUnknownOnly(edge, outcome);
  }

  // Edges pending, rows stored, items lost and groups sampled or drained: all keyed by counted calls.
  ghost predicate AllCounted(w: World) {
    && KeysCounted(w.state, w.counted)
    && (forall k | k in w.rows :: RowCounted(w.counted, k))
    && ItemsCounted(w.counted, w.flushed) && ItemsCounted(w.counted, w.lost)
    && (forall g | g in w.drained :: GroupCounted(w.counted, g.key))
  }

  /** In every run, pending edges, stored rows, sample groups and what was drained are keyed by the calls counted. */
  lemma {:induction false} KeysComeFromCalls(cfg: Config, ops: seq<Op>)
    requires ValidRun(cfg, ops)
    ensures AllCounted(Run(cfg, ops))
  {
    hide AllCounted, Apply;
    if ops == [] {
      NothingCounted();
    } else {
      KeysComeFromCalls(cfg, ops[..|ops| - 1]);
      StepCounted(cfg, Run(cfg, ops[..|ops| - 1]), ops[|ops| - 1]);
    }
  }

  lemma NothingCounted()
    ensures AllCounted(START)
  {
  }

  lemma StepCounted(cfg: Config, w: World, op: Op)
    requires AllCounted(w) && ValidStep(cfg, w, op)
    ensures AllCounted(Apply(cfg, w, op))
  {
    hide EdgeCounted, GroupCounted, RowCounted;
    match op
    case Observed(span, agentId, victims) =>
      var (paired, calls) := Paired(cfg, w.state, span, agentId);
      PairedKeys(cfg, w.state, span, agentId, w.counted);
      ObservedMoves(w, span, paired, calls, victims);
      CountedMore(w.counted, calls);
    case Flushed(now, clients, order, outcome) =>
      var (after, calls, batch) := TakeBatch(cfg, w.state, now, clients, order);
      TakenItems(cfg, w.state, now, clients, order, w.counted);
      CountedMore(w.counted, calls);
      WrittenRows(w.rows, batch, outcome, w.counted + calls);
    case Drained(now, out) =>
      forall g | g in out ensures g.key in w.state.samples {
        var i :| 0 <= i < |out| && out[i] == g;
      }
  }

  // ---------------------------------------------------------------- one minute, one edge

  ghost predicate OnMinutes(w: World) {
    && (forall k | k in w.state.edges :: k.bucketStart % 60_000_000 == 0)
    && (forall k | k in w.rows :: k.bucketStart % 60_000_000 == 0)
    && (forall g | g in w.state.samples :: g.bucketStart % 60_000_000 == 0)
    && (forall g | g in w.drained :: g.key.bucketStart % 60_000_000 == 0)
  }

  /**
    In every run a call is counted in the minute that holds its time, and every pending edge, stored
    row and sample group is one of such a minute.
   */
  lemma {:induction false} CallsAreCountedInTheirMinute(cfg: Config, ops: seq<Op>)
    requires ValidRun(cfg, ops)
    ensures forall c | c in Run(cfg, ops).counted :: HoldsTime(c.edge.bucketStart, c.timestamp)
    ensures OnMinutes(Run(cfg, ops))
  {
    hide Run, ValidRun, Traced;
    KeysComeFromCalls(cfg, ops);
    CallsComeFromSpans(cfg, ops);
  }

  /**
    Two counted calls fall on the same edge exactly when the same minute holds their times and they
    go between the same services by the same agent: they share one row.
   */
  lemma {:induction false} SameMinuteSameEdge(cfg: Config, ops: seq<Op>, c: Call, d: Call)
    requires ValidRun(cfg, ops) && c in Run(cfg, ops).counted && d in Run(cfg, ops).counted
    ensures c.edge == d.edge
            <==> && c.edge.src == d.edge.src && c.edge.dst == d.edge.dst && c.edge.agentId == d.edge.agentId
                 && exists minute :: HoldsTime(minute, c.timestamp) && HoldsTime(minute, d.timestamp)
  {
    hide Run, ValidRun;
    CallsAreCountedInTheirMinute(cfg, ops);
  }

  // ---------------------------------------------------------------- the clock

  // Client spans and servers with a parent take part; other spans are ignored.
  predicate TakesPart(op: Op) {
    op.Observed? && (op.span.kind.Client? || (op.span.kind.Server? && op.span.parentSpanId != ""))
  }

  /**
    Eviction runs at the time of every span that takes part and at no other: two minutes before it is
    the oldest that stays, and everything else that was there stays but the clients dropped for room.
   */
  lemma ObservingEvicts(cfg: Config, w: World, op: Op)
    requires TakesPart(op)
    ensures var after, paired := Apply(cfg, w, op), Paired(cfg, w.state, op.span, op.agentId).0;
            var oldest := op.span.timestamp - 120_000_000;
            && after.clock == w.clock + {op.span.timestamp}
            && (forall k :: k in after.state.waitingServer
                  <==> k in paired.waitingServer && paired.waitingServer[k].timestamp >= oldest && k !in op.victims)
            && (forall k :: k in after.state.recorded <==> k in paired.recorded && paired.recorded[k] >= oldest)
            && (forall k, x :: B.ServerWaits(after.state.waitingClient, k, x)
                  <==> B.ServerWaits(paired.waitingClient, k, x) && x.timestamp >= oldest)
  {
    hide Paired, Evict, B.ServerWaits;
    B.EvictionIsExact(Paired(cfg, w.state, op.span, op.agentId).0, op.span.timestamp, op.victims);
  }

  lemma {:induction false} ClockIsObserved(cfg: Config, ops: seq<Op>, t: int)
    ensures t in Run(cfg, ops).clock <==> exists op | op in ops && TakesPart(op) :: op.span.timestamp == t
  {
    hide Apply, TakesPart;
    if ops != [] {
      var init, last := ops[..|ops| - 1], ops[|ops| - 1];
      ClockIsObserved(cfg, init, t);
      StepSetsClock(cfg, Run(cfg, init), last);
      assert forall op :: op in ops <==> op in init || op == last;
    }
  }

  lemma StepSetsClock(cfg: Config, w: World, op: Op)
    ensures Apply(cfg, w, op).clock == w.clock + if TakesPart(op) then {op.span.timestamp} else {}
  {
    hide Paired, Evict, TakeBatch, WriteBatch;
  }

  // ---------------------------------------------------------------- what a call weighs

  // The positions of the calls that qualify.
  ghost function Positions(calls: seq<Call>, of: Call -> bool): set<nat> {
    set i: nat | i < |calls| && of(calls[i])
  }

  function CoveredBy(scope: Scope): Call -> bool { (c: Call) => scope.Covers(c.edge) }

  function FailedIn(scope: Scope): Call -> bool { (c: Call) => scope.Covers(c.edge) && c.status == "error" }

  ghost function Durations(scope: Scope, calls: seq<Call>): nat {
    if calls == [] then 0
    else
      var last := calls[|calls| - 1];
      Durations(scope, calls[..|calls| - 1]) + if scope.Covers(last.edge) then last.duration else 0
  }

  lemma OneMorePosition(calls: seq<Call>, of: Call -> bool)
    requires calls != []
    ensures var init, n := calls[..|calls| - 1], |calls| - 1;
            && Positions(calls, of) == Positions(init, of) + (if of(calls[n]) then {n} else {})
            && |Positions(calls, of)| == |Positions(init, of)| + (if of(calls[n]) then 1 else 0)
  {
    var init, n := calls[..|calls| - 1], |calls| - 1;
    assert forall i | 0 <= i < n :: calls[i] == init[i];
    assert Positions(calls, of) == Positions(init, of) + (if of(calls[n]) then {n} else {});
  }

  lemma {:induction false} LastCallSum(scope: Scope, aspect: Aspect, calls: seq<Call>)
    requires calls != []
    ensures CallSum(scope, aspect, calls)
         == aspect.Join(CallSum(scope, aspect, calls[..|calls| - 1]), CallMeasure(scope, aspect)(calls[|calls| - 1]))
  {
  }

  lemma {:induction false} CallsAreCovered(scope: Scope, calls: seq<Call>)
    ensures CallSum(scope, Calls, calls) == |Positions(calls, CoveredBy(scope))|
  {
    if calls != [] {
      hide CallSum, Positions;
      CallsAreCovered(scope, calls[..|calls| - 1]);
      OneMorePosition(calls, CoveredBy(scope));
      LastCallSum(scope, Calls, calls);
    }
  }

  lemma {:induction false} ErrorsAreFailed(scope: Scope, calls: seq<Call>)
    ensures CallSum(scope, Errors, calls) == |Positions(calls, FailedIn(scope))|
  {
    if calls != [] {
      hide CallSum, Positions;
      ErrorsAreFailed(scope, calls[..|calls| - 1]);
      OneMorePosition(calls, FailedIn(scope));
      LastCallSum(scope, Errors, calls);
    }
  }

  lemma {:induction false} SumIsOfDurations(scope: Scope, calls: seq<Call>)
    ensures CallSum(scope, DurationSum, calls) == Durations(scope, calls)
  {
    if calls != [] {
      hide CallSum;
      SumIsOfDurations(scope, calls[..|calls| - 1]);
      LastCallSum(scope, DurationSum, calls);
    }
  }

  ghost predicate IsLongestCovered(m: nat, scope: Scope, calls: seq<Call>) {
    && (forall i | i in Positions(calls, CoveredBy(scope)) :: calls[i].duration <= m)
    && (m == 0 || exists i | i in Positions(calls, CoveredBy(scope)) :: calls[i].duration == m)
  }

  lemma {:induction false} LongestIsOfCalls(scope: Scope, calls: seq<Call>)
    ensures IsLongestCovered(CallSum(scope, DurationMax, calls), scope, calls)
  {
    if calls != [] {
      hide CallSum;
      var init, n := calls[..|calls| - 1], |calls| - 1;
      LongestIsOfCalls(scope, init);
      LastCallSum(scope, DurationMax, calls);
      if CallSum(scope, DurationMax, init) != 0 {
        var i :| i in Positions(init, CoveredBy(scope)) && init[i].duration == CallSum(scope, DurationMax, init);
        assert calls[i] == init[i] && i in Positions(calls, CoveredBy(scope));
      }
      if scope.Covers(calls[n].edge) { assert n in Positions(calls, CoveredBy(scope)); }
    }
  }

  /**
    What conservation counts, in the calls' own fields: a scope's calls are how many fall into it, its
    errors those with status "error", its sum and maximum the sum and the longest of their durations.
   */
  lemma {:induction false} SumsAreOfCalls(scope: Scope, calls: seq<Call>)
    ensures CallSum(scope, Calls, calls) == |Positions(calls, CoveredBy(scope))|
    ensures CallSum(scope, Errors, calls) == |Positions(calls, FailedIn(scope))|
    ensures CallSum(scope, DurationSum, calls) == Durations(scope, calls)
    ensures IsLongestCovered(CallSum(scope, DurationMax, calls), scope, calls)
  {
    CallsAreCovered(scope, calls);
    ErrorsAreFailed(scope, calls);
    SumIsOfDurations(scope, calls);
    LongestIsOfCalls(scope, calls);
  }
}
