/**
  Where every client span ends up when clients precede their servers, and what the
  accumulator's self-monitoring counters mean.
 */
module EdgeBalance {
  import opened Wrappers
  import opened Spans
  import opened Samples
  import opened Totals
  import opened EdgePairing
  import opened EdgeTheorems
  import R = SampleRuns

  // ---------------------------------------------------------------- clients first

  predicate IsClient(op: Op) { op.Observed? && op.span.kind.Client? }

  predicate IsServer(op: Op) { op.Observed? && op.span.kind.Server? && op.span.parentSpanId != "" }

  // Each client span is seen once, and no server is seen before its client.
  ghost predicate ClientsFirst(ops: seq<Op>) {
    && (forall i, j | 0 <= i < j < |ops| && IsClient(ops[i]) && IsClient(ops[j]) ::
        OwnKey(ops[i].span) != OwnKey(ops[j].span))
    && (forall i, j | 0 <= i < j < |ops| && IsServer(ops[i]) && IsClient(ops[j]) ::
        ParentKey(ops[i].span) != OwnKey(ops[j].span))
  }

  ghost predicate SeenClient(ops: seq<Op>, key: CallKey) {
    exists i :: 0 <= i < |ops| && IsClient(ops[i]) && OwnKey(ops[i].span) == key
  }

  ghost predicate SeenServerOf(ops: seq<Op>, key: CallKey) {
    exists i :: 0 <= i < |ops| && IsServer(ops[i]) && ParentKey(ops[i].span) == key
  }

  ghost predicate Counted(counted: seq<Call>, key: CallKey) {
    exists i :: 0 <= i < |counted| && counted[i].client == key
  }

  ghost predicate CountedOnce(counted: seq<Call>) {
    forall i, j | 0 <= i < j < |counted| :: counted[i].client != counted[j].client
  }

  // Waiting clients are uncounted, recorded ones counted, and none is counted twice.
  ghost predicate Ledger(waiting: set<CallKey>, recorded: set<CallKey>, counted: seq<Call>) {
    && CountedOnce(counted)
    && (forall k | k in waiting :: !Counted(counted, k))
    && (forall k | k in recorded :: Counted(counted, k))
  }

  lemma CountedSnoc(counted: seq<Call>, call: Call, key: CallKey)
    ensures Counted(counted + [call], key) <==> Counted(counted, key) || key == call.client
  {
    var longer := counted + [call];
    if Counted(counted, key) {
      var i :| 0 <= i < |counted| && counted[i].client == key;
      assert longer[i].client == key;
    }
    if key == call.client {
      assert longer[|counted|].client == key;
    }
  }

  // A waiting client moves to the counted side.
  lemma LedgerMoves(waiting: set<CallKey>, recorded: set<CallKey>, counted: seq<Call>, call: Call)
    requires Ledger(waiting, recorded, counted) && call.client in waiting
    ensures call.client !in recorded
    ensures Ledger(waiting - {call.client}, recorded + {call.client}, counted + [call])
  {
    forall k ensures Counted(counted + [call], k) <==> Counted(counted, k) || k == call.client {
      CountedSnoc(counted, call, k);
    }
    assert forall i | 0 <= i < |counted| :: Counted(counted, counted[i].client);
  }

  ghost predicate Balanced(w: World, ops: seq<Op>) {
    && Ledger(w.state.waitingServer.Keys, w.state.recorded.Keys, w.counted)
    && w.arrivals == |w.counted| + |w.state.waitingServer| + w.evictedClients
    && (forall k | k in w.state.waitingServer || Counted(w.counted, k) :: SeenClient(ops, k))
    && (forall k | k in w.state.waitingClient :: SeenServerOf(ops, k))
  }

  lemma SeenGrows(ops: seq<Op>, op: Op, key: CallKey)
    ensures SeenClient(ops, key) ==> SeenClient(ops + [op], key)
    ensures SeenServerOf(ops, key) ==> SeenServerOf(ops + [op], key)
    ensures IsClient(op) && OwnKey(op.span) == key ==> SeenClient(ops + [op], key)
    ensures IsServer(op) && ParentKey(op.span) == key ==> SeenServerOf(ops + [op], key)
  {
    var longer := ops + [op];
    assert longer[|ops|] == op;
    assert forall i | 0 <= i < |ops| :: longer[i] == ops[i];
  }

  // The balance right after pairing, before eviction.
  ghost predicate PairedBalance(w: World, paired: State, calls: seq<Call>, arrived: nat, ops: seq<Op>) {
    && Ledger(paired.waitingServer.Keys, paired.recorded.Keys, w.counted + calls)
    && w.arrivals + arrived == |w.counted + calls| + |paired.waitingServer| + w.evictedClients
    && (forall k | k in paired.waitingServer || Counted(w.counted + calls, k) :: SeenClient(ops, k))
    && (forall k | k in paired.waitingClient :: SeenServerOf(ops, k))
  }

  lemma ClientBalances(cfg: Config, w: World, ops: seq<Op>, op: Op)
    requires Balanced(w, ops) && IsClient(op) && ClientsFirst(ops + [op])
    ensures var (paired, calls) := Paired(cfg, w.state, op.span, op.agentId);
            PairedBalance(w, paired, calls, 1, ops + [op])
  {
    var own, longer := OwnKey(op.span), ops + [op];
    assert longer[|ops|] == op && forall i | 0 <= i < |ops| :: longer[i] == ops[i];
    assert !SeenClient(ops, own) && !SeenServerOf(ops, own);
    assert own !in w.state.waitingClient && own !in w.state.waitingServer;
    assert w.counted + [] == w.counted;
    forall k ensures SeenClient(ops, k) ==> SeenClient(longer, k)
             ensures SeenServerOf(ops, k) ==> SeenServerOf(longer, k)
    { SeenGrows(ops, op, k); }
    SeenGrows(ops, op, own);
  }

  lemma ServerFindsClient(cfg: Config, s: State, span: Span, agentId: string)
    requires span.kind.Server? && Relevant(span) && ParentKey(span) in s.waitingServer && ParentKey(span) !in s.recorded
    ensures var (paired, calls) := Paired(cfg, s, span, agentId);
            && |calls| == 1 && calls[0].client == ParentKey(span)
            && paired.waitingServer.Keys == s.waitingServer.Keys - {ParentKey(span)}
            && paired.recorded.Keys == s.recorded.Keys + {ParentKey(span)}
            && paired.waitingClient == s.waitingClient
            && |paired.waitingServer| == |s.waitingServer| - 1
  {
    var paired := Paired(cfg, s, span, agentId).0;
    assert paired.waitingServer == s.waitingServer - {ParentKey(span)};
    SmallerByOne(s.waitingServer, ParentKey(span));
  }

  lemma SmallerByOne<K, V>(m: map<K, V>, k: K)
    requires k in m
    ensures |m - {k}| == |m| - 1 && (m - {k}).Keys == m.Keys - {k}
  {
  }

  lemma ServerBalances(cfg: Config, w: World, ops: seq<Op>, op: Op)
    requires Balanced(w, ops) && IsServer(op)
    ensures var (paired, calls) := Paired(cfg, w.state, op.span, op.agentId);
            PairedBalance(w, paired, calls, 0, ops + [op])
  {
    var key := ParentKey(op.span);
    forall k ensures SeenClient(ops, k) ==> SeenClient(ops + [op], k)
             ensures SeenServerOf(ops, k) ==> SeenServerOf(ops + [op], k)
    { SeenGrows(ops, op, k); }
    SeenGrows(ops, op, key);
    if key in w.state.waitingServer {
      assert key !in w.state.recorded;
      ServerFindsClient(cfg, w.state, op.span, op.agentId);
      var (paired, calls) := Paired(cfg, w.state, op.span, op.agentId);
      CountOne(w, paired, calls, ops + [op]);
    } else {
      assert w.counted + [] == w.counted;
    }
  }

  lemma CountOne(w: World, paired: State, calls: seq<Call>, ops: seq<Op>)
    requires Ledger(w.state.waitingServer.Keys, w.state.recorded.Keys, w.counted)
    requires w.arrivals == |w.counted| + |w.state.waitingServer| + w.evictedClients
    requires forall k | k in w.state.waitingServer || Counted(w.counted, k) :: SeenClient(ops, k)
    requires |calls| == 1 && calls[0].client in w.state.waitingServer
    requires paired.waitingServer.Keys == w.state.waitingServer.Keys - {calls[0].client}
    requires paired.recorded.Keys == w.state.recorded.Keys + {calls[0].client}
    requires |paired.waitingServer| == |w.state.waitingServer| - 1
    requires forall k | k in paired.waitingClient :: SeenServerOf(ops, k)
    ensures PairedBalance(w, paired, calls, 0, ops)
  {
    assert calls == [calls[0]];
    LedgerMoves(w.state.waitingServer.Keys, w.state.recorded.Keys, w.counted, calls[0]);
    forall k ensures Counted(w.counted + calls, k) <==> Counted(w.counted, k) || k == calls[0].client {
      CountedSnoc(w.counted, calls[0], k);
    }
  }

  lemma {:induction false} FlushClientsBalance(cfg: Config, s: State, now: int, order: seq<CallKey>, counted: seq<Call>)
    requires Ledger(s.waitingServer.Keys, s.recorded.Keys, counted)
    ensures var (after, calls) := FlushClients(cfg, s, now, order);
            && Ledger(after.waitingServer.Keys, after.recorded.Keys, counted + calls)
            && |calls| + |after.waitingServer| == |s.waitingServer|
            && after.waitingClient == s.waitingClient && after.waitingServer.Keys <= s.waitingServer.Keys
            && (forall c | c in calls :: c.client in s.waitingServer)
  {
    if order == [] {
      assert counted + [] == counted;
    } else {
      var init, key := order[..|order| - 1], order[|order| - 1];
      FlushClientsBalance(cfg, s, now, init, counted);
      var (before, calls) := FlushClients(cfg, s, now, init);
      FlushClientBalances(cfg, before, now, key, counted + calls);
      var (after, more) := FlushClient(cfg, before, now, key);
      assert counted + (calls + more) == counted + calls + more;
    }
  }

  lemma FlushClientBalances(cfg: Config, s: State, now: int, key: CallKey, counted: seq<Call>)
    requires Ledger(s.waitingServer.Keys, s.recorded.Keys, counted)
    ensures var (after, calls) := FlushClient(cfg, s, now, key);
            && Ledger(after.waitingServer.Keys, after.recorded.Keys, counted + calls)
            && |calls| + |after.waitingServer| == |s.waitingServer|
            && after.waitingClient == s.waitingClient && after.waitingServer.Keys <= s.waitingServer.Keys
            && (forall c | c in calls :: c.client in s.waitingServer)
  {
    assert counted + [] == counted;
    if key in s.waitingServer && Closed(s.waitingServer[key].timestamp, now) {
      assert key !in s.recorded;
      FlushFindsClient(cfg, s, now, key);
      var calls := FlushClient(cfg, s, now, key).1;
      assert calls == [calls[0]];
      LedgerMoves(s.waitingServer.Keys, s.recorded.Keys, counted, calls[0]);
    }
  }

  lemma FlushFindsClient(cfg: Config, s: State, now: int, key: CallKey)
    requires key in s.waitingServer && Closed(s.waitingServer[key].timestamp, now) && key !in s.recorded
    ensures var (after, calls) := FlushClient(cfg, s, now, key);
            && |calls| == 1 && calls[0].client == key
            && after.waitingServer.Keys == s.waitingServer.Keys - {key}
            && after.recorded.Keys == s.recorded.Keys + {key}
            && after.waitingClient == s.waitingClient
            && |after.waitingServer| == |s.waitingServer| - 1
  {
    var after := FlushClient(cfg, s, now, key).0;
    assert after.waitingServer == s.waitingServer - {key};
    SmallerByOne(s.waitingServer, key);
  }

  lemma EvictionBalances(w: World, paired: State, calls: seq<Call>, op: Op, ops: seq<Op>)
    requires op.Observed? && Relevant(op.span)
    requires PairedBalance(w, paired, calls, if op.span.kind.Client? then 1 else 0, ops)
    ensures Balanced(AfterObserving(w, op.span, paired, calls, op.victims), ops)
  {
  }

  lemma FlushBalances(cfg: Config, w: World, op: Op, ops: seq<Op>)
    requires Balanced(w, ops) && op.Flushed?
    ensures Balanced(Apply(cfg, w, op), ops + [op])
  {
    FlushClientsBalance(cfg, w.state, op.now, op.clients, w.counted);
    var (closed, calls) := FlushClients(cfg, w.state, op.now, op.clients);
    FlushEdgesFrame(closed, op.edges);
    forall k ensures SeenClient(ops, k) ==> SeenClient(ops + [op], k)
             ensures SeenServerOf(ops, k) ==> SeenServerOf(ops + [op], k)
    { SeenGrows(ops, op, k); }
    forall k | Counted(w.counted + calls, k) ensures SeenClient(ops, k) {
      var i :| 0 <= i < |w.counted + calls| && (w.counted + calls)[i].client == k;
      if i < |w.counted| {
        assert w.counted[i].client == k;
      } else {
        assert calls[i - |w.counted|] in calls;
      }
    }
  }

  lemma {:induction false} RunBalanced(cfg: Config, ops: seq<Op>)
    requires ClientsFirst(ops)
    ensures Balanced(Run(cfg, ops), ops)
  {
    if ops != [] {
      var init, op := ops[..|ops| - 1], ops[|ops| - 1];
      assert ops == init + [op];
      RunBalanced(cfg, init);
      StepBalanced(cfg, Run(cfg, init), init, op);
    }
  }

  lemma StepBalanced(cfg: Config, w: World, ops: seq<Op>, op: Op)
    requires Balanced(w, ops) && ClientsFirst(ops + [op])
    ensures Balanced(Apply(cfg, w, op), ops + [op])
  {
    match op
    case Observed(span, agentId, victims) =>
      var (paired, calls) := Paired(cfg, w.state, span, agentId);
      if !Relevant(span) {
        assert w.counted + [] == w.counted;
        forall k ensures SeenClient(ops, k) ==> SeenClient(ops + [op], k)
                 ensures SeenServerOf(ops, k) ==> SeenServerOf(ops + [op], k)
        { SeenGrows(ops, op, k); }
      } else {
        if span.kind.Client? { ClientBalances(cfg, w, ops, op); } else { ServerBalances(cfg, w, ops, op); }
        EvictionBalances(w, paired, calls, op, ops + [op]);
      }
    case Flushed(_, _, _, _) =>
      FlushBalances(cfg, w, op, ops);
    case Drained(_, _) =>
      forall k ensures SeenClient(ops, k) ==> SeenClient(ops + [op], k)
               ensures SeenServerOf(ops, k) ==> SeenServerOf(ops + [op], k)
      { SeenGrows(ops, op, k); }
  }

  /**
    Written or intended dedup key alike: when each client is seen once and before its
    servers (servers may be replayed), every client is exactly one of counted (paired or
    fallback), still waiting, or evicted, and no client is ever counted twice.
   */
  lemma {:induction false} ClientsAreConserved(cfg: Config, ops: seq<Op>)
    requires ClientsFirst(ops)
    ensures var w := Run(cfg, ops);
            && w.arrivals == |w.counted| + |w.state.waitingServer| + w.evictedClients
            && CountedOnce(w.counted)
            && forall k | k in w.state.waitingServer :: !Counted(w.counted, k)
  {
    RunBalanced(cfg, ops);
  }

  // ---------------------------------------------------------------- capacity

  /**
    Only clients make room: after an eviction the pending spans are within capacity exactly when
    the servers still waiting are on their own; otherwise no client is left waiting.
   */
  lemma CapacityHeldIff(cfg: Config, s: State, now: int, victims: set<CallKey>)
    requires OldestVictims(cfg, Expire(s, now), victims)
    ensures var after, servers := Evict(s, now, victims), MapFold(Calls, Expire(s, now).waitingClient, ListLength());
            && (PendingCount(after) <= cfg.pendingCapacity <==> servers <= cfg.pendingCapacity)
            && (servers > cfg.pendingCapacity ==> after.waitingServer == map[])
  {
  }

  // ---------------------------------------------------------------- what eviction and flush take

  lemma {:induction false} FreshOnlyIsExact(spans: seq<Pending>, now: int, x: Pending)
    ensures x in FreshOnly(spans, now) <==> x in spans && Fresh(x.timestamp, now)
  {
    if spans != [] {
      FreshOnlyIsExact(spans[..|spans| - 1], now, x);
      assert spans == spans[..|spans| - 1] + [spans[|spans| - 1]];
    }
  }

  predicate ServerWaits(m: map<CallKey, seq<Pending>>, k: CallKey, x: Pending) { k in m && x in m[k] }

  lemma ServersExpireExactly(s: State, now: int, k: CallKey, x: Pending)
    ensures ServerWaits(Expire(s, now).waitingClient, k, x)
            <==> ServerWaits(s.waitingClient, k, x) && Fresh(x.timestamp, now)
  {
    hide FreshOnly;
    if k in s.waitingClient { FreshOnlyIsExact(s.waitingClient[k], now, x); }
  }

  /**
    Eviction takes exactly what is older than two minutes, and the victims: nothing stale stays,
    nothing fresh goes.
   */
  lemma EvictionIsExact(s: State, now: int, victims: set<CallKey>)
    ensures var after := Evict(s, now, victims);
            && (forall k :: k in after.waitingServer
                       <==> k in s.waitingServer && s.waitingServer[k].timestamp >= now - 120_000_000 && k !in victims)
            && (forall k, x ::
                  ServerWaits(after.waitingClient, k, x)
                  <==> ServerWaits(s.waitingClient, k, x) && x.timestamp >= now - 120_000_000)
            && (forall k :: k in after.recorded <==> k in s.recorded && s.recorded[k] >= now - 120_000_000)
  {
    hide FreshOnly, ServerWaits;
    forall k, x
      ensures ServerWaits(Evict(s, now, victims).waitingClient, k, x)
              <==> ServerWaits(s.waitingClient, k, x) && Fresh(x.timestamp, now)
    {
      ServersExpireExactly(s, now, k, x);
    }
  }

  // The fallback call of a waiting client.
  function FallbackOf(s: State, k: CallKey): Call
    requires k in s.waitingServer
  {
    CallOf(k, s.waitingServer[k], s.waitingServer[k].fallbackDst, s.waitingServer[k].agentId)
  }

  predicate Due(s: State, now: int, order: seq<CallKey>, k: CallKey) {
    k in order && k in s.waitingServer && s.waitingServer[k].timestamp + 60_000_000 <= now
  }

  /**
    A flush takes exactly the listed clients whose minute has closed, and turns exactly those not
    counted yet into calls on their fallback target.
   */
  lemma {:induction false} FlushTakesClosed(cfg: Config, s: State, now: int, order: seq<CallKey>)
    ensures var (after, calls) := FlushClients(cfg, s, now, order);
            && (forall k :: k in after.waitingServer <==> k in s.waitingServer && !Due(s, now, order, k))
            && (forall k | k in after.waitingServer :: after.waitingServer[k] == s.waitingServer[k])
            && (forall k :: k in after.recorded <==> k in s.recorded || Due(s, now, order, k))
            && (forall c ::
                c in calls <==> Due(s, now, order, c.client) && c.client !in s.recorded && c == FallbackOf(s, c.client))
  {
    if order != [] {
      var init, key := order[..|order| - 1], order[|order| - 1];
      FlushTakesClosed(cfg, s, now, init);
      var (before, calls) := FlushClients(cfg, s, now, init);
      var (after, more) := FlushClient(cfg, before, now, key);
      assert forall k :: Due(s, now, order, k) <==> Due(s, now, init, k) || (k == key && Due(s, now, order, k));
      FlushOneTakesClosed(cfg, before, now, key);
      assert forall c :: c in calls + more <==> c in calls || c in more;
    }
  }

  lemma FlushOneTakesClosed(cfg: Config, s: State, now: int, key: CallKey)
    ensures var (after, calls) := FlushClient(cfg, s, now, key);
            var due := key in s.waitingServer && Closed(s.waitingServer[key].timestamp, now);
            && (forall k :: k in after.waitingServer <==> k in s.waitingServer && !(k == key && due))
            && (forall k | k in after.waitingServer :: after.waitingServer[k] == s.waitingServer[k])
            && (forall k :: k in after.recorded <==> k in s.recorded || (k == key && due))
            && (forall c :: c in calls <==> due && key !in s.recorded && c == FallbackOf(s, key))
  {
  }

  // ---------------------------------------------------------------- self-monitoring counters

  lemma {:induction false} RecordServersFrame(cfg: Config, s: State, client: Span, agentId: string,
                                              servers: seq<Pending>)
    ensures RecordServers(cfg, s, client, agentId, servers).0.droppedPending == s.droppedPending
  {
    if servers != [] {
      RecordServersFrame(cfg, s, client, agentId, servers[..|servers| - 1]);
    }
  }

  lemma PairedKeepsDropped(cfg: Config, s: State, span: Span, agentId: string)
    ensures Paired(cfg, s, span, agentId).0.droppedPending == s.droppedPending
  {
    var own := OwnKey(span);
    if span.kind.Client? && own in s.waitingClient {
      RecordServersFrame(cfg, s.(waitingClient := s.waitingClient - {own}), span, agentId, s.waitingClient[own]);
    }
  }

  lemma {:induction false} FlushClientsKeepDropped(cfg: Config, s: State, now: int, order: seq<CallKey>)
    ensures FlushClients(cfg, s, now, order).0.droppedPending == s.droppedPending
  {
    if order != [] {
      FlushClientsKeepDropped(cfg, s, now, order[..|order| - 1]);
    }
  }

  lemma EvictCounts(s: State, now: int, victims: set<CallKey>)
    requires victims <= Expire(s, now).waitingServer.Keys
    ensures var after := Evict(s, now, victims);
            after.droppedPending == s.droppedPending + |s.waitingServer.Keys - after.waitingServer.Keys|
                                    + |s.recorded.Keys - after.recorded.Keys|
  {
  }

  /**
    The counter of dropped pending spans also counts dedup records that expired: it is the
    clients evicted while waiting plus those records, and never a server that gave up waiting.
   */
  lemma {:induction false} DroppedPendingCountsRecords(cfg: Config, ops: seq<Op>)
    requires ValidRun(cfg, ops)
    ensures Run(cfg, ops).state.droppedPending == Run(cfg, ops).evictedClients + Run(cfg, ops).expiredRecords
  {
    if ops != [] {
      var init, op := ops[..|ops| - 1], ops[|ops| - 1];
      DroppedPendingCountsRecords(cfg, init);
      var w := Run(cfg, init);
      match op
      case Observed(span, agentId, victims) =>
        PairedKeepsDropped(cfg, w.state, span, agentId);
        var (paired, calls) := Paired(cfg, w.state, span, agentId);
        if Relevant(span) { EvictCounts(paired, span.timestamp, victims); }
      case Flushed(now, clients, order, outcome) =>
        FlushClientsKeepDropped(cfg, w.state, now, clients);
        FlushEdgesFrame(FlushClients(cfg, w.state, now, clients).0, order);
      case Drained(_, _) =>
    }
  }

  // The calls flushes counted, on fallback targets.
  ghost function FallbacksIn(cfg: Config, ops: seq<Op>): nat {
    if ops == [] then 0
    else
      var init, op := ops[..|ops| - 1], ops[|ops| - 1];
      FallbacksIn(cfg, init)
      + if op.Flushed? then |FlushClients(cfg, Run(cfg, init).state, op.now, op.clients).1| else 0
  }

  lemma {:induction false} RecordServersPaired(cfg: Config, s: State, client: Span, agentId: string,
                                               servers: seq<Pending>)
    ensures var (after, calls) := RecordServers(cfg, s, client, agentId, servers);
            after.pairedEdges == s.pairedEdges + |calls|
  {
    if servers != [] { RecordServersPaired(cfg, s, client, agentId, servers[..|servers| - 1]); }
  }

  lemma PairedCounts(cfg: Config, s: State, span: Span, agentId: string)
    ensures var (paired, calls) := Paired(cfg, s, span, agentId); paired.pairedEdges == s.pairedEdges + |calls|
  {
    var own := OwnKey(span);
    if span.kind.Client? && own in s.waitingClient {
      RecordServersPaired(cfg, s.(waitingClient := s.waitingClient - {own}), span, agentId, s.waitingClient[own]);
    }
  }

  lemma {:induction false} FlushClientsKeepPaired(cfg: Config, s: State, now: int, order: seq<CallKey>)
    ensures FlushClients(cfg, s, now, order).0.pairedEdges == s.pairedEdges
  {
    if order != [] { FlushClientsKeepPaired(cfg, s, now, order[..|order| - 1]); }
  }

  /** The counter of paired edges is every counted call that is not a fallback of a flush. */
  lemma {:induction false} PairedEdgesCountPairs(cfg: Config, ops: seq<Op>)
    ensures Run(cfg, ops).state.pairedEdges + FallbacksIn(cfg, ops) == |Run(cfg, ops).counted|
  {
    if ops != [] {
      var init, op := ops[..|ops| - 1], ops[|ops| - 1];
      PairedEdgesCountPairs(cfg, init);
      var w := Run(cfg, init);
      match op
      case Observed(span, agentId, victims) => PairedCounts(cfg, w.state, span, agentId);
      case Flushed(now, clients, order, outcome) =>
        FlushClientsKeepPaired(cfg, w.state, now, clients);
        FlushEdgesFrame(FlushClients(cfg, w.state, now, clients).0, order);
      case Drained(_, _) =>
    }
  }

  // ---------------------------------------------------------------- samples over the cap

  // Samples dropped beyond those the groups still in the table account for.
  ghost function DrainedDrops(s: State): int {
    s.droppedSamples - MapFold(Calls, s.samples, R.Excess())
  }

  lemma SampleAccounts(cfg: Config, s: State, call: Call)
    requires R.Capped(cfg.groupCap, s.samples)
    ensures R.Capped(cfg.groupCap, Sample(cfg, s, call).samples)
    ensures DrainedDrops(Sample(cfg, s, call)) == DrainedDrops(s)
  {
    var k := GroupOf(call);
    var before := if k in s.samples then s.samples[k] else EMPTY_GROUP;
    FoldUpdate(Calls, s.samples, R.Excess(), k, Extend(cfg.groupCap, before, call.duration),
               if Overflows(cfg.groupCap, s.samples, k) then 1 else 0);
  }

  ghost predicate Accounted(cfg: Config, s: State, after: State) {
    R.Capped(cfg.groupCap, after.samples) && DrainedDrops(after) == DrainedDrops(s)
  }

  lemma RecordAccounts(cfg: Config, s: State, dedup: CallKey, call: Call)
    requires R.Capped(cfg.groupCap, s.samples)
    ensures Accounted(cfg, s, Record(cfg, s, dedup, call).0)
  {
    if dedup !in s.recorded {
      SampleAccounts(cfg,
                     s.(recorded := s.recorded[dedup := call.timestamp],
                        edges := AddTo(s.edges, call.edge, TotalOf(call)),
                             pairedEdges := s.pairedEdges + 1), call);
    }
  }

  lemma {:induction false} RecordServersAccount(cfg: Config, s: State, client: Span, agentId: string,
                                                servers: seq<Pending>)
    requires R.Capped(cfg.groupCap, s.samples)
    ensures Accounted(cfg, s, RecordServers(cfg, s, client, agentId, servers).0)
  {
    if servers != [] {
      var init := servers[..|servers| - 1];
      RecordServersAccount(cfg, s, client, agentId, init);
      RecordAccounts(cfg, RecordServers(cfg, s, client, agentId, init).0, DedupOf(cfg, client),
                     CallOf(OwnKey(client), PendingOf(client, agentId), servers[|servers| - 1].service, agentId));
    }
  }

  lemma PairedAccounts(cfg: Config, s: State, span: Span, agentId: string)
    requires R.Capped(cfg.groupCap, s.samples)
    ensures Accounted(cfg, s, Paired(cfg, s, span, agentId).0)
  {
    if !Relevant(span) {
    } else if span.kind.Client? {
      var own := OwnKey(span);
      if own in s.waitingClient {
        RecordServersAccount(cfg, s.(waitingClient := s.waitingClient - {own}), span, agentId, s.waitingClient[own]);
      }
    } else {
      var key := ParentKey(span);
      if key in s.waitingServer {
        RecordAccounts(cfg, s.(waitingServer := s.waitingServer - {key}), key,
                       CallOf(key, s.waitingServer[key], span.service, agentId));
      }
    }
  }

  lemma {:induction false} FlushClientsAccount(cfg: Config, s: State, now: int, order: seq<CallKey>)
    requires R.Capped(cfg.groupCap, s.samples)
    ensures Accounted(cfg, s, FlushClients(cfg, s, now, order).0)
  {
    if order != [] {
      var init, key := order[..|order| - 1], order[|order| - 1];
      FlushClientsAccount(cfg, s, now, init);
      var before := FlushClients(cfg, s, now, init).0;
      if key in before.waitingServer && Closed(before.waitingServer[key].timestamp, now) && key !in before.recorded {
        var client := before.waitingServer[key];
        SampleAccounts(cfg,
                       before.(waitingServer := before.waitingServer - {key},
                               recorded := before.recorded[key := client.timestamp]),
                       CallOf(key, client, client.fallbackDst, client.agentId));
      }
    }
  }

  /**
    The edges' share of the dropped samples: a group keeps as many samples as it counted, up to
    the cap, and the samples dropped are exactly the shortfall of present and drained groups.
    The counter of the source takes the service side too (SampleRuns.DroppedIsShortfall).
   */
  lemma {:induction false} DroppedSamplesAccounted(cfg: Config, ops: seq<Op>)
    requires ValidRun(cfg, ops)
    ensures var w := Run(cfg, ops);
            && R.Capped(cfg.groupCap, w.state.samples)
            && w.state.droppedSamples
               == MapFold(Calls, w.state.samples, R.Excess()) + SeqFold(Calls, w.drained, R.StatsExcess())
  {
    if ops != [] {
      var init, op := ops[..|ops| - 1], ops[|ops| - 1];
      DroppedSamplesAccounted(cfg, init);
      var w := Run(cfg, init);
      match op
      case Observed(span, agentId, victims) =>
        PairedAccounts(cfg, w.state, span, agentId);
        var (paired, calls) := Paired(cfg, w.state, span, agentId);
        ObservedMoves(w, span, paired, calls, victims);
        EvictKeepsDrops(paired, span.timestamp, victims);
      case Flushed(now, clients, order, outcome) =>
        FlushClientsAccount(cfg, w.state, now, clients);
        FlushEdgesFrame(FlushClients(cfg, w.state, now, clients).0, order);
      case Drained(now, out) =>
        R.DrainKeepsShortfall(cfg.groupCap, w.state.samples, now, out);
        SeqFoldConcat(Calls, w.drained, out, R.StatsExcess());
    }
  }

  lemma EvictKeepsDrops(s: State, now: int, victims: set<CallKey>)
    ensures Evict(s, now, victims).droppedSamples == s.droppedSamples && Evict(s, now, victims).samples == s.samples
  {
  }
}
