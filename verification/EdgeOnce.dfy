/**
  How often a client span is counted as a call: at most once within the TTL when the dedup key
  is the client's own; with the written key, exactly what each arrival and flush counts in any
  state, and the runs in which a call is counted twice or not at all.
 */
module EdgeOnce {
  import opened Wrappers
  import opened Spans
  import opened Samples
  import opened Totals
  import opened EdgePairing
  import opened EdgeTheorems

  // ---------------------------------------------------------------- at most once within the TTL

  // No eviction so far was late enough to forget this call.
  ghost predicate Live(call: Call, clock: set<int>) {
    forall t | t in clock :: Fresh(call.timestamp, t)
  }

  // Live calls are remembered, and a client counted again was no longer live.
  ghost predicate Guarded(recorded: map<CallKey, int>, counted: seq<Call>, clock: set<int>) {
    && (forall i | 0 <= i < |counted| && Live(counted[i], clock) ::
          counted[i].client in recorded && recorded[counted[i].client] == counted[i].timestamp)
    && CountedAgainOnlyStale(counted, clock)
  }

  ghost predicate CountedAgainOnlyStale(counted: seq<Call>, clock: set<int>) {
    forall i, j | 0 <= i < j < |counted| && counted[i].client == counted[j].client :: !Live(counted[i], clock)
  }

  lemma RecordGuarded(cfg: Config, s: State, call: Call, counted: seq<Call>, clock: set<int>)
    requires Guarded(s.recorded, counted, clock)
    ensures var (after, calls) := Record(cfg, s, call.client, call);
            Guarded(after.recorded, counted + calls, clock)
  {
    if call.client in s.recorded {
      assert counted + [] == counted;
    }
  }

  lemma {:induction false} RecordServersGuarded(cfg: Config, s: State, client: Span, agentId: string,
                                                servers: seq<Pending>,
                                                counted: seq<Call>, clock: set<int>)
    requires cfg.dedup.ByOwnId? && Guarded(s.recorded, counted, clock)
    ensures var (after, calls) := RecordServers(cfg, s, client, agentId, servers);
            Guarded(after.recorded, counted + calls, clock)
  {
    if servers == [] {
      assert counted + [] == counted;
    } else {
      var init, last := servers[..|servers| - 1], servers[|servers| - 1];
      RecordServersGuarded(cfg, s, client, agentId, init, counted, clock);
      var (before, calls) := RecordServers(cfg, s, client, agentId, init);
      var call := CallOf(OwnKey(client), PendingOf(client, agentId), last.service, agentId);
      RecordGuarded(cfg, before, call, counted + calls, clock);
      var more := Record(cfg, before, call.client, call).1;
      assert counted + (calls + more) == counted + calls + more;
    }
  }

  lemma PairedGuarded(cfg: Config, s: State, span: Span, agentId: string, counted: seq<Call>, clock: set<int>)
    requires cfg.dedup.ByOwnId? && Guarded(s.recorded, counted, clock)
    ensures var (after, calls) := Paired(cfg, s, span, agentId);
            Guarded(after.recorded, counted + calls, clock)
  {
    assert counted + [] == counted;
    if !Relevant(span) {
    } else if span.kind.Client? {
      var own := OwnKey(span);
      if own in s.waitingClient {
        RecordServersGuarded(cfg, s.(waitingClient := s.waitingClient - {own}), span, agentId, s.waitingClient[own],
                             counted, clock);
      }
    } else {
      var key := ParentKey(span);
      if key in s.waitingServer {
        RecordGuarded(cfg, s.(waitingServer := s.waitingServer - {key}),
                      CallOf(key, s.waitingServer[key], span.service, agentId), counted, clock);
      }
    }
  }

  lemma EvictGuarded(s: State, now: int, victims: set<CallKey>, counted: seq<Call>, clock: set<int>)
    requires Guarded(s.recorded, counted, clock)
    ensures Guarded(Evict(s, now, victims).recorded, counted, clock + {now})
  {
  }

  lemma {:induction false} FlushClientsGuarded(cfg: Config, s: State, now: int, order: seq<CallKey>, counted: seq<Call>,
                                               clock: set<int>)
    requires Guarded(s.recorded, counted, clock)
    ensures var (after, calls) := FlushClients(cfg, s, now, order);
            Guarded(after.recorded, counted + calls, clock)
  {
    if order == [] {
      assert counted + [] == counted;
    } else {
      var init, key := order[..|order| - 1], order[|order| - 1];
      FlushClientsGuarded(cfg, s, now, init, counted, clock);
      var (before, calls) := FlushClients(cfg, s, now, init);
      var (after, more) := FlushClient(cfg, before, now, key);
      assert counted + (calls + more) == counted + calls + more;
      if more == [] {
        assert counted + calls + more == counted + calls;
      } else {
        assert Guarded(after.recorded, counted + calls + more, clock);
      }
    }
  }

  lemma {:induction false} RunGuarded(cfg: Config, ops: seq<Op>)
    requires cfg.dedup.ByOwnId?
    ensures Guarded(Run(cfg, ops).state.recorded, Run(cfg, ops).counted, Run(cfg, ops).clock)
  {
    if ops != [] {
      var init, op := ops[..|ops| - 1], ops[|ops| - 1];
      RunGuarded(cfg, init);
      var w := Run(cfg, init);
      match op
      case Observed(span, agentId, victims) =>
        PairedGuarded(cfg, w.state, span, agentId, w.counted, w.clock);
        var (paired, calls) := Paired(cfg, w.state, span, agentId);
        if Relevant(span) {
          EvictGuarded(paired, span.timestamp, victims, w.counted + calls, w.clock);
        }
      case Flushed(now, clients, order, outcome) =>
        FlushClientsGuarded(cfg, w.state, now, clients, w.counted, w.clock);
        FlushEdgesFrame(FlushClients(cfg, w.state, now, clients).0, order);
      case Drained(_, _) =>
    }
  }

  // The step that counted again found an earlier call already stale: by the clock before the step.
  ghost predicate CountsOnlyStale(before: World, after: World) {
    forall i, j | 0 <= i < j < |after.counted| && j >= |before.counted|
                  && after.counted[i].client == after.counted[j].client ::
      !Live(after.counted[i], before.clock)
  }

  lemma StepCountsOnlyStale(cfg: Config, w: World, op: Op)
    requires cfg.dedup.ByOwnId? && Guarded(w.state.recorded, w.counted, w.clock)
    ensures CountsOnlyStale(w, Apply(cfg, w, op))
  {
    hide Live;
    match op
    case Observed(span, agentId, victims) =>
      PairedGuarded(cfg, w.state, span, agentId, w.counted, w.clock);
    case Flushed(now, clients, order, outcome) =>
      FlushClientsGuarded(cfg, w.state, now, clients, w.counted, w.clock);
    case Drained(_, _) =>
  }

  /**
    Keyed by the client's own id, a client is counted again only when some span observed before
    that was more than the TTL newer than the call already counted: at every step of every run,
    whatever the arrival order, the replays, the evictions and the flushes.
   */
  lemma {:induction false} CountedOncePerTtl(cfg: Config, ops: seq<Op>, n: nat)
    requires cfg.dedup.ByOwnId? && n < |ops|
    ensures CountsOnlyStale(Run(cfg, ops[..n]), Run(cfg, ops[..n + 1]))
  {
    RunGuarded(cfg, ops[..n]);
    assert ops[..n + 1][..n] == ops[..n];
    StepCountsOnlyStale(cfg, Run(cfg, ops[..n]), ops[n]);
  }

  // ---------------------------------------------------------------- the written server-first branch

  // The call a client stands for, with the target and the agent it is counted under.
  function CallTo(client: Span, dst: string, agentId: string): Call {
    Call(OwnKey(client), client.timestamp, EdgeKey(BucketOf(client.timestamp), client.service, dst, agentId),
         client.status, client.duration)
  }

  lemma {:induction false} RecordServersCounts(cfg: Config, s: State, client: Span, agentId: string,
                                               servers: seq<Pending>)
    requires servers != []
    ensures var (after, calls) := RecordServers(cfg, s, client, agentId, servers);
            var dedup := DedupOf(cfg, client);
            && |calls| == (if dedup in s.recorded then 0 else 1)
            && (forall c | c in calls :: c == CallTo(client, servers[0].service, agentId))
            && after.recorded == (if dedup in s.recorded then s.recorded else s.recorded[dedup := client.timestamp])
            && after.waitingServer == s.waitingServer && after.waitingClient == s.waitingClient
  {
    var init := servers[..|servers| - 1];
    if init != [] {
      RecordServersCounts(cfg, s, client, agentId, init);
    }
  }

  // Servers wait for the client, and the key its arrival is recorded under is not taken.
  predicate PairsOnArrival(cfg: Config, s: State, client: Span) {
    && OwnKey(client) in s.waitingClient && s.waitingClient[OwnKey(client)] != []
    && DedupOf(cfg, client) !in s.recorded
  }

  // The client's own key is recorded, and eviction at its time does not forget it.
  predicate Remembered(s: State, client: Span) {
    OwnKey(client) in s.recorded && Fresh(s.recorded[OwnKey(client)], client.timestamp)
  }

  // Why nothing more is counted once the client has arrived: it is dropped at once, its key was
  // recorded before, or its own arrival recorded it.
  predicate HeldBack(cfg: Config, s: State, client: Span, victims: set<CallKey>) {
    || OwnKey(client) in victims || Remembered(s, client)
    || (DedupOf(cfg, client) == OwnKey(client) && PairsOnArrival(cfg, s, client))
  }

  // What the arrival of a client counts.
  lemma ArrivalCounts(cfg: Config, s: State, client: Span, agentId: string, victims: set<CallKey>)
    requires client.kind.Client?
    ensures var (arrived, first) := Observe(cfg, s, client, agentId, victims);
            var own := OwnKey(client);
            && first == (if PairsOnArrival(cfg, s, client)
                         then [CallTo(client, s.waitingClient[own][0].service, agentId)] else [])
            && (own in arrived.waitingServer <==> own !in victims)
            && (own in arrived.waitingServer ==> arrived.waitingServer[own] == PendingOf(client, agentId))
            && (own in arrived.recorded <==> HeldBack(cfg, s, client, {}))
  {
    hide RecordServers, Evict;
    var own := OwnKey(client);
    if own in s.waitingClient {
      var t := s.(waitingClient := s.waitingClient - {own});
      if s.waitingClient[own] != [] {
        RecordServersCounts(cfg, t, client, agentId, s.waitingClient[own]);
        OneOf(RecordServers(cfg, t, client, agentId, s.waitingClient[own]).1,
              CallTo(client, s.waitingClient[own][0].service, agentId));
      } else {
        NoServers(cfg, t, client, agentId);
      }
    }
    var (paired, first) := ObserveClient(cfg, s, client, agentId);
    AfterEviction(paired, client.timestamp, victims, own);
  }

  lemma {:induction false} NoServers(cfg: Config, s: State, client: Span, agentId: string)
    ensures RecordServers(cfg, s, client, agentId, []) == (s, [])
  {
  }

  lemma OneOf<T>(s: seq<T>, x: T)
    requires |s| <= 1 && forall y | y in s :: y == x
    ensures s == if |s| == 1 then [x] else []
  {
    if |s| == 1 { assert s[0] in s; }
  }

  /**
    How often a client is counted that arrives in any state and waits for a flush after its minute:
    which calls its arrival and the flush count, and that they are one call exactly when the arrival
    pairs if and only if something then holds the flush back.
   */
  lemma ServerFirstCount(cfg: Config, s: State, client: Span, agentId: string, victims: set<CallKey>, now: int)
    requires client.kind.Client? && Closed(client.timestamp, now)
    ensures var (arrived, first) := Observe(cfg, s, client, agentId, victims);
            var second := FlushClient(cfg, arrived, now, OwnKey(client)).1;
            && first == (if PairsOnArrival(cfg, s, client)
                         then [CallTo(client, s.waitingClient[OwnKey(client)][0].service, agentId)] else [])
            && second == (if HeldBack(cfg, s, client, victims) then []
                          else [CallTo(client, PendingOf(client, agentId).fallbackDst, agentId)])
            && (|first + second| == 1 <==> (PairsOnArrival(cfg, s, client) <==> HeldBack(cfg, s, client, victims)))
  {
    hide Observe, PairsOnArrival, Remembered;
    ArrivalCounts(cfg, s, client, agentId, victims);
  }

  /**
    With the client's own key as dedup key, arrival and flush together never count it twice, and
    once exactly if it pairs on arrival or is neither dropped nor remembered.
   */
  lemma OwnKeyCountsAtMostOnce(cfg: Config, s: State, client: Span, agentId: string, victims: set<CallKey>, now: int)
    requires cfg.dedup.ByOwnId? && client.kind.Client? && Closed(client.timestamp, now)
    ensures var (arrived, first) := Observe(cfg, s, client, agentId, victims);
            var second := FlushClient(cfg, arrived, now, OwnKey(client)).1;
            && |first + second| <= 1
            && (|first + second| == 1
                <==> PairsOnArrival(cfg, s, client) || !(OwnKey(client) in victims || Remembered(s, client)))
  {
    hide Observe, FlushClient, PairsOnArrival, Remembered;
    ServerFirstCount(cfg, s, client, agentId, victims, now);
  }

  // What eviction leaves of one key.
  lemma AfterEviction(s: State, now: int, victims: set<CallKey>, key: CallKey)
    ensures var after := Evict(s, now, victims);
            && (key in after.waitingServer
                <==> key in s.waitingServer && Fresh(s.waitingServer[key].timestamp, now) && key !in victims)
            && (key in after.waitingServer ==> after.waitingServer[key] == s.waitingServer[key])
            && (key in after.recorded <==> key in s.recorded && Fresh(s.recorded[key], now))
  {
  }

  /**
    The same for a client whose server is observed next: the server counts the client's call, in the
    client's minute and with its duration and status, unless something holds it back; then no flush
    counts that client either. With the written key this loses the call of a client whose own key a
    child recorded before.
   */
  lemma ClientThenServerPairs(cfg: Config, s: State, client: Span, server: Span, clientAgent: string,
                              serverAgent: string,
                              victims: set<CallKey>, others: set<CallKey>, now: int)
    requires client.kind.Client? && server.kind.Server? && server.parentSpanId != ""
             && ParentKey(server) == OwnKey(client)
    ensures var (arrived, first) := Observe(cfg, s, client, clientAgent, victims);
            var (after, second) := Observe(cfg, arrived, server, serverAgent, others);
            && first == (if PairsOnArrival(cfg, s, client)
                         then [CallTo(client, s.waitingClient[OwnKey(client)][0].service, clientAgent)] else [])
            && second == (if HeldBack(cfg, s, client, victims) then []
                          else [CallTo(client, server.service, serverAgent)])
            && (|first + second| == 1 <==> (PairsOnArrival(cfg, s, client) <==> HeldBack(cfg, s, client, victims)))
            && OwnKey(client) !in after.waitingServer && FlushClient(cfg, after, now, OwnKey(client)).1 == []
  {
    hide Evict, Record, PairsOnArrival, Remembered;
    var own := OwnKey(client);
    ArrivalCounts(cfg, s, client, clientAgent, victims);
    var (arrived, first) := Observe(cfg, s, client, clientAgent, victims);
    if own in arrived.waitingServer { ServerFindsWaiting(cfg, arrived, client, server, clientAgent, serverAgent); }
    var (paired, second) := ObserveServer(cfg, arrived, server, serverAgent);
    assert own !in paired.waitingServer;
    AfterEviction(paired, server.timestamp, others, own);
  }

  /**
    Servers that wait for their client queue up: of two that came before it the client's call goes to
    the first, and it is one call.
   */
  lemma EarliestServerNamesCall(cfg: Config, s: State, one: Span, two: Span, client: Span, agentId: string)
    requires one.kind.Server? && two.kind.Server? && client.kind.Client?
    requires one.traceId == two.traceId == client.traceId && one.parentSpanId == two.parentSpanId == client.spanId
    requires OwnKey(client) !in s.waitingServer && OwnKey(client) !in s.waitingClient
             && DedupOf(cfg, client) !in s.recorded
    ensures var (first, a) := ObserveServer(cfg, s, one, agentId);
            var (second, b) := ObserveServer(cfg, first, two, agentId);
            var c := ObserveClient(cfg, second, client, agentId).1;
            && a == [] && b == [] && |c| == 1 && c[0].edge.dst == one.service && c[0].edge.src == client.service
            && OwnKey(client) in second.waitingClient && |second.waitingClient[OwnKey(client)]| == 2
  {
    hide RecordServers;
    var first := ObserveServer(cfg, s, one, agentId).0;
    var second := ObserveServer(cfg, first, two, agentId).0;
    var waiting := [PendingOf(one, agentId)] + [PendingOf(two, agentId)];
    assert [] + [PendingOf(one, agentId)] == [PendingOf(one, agentId)];
    assert second.waitingClient[OwnKey(client)] == waiting;
    RecordServersCounts(cfg, second.(waitingClient := second.waitingClient - {OwnKey(client)}), client, agentId,
                        waiting);
    OneOf(RecordServers(cfg, second.(waitingClient := second.waitingClient - {OwnKey(client)}), client, agentId,
                        waiting).1,
          CallTo(client, one.service, agentId));
  }

  lemma ServerFindsWaiting(cfg: Config, s: State, client: Span, server: Span, clientAgent: string, serverAgent: string)
    requires ParentKey(server) == OwnKey(client)
    requires OwnKey(client) in s.waitingServer && s.waitingServer[OwnKey(client)] == PendingOf(client, clientAgent)
    ensures var (paired, calls) := ObserveServer(cfg, s, server, serverAgent);
            && calls == (if OwnKey(client) in s.recorded then [] else [CallTo(client, server.service, serverAgent)])
            && OwnKey(client) !in paired.waitingServer
  {
  }

  lemma {:induction false} RunSnoc(cfg: Config, ops: seq<Op>, op: Op)
    ensures Run(cfg, ops + [op]) == Apply(cfg, Run(cfg, ops), op)
  {
  }

  // ---------------------------------------------------------------- runs of the written key

  // Nothing is older than the TTL at this time.
  ghost predicate AllFresh(s: State, now: int) {
    && (forall k | k in s.waitingClient ::
        s.waitingClient[k] != [] && forall x | x in s.waitingClient[k] :: Fresh(x.timestamp, now))
    && (forall k | k in s.waitingServer :: Fresh(s.waitingServer[k].timestamp, now))
    && (forall k | k in s.recorded :: Fresh(s.recorded[k], now))
  }

  lemma {:induction false} FreshListStays(spans: seq<Pending>, now: int)
    requires forall x | x in spans :: Fresh(x.timestamp, now)
    ensures FreshOnly(spans, now) == spans
  {
    if spans != [] {
      FreshListStays(spans[..|spans| - 1], now);
      assert spans == spans[..|spans| - 1] + [spans[|spans| - 1]];
    }
  }

  lemma FreshStateStays(s: State, now: int)
    requires AllFresh(s, now)
    ensures Expire(s, now) == s && Evict(s, now, {}) == s
  {
    hide FreshOnly;
    forall k | k in s.waitingClient ensures FreshOnly(s.waitingClient[k], now) == s.waitingClient[k] {
      FreshListStays(s.waitingClient[k], now);
    }
    assert Expire(s, now).waitingClient == s.waitingClient;
    assert Expire(s, now).waitingServer == s.waitingServer;
    assert Expire(s, now).recorded == s.recorded;
    assert s.waitingServer - {} == s.waitingServer;
  }

  // Observing in a state where nothing expires and nothing overflows.
  lemma ObservedFresh(cfg: Config, w: World, span: Span, agentId: string)
    requires Relevant(span) && AllFresh(Paired(cfg, w.state, span, agentId).0, span.timestamp)
    requires PendingCount(Paired(cfg, w.state, span, agentId).0) <= cfg.pendingCapacity
    ensures var (paired, calls) := Paired(cfg, w.state, span, agentId);
            var after := Apply(cfg, w, Observed(span, agentId, {}));
            && ValidStep(cfg, w, Observed(span, agentId, {}))
            && after.state == paired && after.counted == w.counted + calls && after.evictedClients == w.evictedClients
            && after.arrivals == w.arrivals + (if span.kind.Client? then 1 else 0)
               && after.clock == w.clock + {span.timestamp}
  {
    hide Paired, Evict, Expire, PendingCount;
    FreshStateStays(Paired(cfg, w.state, span, agentId).0, span.timestamp);
  }

  lemma {:induction false} ValidSnoc(cfg: Config, ops: seq<Op>, op: Op)
    requires ValidRun(cfg, ops) && ValidStep(cfg, Run(cfg, ops), op)
    ensures ValidRun(cfg, ops + [op]) && Run(cfg, ops + [op]) == Apply(cfg, Run(cfg, ops), op)
  {
    assert (ops + [op])[..|ops|] == ops;
  }

  lemma OneServerWaits(k: CallKey, x: Pending)
    ensures MapFold(Calls, map[k := [x]], ListLength()) == 1
    ensures MapFold<CallKey, seq<Pending>>(Calls, map[], ListLength()) == 0
  {
    var none: map<CallKey, seq<Pending>> := map[];
    FoldUpdate(Calls, none, ListLength(), k, [x], 1);
    assert none[k := [x]] == map[k := [x]];
  }

  // What decides the next counts: the spans pending, the keys recorded, and the tallies so far.
  datatype Memory = Memory(servers: map<CallKey, seq<Pending>>, clients: map<CallKey, Pending>,
                           recorded: map<CallKey, int>, counted: seq<Call>, arrivals: nat)

  // A valid run of spans of time `t` that evicted no client and remembers exactly this.
  ghost predicate Reaches(cfg: Config, ops: seq<Op>, t: int, m: Memory) {
    var w := Run(cfg, ops);
    && ValidRun(cfg, ops) && w.evictedClients == 0 && w.clock <= {t}
    && m == Memory(w.state.waitingClient, w.state.waitingServer, w.state.recorded, w.counted, w.arrivals)
  }

  // At most one server and two clients pending, and everything is of time `t`.
  ghost predicate SmallAt(t: int, m: Memory) {
    && (m.servers == map[] || exists k, x: Pending :: m.servers == map[k := [x]] && x.timestamp == t)
    && |m.clients| <= 2 && (forall k | k in m.clients :: m.clients[k].timestamp == t)
    && (forall k | k in m.recorded :: m.recorded[k] == t)
  }

  // The next span of such a run: nothing expires and nothing overflows.
  lemma {:induction false} NextSpan(cfg: Config, ops: seq<Op>, t: int, m: Memory, span: Span, agentId: string,
                                    next: Memory)
    requires Reaches(cfg, ops, t, m) && cfg.pendingCapacity >= 3 && Relevant(span) && span.timestamp == t
    requires var (paired, calls) := Paired(cfg, Run(cfg, ops).state, span, agentId);
             next == Memory(paired.waitingClient, paired.waitingServer, paired.recorded, m.counted + calls,
                            m.arrivals + if span.kind.Client? then 1 else 0)
    requires SmallAt(t, next)
    ensures Reaches(cfg, ops + [Observed(span, agentId, {})], t, next)
  {
    hide Paired, Run, ValidStep, Apply;
    AtMostThree(Paired(cfg, Run(cfg, ops).state, span, agentId).0, t, next);
    ObservedFresh(cfg, Run(cfg, ops), span, agentId);
    ValidSnoc(cfg, ops, Observed(span, agentId, {}));
  }

  lemma AtMostThree(s: State, t: int, m: Memory)
    requires SmallAt(t, m) && s.waitingClient == m.servers && s.waitingServer == m.clients && s.recorded == m.recorded
    ensures PendingCount(s) <= 3 && AllFresh(s, t)
  {
    hide MapFold, ListLength;
    if m.servers == map[] {
      OneServerWaits(CallKey("", ""), Pending("", 0, "", 0, "", ""));
    } else {
      var k, x: Pending :| m.servers == map[k := [x]] && x.timestamp == t;
      OneServerWaits(k, x);
    }
  }

  // The four things a span can do in the runs below.
  lemma ServerQueues(cfg: Config, ops: seq<Op>, t: int, m: Memory, server: Span, agentId: string)
    requires Reaches(cfg, ops, t, m) && SmallAt(t, m) && cfg.pendingCapacity >= 3 && server.timestamp == t
    requires server.kind.Server? && server.parentSpanId != "" && ParentKey(server) !in m.clients && m.servers == map[]
    ensures var next := m.(servers := map[ParentKey(server) := [PendingOf(server, agentId)]]);
            Reaches(cfg, ops + [Observed(server, agentId, {})], t, next) && SmallAt(t, next)
  {
    hide Run, ValidRun;
    var servers := [PendingOf(server, agentId)];
    assert [] + servers == servers && m.counted + [] == m.counted;
    var next := m.(servers := map[ParentKey(server) := servers]);
    NextSpan(cfg, ops, t, m, server, agentId, next);
  }

  lemma ClientWaits(cfg: Config, ops: seq<Op>, t: int, m: Memory, client: Span, agentId: string)
    requires Reaches(cfg, ops, t, m) && SmallAt(t, m) && cfg.pendingCapacity >= 3 && client.timestamp == t
    requires client.kind.Client? && m.servers == map[] && |m.clients| <= 1
    ensures var next :=
            m.(clients := m.clients[OwnKey(client) := PendingOf(client, agentId)], arrivals := m.arrivals + 1);
            Reaches(cfg, ops + [Observed(client, agentId, {})], t, next) && SmallAt(t, next)
  {
    hide Run, ValidRun;
    assert m.counted + [] == m.counted;
    NextSpan(cfg, ops, t, m, client, agentId,
             m.(clients := m.clients[OwnKey(client) := PendingOf(client, agentId)], arrivals := m.arrivals + 1));
  }

  lemma ServerPairs(cfg: Config, ops: seq<Op>, t: int, m: Memory, client: Span, server: Span, agentId: string)
    requires Reaches(cfg, ops, t, m) && SmallAt(t, m) && cfg.pendingCapacity >= 3
             && client.timestamp == server.timestamp == t
    requires server.kind.Server? && server.parentSpanId != "" && ParentKey(server) == OwnKey(client)
             && m.servers == map[]
    requires OwnKey(client) in m.clients && m.clients[OwnKey(client)] == PendingOf(client, agentId)
    ensures var own := OwnKey(client);
            var next := m.(clients := m.clients - {own},
                           recorded := if own in m.recorded then m.recorded else m.recorded[own := t],
                           counted := if own in m.recorded then m.counted
                               else m.counted + [CallTo(client, server.service, agentId)]);
            Reaches(cfg, ops + [Observed(server, agentId, {})], t, next) && SmallAt(t, next)
  {
    hide Run, ValidRun;
    var own := OwnKey(client);
    assert m.counted + [] == m.counted && m.clients == (m.clients - {own})[own := m.clients[own]];
    NextSpan(cfg, ops, t, m, server, agentId,
             m.(clients := m.clients - {own},
                recorded := if own in m.recorded then m.recorded else m.recorded[own := t],
                counted := if own in m.recorded then m.counted
                    else m.counted + [CallTo(client, server.service, agentId)]));
  }

  lemma ClientPairs(cfg: Config, ops: seq<Op>, t: int, m: Memory, client: Span, server: Span, agentId: string)
    requires Reaches(cfg, ops, t, m) && SmallAt(t, m) && cfg.pendingCapacity >= 3 && client.timestamp == t
    requires client.kind.Client? && m.servers == map[OwnKey(client) := [PendingOf(server, agentId)]] && |m.clients| <= 1
    requires DedupOf(cfg, client) !in m.recorded
    ensures var next := m.(servers := map[], clients := m.clients[OwnKey(client) := PendingOf(client, agentId)],
                           recorded := m.recorded[DedupOf(cfg, client) := t],
                           counted := m.counted + [CallTo(client, server.service, agentId)],
                           arrivals := m.arrivals + 1);
            Reaches(cfg, ops + [Observed(client, agentId, {})], t, next) && SmallAt(t, next)
  {
    hide Run, ValidRun, RecordServers;
    var own, waiting := OwnKey(client), [PendingOf(server, agentId)];
    var s := Run(cfg, ops).state;
    var taken := s.(waitingClient := s.waitingClient - {own});
    assert taken.waitingClient == map[];
    RecordServersCounts(cfg, taken, client, agentId, waiting);
    OneOf(RecordServers(cfg, taken, client, agentId, waiting).1, CallTo(client, server.service, agentId));
    NextSpan(cfg, ops, t, m, client, agentId,
             m.(servers := map[], clients := m.clients[own := PendingOf(client, agentId)],
                recorded := m.recorded[DedupOf(cfg, client) := t],
                counted := m.counted + [CallTo(client, server.service, agentId)], arrivals := m.arrivals + 1));
  }

  lemma {:induction false} StartReaches(cfg: Config, t: int)
    ensures Reaches(cfg, [], t, Memory(map[], map[], map[], [], 0)) && SmallAt(t, Memory(map[], map[], map[], [], 0))
  {
  }

  /**
    Written key, a replay: once the first server was paired, a second server of the same client waits
    and the same client observed again is counted again, although nothing is older than the TTL.
   */
  lemma {:induction false} ReplayCountsTwice(cfg: Config, client: Span, server: Span, again: Span, agentId: string)
    requires cfg.dedup.ByParent? && cfg.pendingCapacity >= 3 && OwnKey(client) != ParentKey(client)
    requires client.kind.Client? && server.kind.Server? && server.parentSpanId != "" && again.kind.Server?
    requires ParentKey(server) == ParentKey(again) == OwnKey(client)
    requires client.timestamp == server.timestamp == again.timestamp
    ensures var before :=
            [Observed(client, agentId, {})] + [Observed(server, agentId, {})] + [Observed(again, agentId, {})];
            var ops := before + [Observed(client, agentId, {})];
            && ValidRun(cfg, ops)
            && Run(cfg, ops).counted
               == [CallTo(client, server.service, agentId), CallTo(client, again.service, agentId)]
            && !CountsOnlyStale(Run(cfg, before), Run(cfg, ops))
  {
    hide Run, ValidRun, SmallAt;
    var t, own, waits := client.timestamp, OwnKey(client), PendingOf(client, agentId);
    var one, two := [Observed(client, agentId, {})], [Observed(client, agentId, {})] + [Observed(server, agentId, {})];
    var three := two + [Observed(again, agentId, {})];
    var none: map<CallKey, Pending> := map[];
    var first := CallTo(client, server.service, agentId);
    StartReaches(cfg, t);
    ClientWaits(cfg, [], t, Memory(map[], map[], map[], [], 0), client, agentId);
    assert [] + one == one;
    ServerPairs(cfg, one, t, Memory(map[], map[own := waits], map[], [], 1), client, server, agentId);
    assert map[own := waits] - {own} == none && [] + [first] == [first];
    ServerQueues(cfg, two, t, Memory(map[], map[], map[own := t], [first], 1), again, agentId);
    ClientPairs(cfg, three, t, Memory(map[own := [PendingOf(again, agentId)]], map[], map[own := t], [first], 1),
                client, again, agentId);
    TwiceWithinTtl(Run(cfg, three), Run(cfg, three + one), t, first, CallTo(client, again.service, agentId));
  }

  lemma TwiceWithinTtl(before: World, after: World, t: int, first: Call, second: Call)
    requires before.counted == [first] && after.counted == [first] + [second] && before.clock <= {t}
    requires first.client == second.client && first.timestamp == t
    ensures !CountsOnlyStale(before, after)
  {
    assert after.counted[0] == first && after.counted[1] == second;
    assert Live(first, before.clock);
  }

  /**
    Written key, a lost call: a child span of the client, itself a client whose server came first, is
    recorded under its parent key, which is this client's own. The client and its server are then
    observed, and the client is neither counted, nor waiting, nor evicted; no flush counts it.
   */
  lemma {:induction false} ChildHidesCall(cfg: Config, childServer: Span, child: Span, client: Span, server: Span,
                                          agentId: string, now: int)
    requires cfg.dedup.ByParent? && cfg.pendingCapacity >= 3
    requires child.kind.Client? && client.kind.Client? && OwnKey(child) != OwnKey(client)
    requires childServer.kind.Server? && childServer.parentSpanId != "" && ParentKey(childServer) == OwnKey(child)
    requires server.kind.Server? && server.parentSpanId != "" && ParentKey(server) == OwnKey(client) == ParentKey(child)
    requires childServer.timestamp == child.timestamp == client.timestamp == server.timestamp
    ensures var ops := [Observed(childServer, agentId, {})] + [Observed(child, agentId, {})]
                       + [Observed(client, agentId, {})] + [Observed(server, agentId, {})];
            var w := Run(cfg, ops);
            && ValidRun(cfg, ops)
            && w.arrivals == 2 && w.evictedClients == 0 && w.counted == [CallTo(child, childServer.service, agentId)]
            && w.state.waitingClient == map[]
               && w.state.waitingServer == map[OwnKey(child) := PendingOf(child, agentId)]
            && FlushClient(cfg, w.state, now, OwnKey(client)).1 == []
  {
    hide Run, ValidRun, SmallAt;
    var t, own, kid := client.timestamp, OwnKey(client), OwnKey(child);
    var one := [Observed(childServer, agentId, {})];
    var two := one + [Observed(child, agentId, {})];
    var three := two + [Observed(client, agentId, {})];
    var call, waits := CallTo(child, childServer.service, agentId), map[kid := PendingOf(child, agentId)];
    StartReaches(cfg, t);
    ServerQueues(cfg, [], t, Memory(map[], map[], map[], [], 0), childServer, agentId);
    assert [] + one == one;
    ClientPairs(cfg, one, t, Memory(map[kid := [PendingOf(childServer, agentId)]], map[], map[], [], 0), child,
                childServer, agentId);
    assert [] + [call] == [call];
    ClientWaits(cfg, two, t, Memory(map[], waits, map[own := t], [call], 1), client, agentId);
    ServerPairs(cfg, three, t, Memory(map[], waits[own := PendingOf(client, agentId)], map[own := t], [call], 2),
                client, server, agentId);
    assert waits[own := PendingOf(client, agentId)] - {own} == waits;
  }

  lemma ServerWaits(cfg: Config, server: Span, agentId: string)
    requires server.kind.Server? && server.parentSpanId != ""
    ensures var (paired, calls) := Paired(cfg, INITIAL, server, agentId);
            && paired.waitingClient == map[ParentKey(server) := [PendingOf(server, agentId)]]
            && paired.recorded == map[] && calls == []
  {
    var servers := [PendingOf(server, agentId)];
    assert [] + servers == servers;
  }

  lemma NothingExpires(s: State, now: int, key: CallKey, span: Pending)
    requires s.waitingClient == map[key := [span]] && s.recorded == map[] && Fresh(span.timestamp, now)
    ensures Evict(s, now, {}).waitingClient == s.waitingClient && Evict(s, now, {}).recorded == map[]
  {
    hide FreshOnly;
    FreshListStays([span], now);
  }

  lemma ServerArrives(cfg: Config, server: Span, agentId: string)
    requires server.kind.Server? && server.parentSpanId != ""
    ensures var w := Apply(cfg, START, Observed(server, agentId, {}));
            && w.state.waitingClient == map[ParentKey(server) := [PendingOf(server, agentId)]]
            && w.state.recorded == map[] && w.counted == []
  {
    ServerWaits(cfg, server, agentId);
    var (paired, calls) := Paired(cfg, INITIAL, server, agentId);
    NothingExpires(paired, server.timestamp, ParentKey(server), PendingOf(server, agentId));
  }

  lemma ClientArrives(cfg: Config, w: World, client: Span, agentId: string)
    requires client.kind.Client?
    ensures Apply(cfg, w, Observed(client, agentId, {})).state == Observe(cfg, w.state, client, agentId, {}).0
    ensures Apply(cfg, w, Observed(client, agentId, {})).counted
            == w.counted + Observe(cfg, w.state, client, agentId, {}).1
  {
  }

  lemma OneFlush(cfg: Config, w: World, now: int, key: CallKey, edges: seq<EdgeKey>, outcome: nat -> Outcome)
    ensures Apply(cfg, w, Flushed(now, [key], edges, outcome)).counted
            == w.counted + FlushClient(cfg, w.state, now, key).1
  {
    assert [key][..0] == [];
    var (before, calls) := FlushClients(cfg, w.state, now, []);
    assert before == w.state && calls == [];
    assert FlushClients(cfg, w.state, now, [key]).1 == FlushClient(cfg, w.state, now, key).1;
  }

  // Two calls for one client: on its server and on its fallback target.
  ghost predicate CountedTwice(calls: seq<Call>, client: Span, agentId: string, service: string) {
    && |calls| == 2 && calls[0].client == calls[1].client == OwnKey(client)
    && calls[0].edge.dst == service && calls[1].edge.dst == PendingOf(client, agentId).fallbackDst
  }

  lemma ArrivalAndFlushCountTwice(cfg: Config, s: State, server: Pending, client: Span, agentId: string, now: int)
    requires cfg.dedup.ByParent? && client.kind.Client? && OwnKey(client) != ParentKey(client)
             && Closed(client.timestamp, now)
    requires s.recorded == map[] && s.waitingClient == map[OwnKey(client) := [server]]
    ensures var (arrived, first) := Observe(cfg, s, client, agentId, {});
            CountedTwice(first + FlushClient(cfg, arrived, now, OwnKey(client)).1, client, agentId, server.service)
  {
    hide Observe, FlushClient;
    ServerFirstCount(cfg, s, client, agentId, {}, now);
  }

  /**
    The double count of the written code as a run: a server, then its client, then a flush
    after the minute closed. One call ends up both on its real target and on the fallback.
   */
  lemma {:induction false} DoubleCountRun(cfg: Config, server: Span, client: Span, agentId: string, now: int,
                        edges: seq<EdgeKey>, outcome: nat -> Outcome)
    requires cfg.dedup.ByParent?
    requires server.kind.Server? && server.parentSpanId != "" && client.kind.Client?
    requires ParentKey(server) == OwnKey(client) != ParentKey(client) && Closed(client.timestamp, now)
    ensures var ops :=
            [Observed(server, agentId, {})] + [Observed(client, agentId, {})]
                + [Flushed(now, [OwnKey(client)], edges, outcome)];
            CountedTwice(Run(cfg, ops).counted, client, agentId, server.service)
  {
    ThreeSteps(cfg, Observed(server, agentId, {}), Observed(client, agentId, {}),
               Flushed(now, [OwnKey(client)], edges, outcome));
    ServerArrives(cfg, server, agentId);
    DoubleCountFrom(cfg, Apply(cfg, START, Observed(server, agentId, {})), PendingOf(server, agentId), client, agentId,
                    now, edges, outcome);
  }

  lemma {:induction false} ThreeSteps(cfg: Config, one: Op, two: Op, three: Op)
    ensures Run(cfg, [one] + [two] + [three]) == Apply(cfg, Apply(cfg, Apply(cfg, START, one), two), three)
  {
    RunSnoc(cfg, [], one);
    RunSnoc(cfg, [one], two);
    RunSnoc(cfg, [one] + [two], three);
    assert [] + [one] == [one];
  }

  lemma DoubleCountFrom(cfg: Config, w: World, server: Pending, client: Span, agentId: string, now: int,
                        edges: seq<EdgeKey>, outcome: nat -> Outcome)
    requires cfg.dedup.ByParent? && client.kind.Client? && OwnKey(client) != ParentKey(client)
             && Closed(client.timestamp, now)
    requires w.counted == [] && w.state.recorded == map[] && w.state.waitingClient == map[OwnKey(client) := [server]]
    ensures var after :=
            Apply(cfg, Apply(cfg, w, Observed(client, agentId, {})), Flushed(now, [OwnKey(client)], edges, outcome));
            CountedTwice(after.counted, client, agentId, server.service)
  {
    hide Observe, FlushClient, PendingOf;
    ArrivalAndFlushCountTwice(cfg, w.state, server, client, agentId, now);
    ClientArrives(cfg, w, client, agentId);
    var arrived := Apply(cfg, w, Observed(client, agentId, {}));
    OneFlush(cfg, arrived, now, OwnKey(client), edges, outcome);
    assert [] + arrived.counted == arrived.counted;
  }
}
