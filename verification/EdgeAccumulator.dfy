/**
  The edge accumulator as the source keeps it: maps updated in place under one
  lock, sharing its sample store with the RED aggregation
  (crates/dataplane-apm/src/edge.rs). Every method is tied to EdgePairing.
 */
module EdgeAccumulators {
  import opened Wrappers
  import opened Spans
  import opened Samples
  import opened Totals
  import opened EdgePairing

  /** The stored edge summary rows. */
  class EdgeTable {
    var rows: map<EdgeKey, Total>

    constructor ()
      ensures rows == map[]
    {
      rows := map[];
    }

    method ReadAddReplace(key: EdgeKey, delta: Total)
      modifies this
      ensures rows == AddTo(old(rows), key, delta)
    {
      var existing := if key in rows then rows[key] else ZERO;
      rows := rows[key := Total(existing.calls + delta.calls, existing.errors + delta.errors, existing.sum + delta.sum,
                                if existing.max >= delta.max then existing.max else delta.max)];
    }
  }

  class EdgeAccumulator {
    const cfg: Config
    const samples: RedSamples
    var waitingClient: map<CallKey, seq<Pending>>
    var waitingServer: map<CallKey, Pending>
    var recorded: map<CallKey, int>
    var edges: map<EdgeKey, Total>
    var droppedPending: nat
    var pairedEdges: nat

    ghost function View(): State
      reads this, samples
    {
      State(waitingClient, waitingServer, recorded, edges, samples.edge, samples.droppedSamples, droppedPending,
            pairedEdges)
    }

    constructor (cfg: Config, samples: RedSamples)
      requires samples.groupCap == cfg.groupCap
      ensures this.cfg == cfg && this.samples == samples
      ensures View() == INITIAL.(samples := samples.edge, droppedSamples := samples.droppedSamples)
    {
      this.cfg, this.samples := cfg, samples;
      waitingClient, waitingServer, recorded, edges := map[], map[], map[], map[];
      droppedPending, pairedEdges := 0, 0;
    }

    method TakeSample(call: Call)
      requires samples.groupCap == cfg.groupCap
      modifies samples
      ensures View() == Sample(cfg, old(View()), call) && samples.service == old(samples.service)
    {
      samples.Observe(Edge, GroupOf(call), call.duration);
    }

    method RecordCall(dedup: CallKey, call: Call) returns (counted: bool)
      requires samples.groupCap == cfg.groupCap
      modifies this, samples
      ensures View() == Record(cfg, old(View()), dedup, call).0 && samples.service == old(samples.service)
      ensures counted <==> Record(cfg, old(View()), dedup, call).1 != []
    {
      if dedup in recorded {
        return false;
      }
      recorded := recorded[dedup := call.timestamp];
      var entry := if call.edge in edges then edges[call.edge] else ZERO;
      edges := edges[call.edge := entry.Plus(TotalOf(call))];
      pairedEdges := pairedEdges + 1;
      TakeSample(call);
      counted := true;
    }

    method ObserveSpan(span: Span, agentId: string) returns (paired: bool, ghost victims: set<CallKey>)
      requires samples.groupCap == cfg.groupCap
      modifies this, samples
      ensures View() == Observe(cfg, old(View()), span, agentId, victims).0 && samples.service == old(samples.service)
      ensures paired <==> Observe(cfg, old(View()), span, agentId, victims).1 != []
      ensures Relevant(span)
              ==> OldestVictims(cfg, Expire(Paired(cfg, old(View()), span, agentId).0, span.timestamp), victims)
    {
      victims := {};
      var relevant;
      relevant, paired := PairSpan(span, agentId);
      if relevant {
        victims := EvictPending(span.timestamp);
      }
    }

    method PairSpan(span: Span, agentId: string) returns (relevant: bool, paired: bool)
      requires samples.groupCap == cfg.groupCap
      modifies this, samples
      ensures relevant == Relevant(span)
      ensures View() == Paired(cfg, old(View()), span, agentId).0 && samples.service == old(samples.service)
      ensures paired <==> Paired(cfg, old(View()), span, agentId).1 != []
    {
      relevant, paired := false, false;
      match span.kind
      case Client =>
        relevant := true;
        paired := ObserveClientSpan(span, agentId);
      case Server =>
        if span.parentSpanId != "" {
          relevant := true;
          paired := ObserveServerSpan(span, agentId);
        }
      case Internal =>
    }

    method ObserveClientSpan(span: Span, agentId: string) returns (paired: bool)
      requires samples.groupCap == cfg.groupCap
      modifies this, samples
      ensures View() == ObserveClient(cfg, old(View()), span, agentId).0 && samples.service == old(samples.service)
      ensures paired <==> ObserveClient(cfg, old(View()), span, agentId).1 != []
    {
      hide Record, RecordServers;
      var own, info := OwnKey(span), PendingOf(span, agentId);
      paired := false;
      if own in waitingClient {
        var servers := waitingClient[own];
        waitingClient := waitingClient - {own};
        ghost var before := View();
        NoServersRecorded(cfg, before, span, agentId);
        for i := 0 to |servers|
          invariant View() == RecordServers(cfg, before, span, agentId, servers[..i]).0
                    && samples.service == old(samples.service)
          invariant paired <==> RecordServers(cfg, before, span, agentId, servers[..i]).1 != []
        {
          var counted := RecordCall(DedupOf(cfg, span), CallOf(own, info, servers[i].service, agentId));
          paired := paired || counted;
          NextServerRecorded(cfg, before, span, agentId, servers, i);
        }
        assert servers[..|servers|] == servers;
      }
      waitingServer := waitingServer[own := info];
    }

    method ObserveServerSpan(span: Span, agentId: string) returns (paired: bool)
      requires samples.groupCap == cfg.groupCap
      modifies this, samples
      ensures View() == ObserveServer(cfg, old(View()), span, agentId).0 && samples.service == old(samples.service)
      ensures paired <==> ObserveServer(cfg, old(View()), span, agentId).1 != []
    {
      var key := ParentKey(span);
      if key in waitingServer {
        var client := waitingServer[key];
        waitingServer := waitingServer - {key};
        paired := RecordCall(key, CallOf(key, client, span.service, agentId));
      } else {
        var waiting := if key in waitingClient then waitingClient[key] else [];
        waitingClient := waitingClient[key := waiting + [PendingOf(span, agentId)]];
        paired := false;
      }
    }

    method CountWaitingServers() returns (n: nat)
      ensures n == MapFold(Calls, waitingClient, ListLength())
    {
      n := 0;
      var rest := waitingClient;
      while rest != map[]
        invariant n + MapFold(Calls, rest, ListLength()) == MapFold(Calls, waitingClient, ListLength())
        decreases |rest|
      {
        var key :| key in rest;
        FoldRemove(Calls, rest, ListLength(), key);
        n := n + |rest[key]|;
        rest := rest - {key};
      }
    }

    method EvictPending(now: int) returns (ghost victims: set<CallKey>)
      modifies this
      ensures View() == Evict(old(View()), now, victims)
      ensures OldestVictims(cfg, Expire(old(View()), now), victims)
    {
      hide Expire, OldestVictims, Settle;
      var dropped := ExpirePending(now);
      ghost var expired := View();
      var more;
      more, victims := EvictOverflow();
      droppedPending := droppedPending + dropped + more;
      SettleSums(old(View()), expired, victims, View(), dropped);
    }

    method EvictOverflow() returns (dropped: nat, ghost victims: set<CallKey>)
      modifies this`waitingServer
      ensures OldestVictims(cfg, old(View()), victims)
      ensures waitingServer == old(waitingServer) - victims && dropped == |victims|
    {
      var servers := CountWaitingServers();
      var total := |waitingServer| + servers;
      dropped, victims := 0, {};
      if total > cfg.pendingCapacity {
        var waiting := |waitingServer|;
        victims := DropOldestClients(total - cfg.pendingCapacity);
        DroppedFromMap(old(waitingServer), victims);
        assert forall k | k in old(waitingServer) && k !in victims ::
            k in waitingServer && waitingServer[k] == old(waitingServer)[k];
        dropped := waiting - |waitingServer|;
      } else {
        assert waitingServer - victims == waitingServer;
      }
    }

    method ExpirePending(now: int) returns (dropped: nat)
      modifies this`waitingClient, this`waitingServer, this`recorded
      ensures View() == Expire(old(View()), now)
      ensures dropped == |old(waitingServer).Keys - waitingServer.Keys| + |old(recorded).Keys - recorded.Keys|
    {
      hide FreshOnly, Fresh;
      waitingClient := map k | k in waitingClient && FreshOnly(waitingClient[k], now) != [] ::
          FreshOnly(waitingClient[k], now);
      var keptClients := map k | k in waitingServer && Fresh(waitingServer[k].timestamp, now) :: waitingServer[k];
      var keptRecords := map k | k in recorded && Fresh(recorded[k], now) :: recorded[k];
      dropped := |waitingServer.Keys - keptClients.Keys| + |recorded.Keys - keptRecords.Keys|;
      waitingServer, recorded := keptClients, keptRecords;
    }

    method DropOldestClients(overflow: nat) returns (ghost victims: set<CallKey>)
      modifies this`waitingServer
      ensures victims <= old(waitingServer).Keys && waitingServer == old(waitingServer) - victims
      ensures |victims| == if overflow <= |old(waitingServer)| then overflow else |old(waitingServer)|
      ensures forall v, k | v in victims && k in waitingServer ::
              old(waitingServer)[v].timestamp <= waitingServer[k].timestamp
    {
      ghost var all := waitingServer;
      victims := {};
      var removed := 0;
      while removed < overflow && waitingServer != map[]
        invariant removed == |victims| <= overflow && victims <= all.Keys && waitingServer == all - victims
        invariant forall v, k | v in victims && k in waitingServer :: all[v].timestamp <= waitingServer[k].timestamp
        invariant |victims| + |waitingServer| == |all|
        decreases |waitingServer|
      {
        var oldest := OldestClient();
        assert waitingServer - {oldest} == all - (victims + {oldest});
        DroppedFromMap(waitingServer, {oldest});
        waitingServer := waitingServer - {oldest};
        victims := victims + {oldest};
        removed := removed + 1;
      }
    }

    method OldestClient() returns (oldest: CallKey)
      requires waitingServer != map[]
      ensures oldest in waitingServer
      ensures forall k | k in waitingServer :: waitingServer[oldest].timestamp <= waitingServer[k].timestamp
    {
      oldest :| oldest in waitingServer;
      var rest := waitingServer.Keys - {oldest};
      while rest != {}
        invariant oldest in waitingServer && rest <= waitingServer.Keys
        invariant forall k | k in waitingServer && k !in rest ::
                  waitingServer[oldest].timestamp <= waitingServer[k].timestamp
        decreases |rest|
      {
        var key :| key in rest;
        if waitingServer[key].timestamp < waitingServer[oldest].timestamp {
          oldest := key;
        }
        rest := rest - {key};
      }
    }

    // The locked part of a flush: fallback calls first, then every pending edge.
    method TakeForFlush(now: int) returns (batch: seq<Item>, ghost clients: seq<CallKey>, ghost order: seq<EdgeKey>)
      requires samples.groupCap == cfg.groupCap
      modifies this, samples
      ensures View() == TakeBatch(cfg, old(View()), now, clients, order).0 && samples.service == old(samples.service)
      ensures batch == TakeBatch(cfg, old(View()), now, clients, order).2
      ensures edges == map[]
      ensures forall k | k in old(waitingServer) && Closed(old(waitingServer)[k].timestamp, now) ::
              k in clients && k !in waitingServer
      ensures forall k | k in old(edges) :: k in order
    {
      ghost var before := View();
      batch, clients := TakeFallbacks(now);
      ghost var closed, calls := FlushClients(cfg, before, now, clients).0, FlushClients(cfg, before, now, clients).1;
      assert View() == closed;
      ghost var pending := edges;
      order := [];
      while edges != map[]
        invariant View() == FlushEdges(closed, order).0
        invariant batch == ItemsOf(calls) + FlushEdges(closed, order).1
        invariant samples.service == old(samples.service) && waitingServer == closed.waitingServer
        invariant edges.Keys <= pending.Keys
        invariant forall k | k in pending :: k in edges || k in order
        decreases |edges|
      {
        var key :| key in edges;
        ghost var longer := order + [key];
        assert longer[..|order|] == order;
        batch := batch + [Item(key, edges[key])];
        edges := edges - {key};
        order := longer;
      }
    }

    method TakeFallbacks(now: int) returns (batch: seq<Item>, ghost clients: seq<CallKey>)
      requires samples.groupCap == cfg.groupCap
      modifies this, samples
      ensures View() == FlushClients(cfg, old(View()), now, clients).0 && samples.service == old(samples.service)
      ensures batch == ItemsOf(FlushClients(cfg, old(View()), now, clients).1)
      ensures forall k | k in old(waitingServer) && Closed(old(waitingServer)[k].timestamp, now) ::
              k in clients && k !in waitingServer
      ensures edges == old(edges)
    {
      hide FlushClients, FlushClient, ItemsOf;
      ghost var before := View();
      FlushClientsStart(cfg, before, now);
      var closed := set k | k in waitingServer && Closed(waitingServer[k].timestamp, now);
      ghost var all := closed;
      batch, clients := [], [];
      while closed != {}
        invariant View() == FlushClients(cfg, before, now, clients).0 && samples.service == old(samples.service)
        invariant batch == ItemsOf(FlushClients(cfg, before, now, clients).1)
        invariant forall k | k in closed :: k in waitingServer && Closed(waitingServer[k].timestamp, now)
        invariant forall k | k in all :: k in closed || (k in clients && k !in waitingServer)
        invariant edges == old(edges)
        decreases |closed|
      {
        var key :| key in closed;
        FlushClientsSnoc(cfg, before, now, clients, key);
        closed := closed - {key};
        var item := FlushOne(now, key);
        batch := batch + item;
        clients := clients + [key];
      }
    }

    method FlushOne(now: int, key: CallKey) returns (items: seq<Item>)
      requires samples.groupCap == cfg.groupCap && key in waitingServer && Closed(waitingServer[key].timestamp, now)
      modifies this, samples
      ensures View() == FlushClient(cfg, old(View()), now, key).0 && samples.service == old(samples.service)
      ensures items == ItemsOf(FlushClient(cfg, old(View()), now, key).1)
      ensures waitingServer == old(waitingServer) - {key} && edges == old(edges)
    {
      var client := waitingServer[key];
      waitingServer := waitingServer - {key};
      if key in recorded {
        return [];
      }
      recorded := recorded[key := client.timestamp];
      var call := CallOf(key, client, client.fallbackDst, client.agentId);
      TakeSample(call);
      items := [Item(call.edge, TotalOf(call))];
      assert [call][..0] == [];
      assert ItemsOf([]) + items == items;
    }

    method Flush(table: EdgeTable, now: int, outcome: nat -> Outcome)
      returns (written: nat, ghost clients: seq<CallKey>, ghost order: seq<EdgeKey>)
      requires samples.groupCap == cfg.groupCap
      modifies this, samples, table
      ensures View() == TakeBatch(cfg, old(View()), now, clients, order).0 && samples.service == old(samples.service)
      ensures var (rows, lost) :=
              WriteBatch(old(table.rows), TakeBatch(cfg, old(View()), now, clients, order).2, outcome);
              table.rows == rows && written + |lost| == |TakeBatch(cfg, old(View()), now, clients, order).2|
      ensures forall k | k in old(waitingServer) && Closed(old(waitingServer)[k].timestamp, now) :: k in clients
      ensures forall k | k in old(edges) :: k in order
    {
      var batch;
      batch, clients, order := TakeForFlush(now);
      written := WriteItems(table, batch, outcome);
    }

    static method WriteItems(table: EdgeTable, batch: seq<Item>, outcome: nat -> Outcome) returns (written: nat)
      modifies table
      ensures table.rows == WriteBatch(old(table.rows), batch, outcome).0
      ensures written + |WriteBatch(old(table.rows), batch, outcome).1| == |batch|
    {
      written := 0;
      for i := 0 to |batch|
        invariant table.rows == WriteBatch(old(table.rows), batch[..i], outcome).0
        invariant written + |WriteBatch(old(table.rows), batch[..i], outcome).1| == i
      {
        assert batch[..i + 1][..i] == batch[..i];
        var key := batch[i].edge;
        if IsUnknown(key.dst) {
          match outcome(i).service
          case Some(service) => key := key.(dst := service);
          case None =>
        }
        if outcome(i).stored {
          table.ReadAddReplace(key, batch[i].delta);
          written := written + 1;
        }
      }
      assert batch[..|batch|] == batch;
    }
  }

  lemma {:induction false} NoServersRecorded(cfg: Config, s: State, client: Span, agentId: string)
    ensures RecordServers(cfg, s, client, agentId, []) == (s, [])
  {
  }

  lemma {:induction false} NextServerRecorded(cfg: Config, s: State, client: Span, agentId: string,
                                              servers: seq<Pending>, i: nat)
    requires i < |servers|
    ensures var (before, calls) := RecordServers(cfg, s, client, agentId, servers[..i]);
            var call := CallOf(OwnKey(client), PendingOf(client, agentId), servers[i].service, agentId);
            var (after, more) := Record(cfg, before, DedupOf(cfg, client), call);
            RecordServers(cfg, s, client, agentId, servers[..i + 1]) == (after, calls + more)
  {
    assert servers[..i + 1][..i] == servers[..i];
  }

  lemma {:induction false} FlushClientsStart(cfg: Config, s: State, now: int)
    ensures FlushClients(cfg, s, now, []) == (s, []) && ItemsOf([]) == []
  {
  }

  lemma {:induction false} FlushClientsSnoc(cfg: Config, s: State, now: int, clients: seq<CallKey>, key: CallKey)
    ensures var (before, calls) := FlushClients(cfg, s, now, clients);
            var (after, more) := FlushClient(cfg, before, now, key);
            && FlushClients(cfg, s, now, clients + [key]).0 == after
            && ItemsOf(FlushClients(cfg, s, now, clients + [key]).1) == ItemsOf(calls) + ItemsOf(more)
  {
    var (before, calls) := FlushClients(cfg, s, now, clients);
    assert (clients + [key])[..|clients|] == clients;
    ItemsOfConcat(calls, FlushClient(cfg, before, now, key).1);
  }

  lemma SettleSums(s: State, expired: State, victims: set<CallKey>, after: State, dropped: nat)
    requires dropped == |s.waitingServer.Keys - expired.waitingServer.Keys| + |s.recorded.Keys - expired.recorded.Keys|
    requires after == expired.(waitingServer := expired.waitingServer - victims,
                               droppedPending := s.droppedPending + dropped + |victims|)
    ensures after == Settle(s, expired, victims)
  {
  }

  lemma DroppedFromMap<K, V>(m: map<K, V>, victims: set<K>)
    requires victims <= m.Keys
    ensures |m| - |m - victims| == |victims|
  {
  }

  lemma {:induction false} ItemsOfConcat(xs: seq<Call>, ys: seq<Call>)
    requires |ys| <= 1
    ensures ItemsOf(xs + ys) == ItemsOf(xs) + ItemsOf(ys)
  {
    if ys == [] {
      assert xs + ys == xs;
    } else {
      assert (xs + ys)[..|xs|] == xs;
      assert ys[..0] == [];
    }
  }
}
