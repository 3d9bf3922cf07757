/**
  What every run of the edge accumulator keeps: conservation of calls between
  memory, samples and stored rows, and how often one client may be counted.
 */
module EdgeTheorems {
  import opened Wrappers
  import opened Spans
  import opened Samples
  import opened Totals
  import opened EdgePairing
  import R = SampleRuns

  // ---------------------------------------------------------------- runs

  datatype Op =
    | Observed(span: Span, agentId: string, victims: set<CallKey>)
    | Flushed(now: int, clients: seq<CallKey>, edges: seq<EdgeKey>, outcome: nat -> Outcome)
    | Drained(now: int, out: seq<GroupStats>)

  // The accumulator, the stored rows, and what happened so far: calls counted, items taken
  // by flushes, items lost to failed writes, groups drained, client spans seen, clients
  // evicted while waiting, dedup records expired, and the times at which eviction ran.
  datatype World = World(state: State, rows: map<EdgeKey, Total>, counted: seq<Call>, flushed: seq<Item>,
                         lost: seq<Item>, drained: seq<GroupStats>, arrivals: nat,
                         evictedClients: nat, expiredRecords: nat, clock: set<int>)

  const START := World(INITIAL, map[], [], [], [], [], 0, 0, 0, {})

  // The choices a run makes are the code's: victims are the oldest, flushes take everything,
  // draining lists the closed groups.
  ghost predicate ValidStep(cfg: Config, w: World, op: Op) {
    match op
    case Observed(span, agentId, victims) =>
      Relevant(span) ==> OldestVictims(cfg, Expire(Paired(cfg, w.state, span, agentId).0, span.timestamp), victims)
    case Flushed(now, clients, edges, outcome) =>
      && (forall k | k in w.state.waitingServer && Closed(w.state.waitingServer[k].timestamp, now) :: k in clients)
      && (forall k | k in w.state.edges :: k in edges)
    case Drained(now, out) => DrainsClosed(w.state.samples, now, out)
  }

  function AfterObserving(w: World, span: Span, paired: State, calls: seq<Call>, victims: set<CallKey>): World {
    var seen := w.(counted := w.counted + calls, arrivals := w.arrivals + if span.kind.Client? then 1 else 0);
    if !Relevant(span) then seen.(state := paired)
    else AfterEvicting(seen, span.timestamp, paired, Evict(paired, span.timestamp, victims))
  }

  function AfterEvicting(w: World, now: int, paired: State, after: State): World {
    w.(state := after,
       evictedClients := w.evictedClients + |paired.waitingServer.Keys - after.waitingServer.Keys|,
       expiredRecords := w.expiredRecords + |paired.recorded.Keys - after.recorded.Keys|,
       clock := w.clock + {now})
  }

  function Apply(cfg: Config, w: World, op: Op): World {
    match op
    case Observed(span, agentId, victims) =>
      var (paired, calls) := Paired(cfg, w.state, span, agentId);
      AfterObserving(w, span, paired, calls, victims)
    case Flushed(now, clients, edges, outcome) =>
      var (after, calls, batch) := TakeBatch(cfg, w.state, now, clients, edges);
      var (rows, lost) := WriteBatch(w.rows, batch, outcome);
      w.(state := after, counted := w.counted + calls, flushed := w.flushed + batch, rows := rows,
         lost := w.lost + lost)
    case Drained(now, out) =>
      w.(state := w.state.(samples := OpenPart(w.state.samples, now)), drained := w.drained + out)
  }

  ghost predicate ValidRun(cfg: Config, ops: seq<Op>) {
    ops == [] || (ValidRun(cfg, ops[..|ops| - 1]) && ValidStep(cfg, Run(cfg, ops[..|ops| - 1]), ops[|ops| - 1]))
  }

  function Run(cfg: Config, ops: seq<Op>): World {
    if ops == [] then START else Apply(cfg, Run(cfg, ops[..|ops| - 1]), ops[|ops| - 1])
  }

  // ---------------------------------------------------------------- measures

  // What a sum ranges over: everything, one (minute, source, agent), or one (minute, source, target).
  datatype Scope =
    | Everything
    | ByAgent(bucketStart: int, src: string, agentId: string)
    | ByTarget(bucketStart: int, src: string, dst: string)
  {
    predicate Covers(k: EdgeKey) {
      match this
      case Everything => true
      case ByAgent(b, s, a) => k.bucketStart == b && k.src == s && k.agentId == a
      case ByTarget(b, s, d) => k.bucketStart == b && k.src == s && k.dst == d
    }

    // Sample groups carry no agent, so only the other two scopes apply to them.
    predicate CoversGroup(g: GroupKey) {
      match this
      case Everything => true
      case ByAgent(_, _, _) => false
      case ByTarget(b, s, d) => g.bucketStart == b && g.first == s && g.second == d
    }
  }

  function EdgeMeasure(scope: Scope, aspect: Aspect): (EdgeKey, Total) -> nat {
    (k: EdgeKey, t: Total) => if scope.Covers(k) then t.Get(aspect) else 0
  }

  function ItemMeasure(scope: Scope, aspect: Aspect): Item -> nat {
    (i: Item) => if scope.Covers(i.edge) then i.delta.Get(aspect) else 0
  }

  function CallMeasure(scope: Scope, aspect: Aspect): Call -> nat {
    (c: Call) => if scope.Covers(c.edge) then TotalOf(c).Get(aspect) else 0
  }

  function GroupTotal(k: GroupKey, g: Group): Total {
    Total(g.count, if k.status == "error" then g.count else 0, g.sum, g.max)
  }

  function GroupMeasure(scope: Scope, aspect: Aspect): (GroupKey, Group) -> nat {
    (k: GroupKey, g: Group) => if scope.CoversGroup(k) then GroupTotal(k, g).Get(aspect) else 0
  }

  function StatsMeasure(scope: Scope, aspect: Aspect): GroupStats -> nat {
    (g: GroupStats) =>
      if scope.CoversGroup(g.key) then GroupTotal(g.key, Group(g.count, g.sum, g.max, g.samples)).Get(aspect) else 0
  }

  ghost function EdgeSum(scope: Scope, aspect: Aspect, m: map<EdgeKey, Total>): nat {
    MapFold(aspect, m, EdgeMeasure(scope, aspect))
  }

  ghost function ItemSum(scope: Scope, aspect: Aspect, items: seq<Item>): nat {
    SeqFold(aspect, items, ItemMeasure(scope, aspect))
  }

  ghost function CallSum(scope: Scope, aspect: Aspect, calls: seq<Call>): nat {
    SeqFold(aspect, calls, CallMeasure(scope, aspect))
  }

  ghost function SampleSum(scope: Scope, aspect: Aspect, table: Table): nat {
    MapFold(aspect, table, GroupMeasure(scope, aspect))
  }

  ghost function StatsSum(scope: Scope, aspect: Aspect, out: seq<GroupStats>): nat {
    SeqFold(aspect, out, StatsMeasure(scope, aspect))
  }

  // ---------------------------------------------------------------- single steps

  // Joining is commutative and associative: a step moves weight from one side to the other.
  lemma JoinShuffle(aspect: Aspect, a: nat, b: nat, c: nat)
    ensures aspect.Join(a, b) == aspect.Join(b, a)
    ensures aspect.Join(aspect.Join(a, b), c) == aspect.Join(a, aspect.Join(b, c)) == aspect.Join(aspect.Join(a, c), b)
  {
  }

  lemma AddToFold(m: map<EdgeKey, Total>, k: EdgeKey, delta: Total, scope: Scope, aspect: Aspect)
    ensures EdgeSum(scope, aspect, AddTo(m, k, delta))
         == aspect.Join(EdgeSum(scope, aspect, m), if scope.Covers(k) then delta.Get(aspect) else 0)
  {
    var before := if k in m then m[k] else ZERO;
    FoldUpdate(aspect, m, EdgeMeasure(scope, aspect), k, before.Plus(delta),
               if scope.Covers(k) then delta.Get(aspect) else 0);
  }

  lemma SampleFold(cap: pos, table: Table, call: Call, scope: Scope, aspect: Aspect)
    requires !scope.ByAgent?
    ensures SampleSum(scope, aspect, ObserveSample(cap, table, GroupOf(call), call.duration))
         == aspect.Join(SampleSum(scope, aspect, table), CallMeasure(scope, aspect)(call))
  {
    var k := GroupOf(call);
    var before := if k in table then table[k] else EMPTY_GROUP;
    var delta := CallMeasure(scope, aspect)(call);
    assert scope.CoversGroup(k) == scope.Covers(call.edge);
    assert GroupMeasure(scope, aspect)(k, Extend(cap, before, call.duration))
        == aspect.Join(GroupMeasure(scope, aspect)(k, before), delta) by {
      match aspect
      case Calls =>
      case Errors =>
      case DurationSum =>
      case DurationMax =>
    }
    FoldUpdate(aspect, table, GroupMeasure(scope, aspect), k, Extend(cap, before, call.duration), delta);
  }

  lemma CallSumOne(scope: Scope, aspect: Aspect, call: Call)
    ensures CallSum(scope, aspect, [call]) == CallMeasure(scope, aspect)(call)
  {
    SeqFoldSnoc(aspect, [], CallMeasure(scope, aspect), call);
    assert [] + [call] == [call];
  }

  lemma CallSumConcat(scope: Scope, aspect: Aspect, xs: seq<Call>, ys: seq<Call>)
    ensures CallSum(scope, aspect, xs + ys) == aspect.Join(CallSum(scope, aspect, xs), CallSum(scope, aspect, ys))
  {
    SeqFoldConcat(aspect, xs, ys, CallMeasure(scope, aspect));
  }

  lemma ItemSumConcat(scope: Scope, aspect: Aspect, xs: seq<Item>, ys: seq<Item>)
    ensures ItemSum(scope, aspect, xs + ys) == aspect.Join(ItemSum(scope, aspect, xs), ItemSum(scope, aspect, ys))
  {
    SeqFoldConcat(aspect, xs, ys, ItemMeasure(scope, aspect));
  }

  lemma ItemSumSnoc(scope: Scope, aspect: Aspect, xs: seq<Item>, x: Item)
    ensures ItemSum(scope, aspect, xs + [x])
         == aspect.Join(ItemSum(scope, aspect, xs), if scope.Covers(x.edge) then x.delta.Get(aspect) else 0)
  {
  }

  ghost predicate AddsEdges(before: State, after: State, calls: seq<Call>, scope: Scope, aspect: Aspect) {
    EdgeSum(scope, aspect, after.edges)
        == aspect.Join(EdgeSum(scope, aspect, before.edges), CallSum(scope, aspect, calls))
  }

  ghost predicate AddsSamples(before: State, after: State, calls: seq<Call>, scope: Scope, aspect: Aspect) {
    !scope.ByAgent? ==>
      SampleSum(scope, aspect, after.samples)
      == aspect.Join(SampleSum(scope, aspect, before.samples), CallSum(scope, aspect, calls))
  }

  // Calls counted during pairing show up in the edges and in the samples, with their full weight.
  ghost predicate Adds(before: State, after: State, calls: seq<Call>, scope: Scope, aspect: Aspect) {
    AddsEdges(before, after, calls, scope, aspect) && AddsSamples(before, after, calls, scope, aspect)
  }

  lemma RecordAdds(cfg: Config, s: State, dedup: CallKey, call: Call, scope: Scope, aspect: Aspect)
    ensures Adds(s, Record(cfg, s, dedup, call).0, Record(cfg, s, dedup, call).1, scope, aspect)
  {
    if dedup !in s.recorded {
      AddToFold(s.edges, call.edge, TotalOf(call), scope, aspect);
      if !scope.ByAgent? { SampleFold(cfg.groupCap, s.samples, call, scope, aspect); }
      CallSumOne(scope, aspect, call);
    }
  }

  lemma AddsCompose(a: State, b: State, c: State, xs: seq<Call>, ys: seq<Call>, scope: Scope, aspect: Aspect)
    ensures Adds(a, b, xs, scope, aspect) && Adds(b, c, ys, scope, aspect) ==> Adds(a, c, xs + ys, scope, aspect)
    ensures AddsSamples(a, b, xs, scope, aspect) && AddsSamples(b, c, ys, scope, aspect)
            ==> AddsSamples(a, c, xs + ys, scope, aspect)
  {
    CallSumConcat(scope, aspect, xs, ys);
  }

  lemma {:induction false} RecordServersAdds(cfg: Config, s: State, client: Span, agentId: string,
                                             servers: seq<Pending>,
                                             scope: Scope, aspect: Aspect)
    ensures Adds(s, RecordServers(cfg, s, client, agentId, servers).0,
                 RecordServers(cfg, s, client, agentId, servers).1, scope, aspect)
  {
    if servers != [] {
      var init, last := servers[..|servers| - 1], servers[|servers| - 1];
      RecordServersAdds(cfg, s, client, agentId, init, scope, aspect);
      var (before, calls) := RecordServers(cfg, s, client, agentId, init);
      var call := CallOf(OwnKey(client), PendingOf(client, agentId), last.service, agentId);
      RecordAdds(cfg, before, DedupOf(cfg, client), call, scope, aspect);
      var (after, more) := Record(cfg, before, DedupOf(cfg, client), call);
      AddsCompose(s, before, after, calls, more, scope, aspect);
    }
  }

  lemma AddsFrame(s: State, t: State, after: State, calls: seq<Call>, scope: Scope, aspect: Aspect)
    requires t.edges == s.edges && t.samples == s.samples && Adds(t, after, calls, scope, aspect)
    ensures Adds(s, after, calls, scope, aspect)
  {
  }

  lemma AddsAfter(s: State, t: State, after: State, calls: seq<Call>, scope: Scope, aspect: Aspect)
    requires t.edges == after.edges && t.samples == after.samples && Adds(s, t, calls, scope, aspect)
    ensures Adds(s, after, calls, scope, aspect)
  {
  }

  lemma NothingAdds(s: State, after: State, scope: Scope, aspect: Aspect)
    requires after.edges == s.edges && after.samples == s.samples
    ensures Adds(s, after, [], scope, aspect)
  {
  }

  lemma ClientAdds(cfg: Config, s: State, span: Span, agentId: string, scope: Scope, aspect: Aspect)
    ensures Adds(s, ObserveClient(cfg, s, span, agentId).0, ObserveClient(cfg, s, span, agentId).1, scope, aspect)
  {
    var own := OwnKey(span);
    var (after, calls) := ObserveClient(cfg, s, span, agentId);
    if own in s.waitingClient {
      var t := s.(waitingClient := s.waitingClient - {own});
      RecordServersAdds(cfg, t, span, agentId, s.waitingClient[own], scope, aspect);
      var (paired, _) := RecordServers(cfg, t, span, agentId, s.waitingClient[own]);
      AddsFrame(s, t, paired, calls, scope, aspect);
      AddsAfter(s, paired, after, calls, scope, aspect);
    } else {
      NothingAdds(s, after, scope, aspect);
    }
  }

  lemma ServerAdds(cfg: Config, s: State, span: Span, agentId: string, scope: Scope, aspect: Aspect)
    ensures Adds(s, ObserveServer(cfg, s, span, agentId).0, ObserveServer(cfg, s, span, agentId).1, scope, aspect)
  {
    var key := ParentKey(span);
    var (after, calls) := ObserveServer(cfg, s, span, agentId);
    if key in s.waitingServer {
      var t := s.(waitingServer := s.waitingServer - {key});
      RecordAdds(cfg, t, key, CallOf(key, s.waitingServer[key], span.service, agentId), scope, aspect);
      AddsFrame(s, t, after, calls, scope, aspect);
    } else {
      NothingAdds(s, after, scope, aspect);
    }
  }

  lemma PairedAdds(cfg: Config, s: State, span: Span, agentId: string, scope: Scope, aspect: Aspect)
    ensures Adds(s, Paired(cfg, s, span, agentId).0, Paired(cfg, s, span, agentId).1, scope, aspect)
  {
    if !Relevant(span) {
      NothingAdds(s, s, scope, aspect);
    } else if span.kind.Client? {
      ClientAdds(cfg, s, span, agentId, scope, aspect);
    } else {
      ServerAdds(cfg, s, span, agentId, scope, aspect);
    }
  }

  lemma {:induction false} FlushClientsAddsSamples(cfg: Config, s: State, now: int, order: seq<CallKey>, scope: Scope,
                                                   aspect: Aspect)
    ensures AddsSamples(s, FlushClients(cfg, s, now, order).0, FlushClients(cfg, s, now, order).1, scope, aspect)
    ensures FlushClients(cfg, s, now, order).0.edges == s.edges
  {
    if order != [] {
      var init, key := order[..|order| - 1], order[|order| - 1];
      FlushClientsAddsSamples(cfg, s, now, init, scope, aspect);
      var (before, calls) := FlushClients(cfg, s, now, init);
      var (after, more) := FlushClient(cfg, before, now, key);
      if more != [] {
        CallSumOne(scope, aspect, more[0]);
        if !scope.ByAgent? { SampleFold(cfg.groupCap, before.samples, more[0], scope, aspect); }
      }
      AddsCompose(s, before, after, calls, more, scope, aspect);
    }
  }

  lemma {:induction false} ItemsWeighAsCalls(calls: seq<Call>, scope: Scope, aspect: Aspect)
    ensures ItemSum(scope, aspect, ItemsOf(calls)) == CallSum(scope, aspect, calls)
  {
    if calls != [] {
      var init, last := calls[..|calls| - 1], calls[|calls| - 1];
      ItemsWeighAsCalls(init, scope, aspect);
      ItemSumSnoc(scope, aspect, ItemsOf(init), Item(last.edge, TotalOf(last)));
    }
  }

  lemma EdgeBecomesItem(edges: map<EdgeKey, Total>, items: seq<Item>, key: EdgeKey, scope: Scope, aspect: Aspect)
    requires key in edges
    ensures aspect.Join(EdgeSum(scope, aspect, edges - {key}), ItemSum(scope, aspect, items + [Item(key, edges[key])]))
         == aspect.Join(EdgeSum(scope, aspect, edges), ItemSum(scope, aspect, items))
  {
    FoldRemove(aspect, edges, EdgeMeasure(scope, aspect), key);
    ItemSumSnoc(scope, aspect, items, Item(key, edges[key]));
    JoinShuffle(aspect, EdgeSum(scope, aspect, edges - {key}), ItemSum(scope, aspect, items),
                EdgeMeasure(scope, aspect)(key, edges[key]));
  }

  lemma {:induction false} FlushEdgesMoves(s: State, order: seq<EdgeKey>, scope: Scope, aspect: Aspect)
    ensures var (after, items) := FlushEdges(s, order);
            aspect.Join(EdgeSum(scope, aspect, after.edges), ItemSum(scope, aspect, items))
                == EdgeSum(scope, aspect, s.edges)
  {
    if order != [] {
      var init, key := order[..|order| - 1], order[|order| - 1];
      FlushEdgesMoves(s, init, scope, aspect);
      var (before, items) := FlushEdges(s, init);
      if key in before.edges {
        EdgeBecomesItem(before.edges, items, key, scope, aspect);
      }
    }
  }

  lemma {:induction false} FlushEdgesFrame(s: State, order: seq<EdgeKey>)
    ensures FlushEdges(s, order).0 == s.(edges := FlushEdges(s, order).0.edges)
    ensures FlushEdges(s, order).0.edges.Keys == s.edges.Keys - (set k | k in order)
  {
    if order != [] {
      var init, key := order[..|order| - 1], order[|order| - 1];
      FlushEdgesFrame(s, init);
      assert forall k :: k in order <==> k in init || k == key;
    }
  }

  /** Resolving renames only unknown targets, to what the resolver answered, and nothing else of the row. */
  lemma ResolvesUnknownOnly(edge: EdgeKey, outcome: Outcome)
    ensures Resolved(edge, outcome).(dst := edge.dst) == edge
    ensures Resolved(edge, outcome).dst
         == (if edge.dst[..if |edge.dst| < 7 then |edge.dst| else 7] == "unknown" && outcome.service.Some?
             then outcome.service.value else edge.dst)
  {
    assert "unknown" <= edge.dst <==> edge.dst[..if |edge.dst| < 7 then |edge.dst| else 7] == "unknown";
  }

  // Resolving moves no item of the batch into this scope or out of it.
  ghost predicate StaysInScope(scope: Scope, batch: seq<Item>, outcome: nat -> Outcome) {
    forall i: nat | i < |batch| :: scope.Covers(Resolved(batch[i].edge, outcome(i))) == scope.Covers(batch[i].edge)
  }

  // A scope over targets is one known target that no answer names; the others do not look at the target.
  ghost predicate Unresolvable(scope: Scope, outcome: nat -> Outcome) {
    scope.ByTarget? ==> !IsUnknown(scope.dst) && forall i: nat :: outcome(i).service != Some(scope.dst)
  }

  lemma UnresolvableStays(scope: Scope, batch: seq<Item>, outcome: nat -> Outcome)
    requires Unresolvable(scope, outcome)
    ensures StaysInScope(scope, batch, outcome)
  {
    forall i: nat | i < |batch|
        ensures scope.Covers(Resolved(batch[i].edge, outcome(i))) == scope.Covers(batch[i].edge) {
      ResolvesUnknownOnly(batch[i].edge, outcome(i));
    }
  }

  lemma {:induction false} WriteBatchStores(rows: map<EdgeKey, Total>, batch: seq<Item>, outcome: nat -> Outcome,
                                            scope: Scope, aspect: Aspect)
    requires StaysInScope(scope, batch, outcome)
    ensures var (after, lost) := WriteBatch(rows, batch, outcome);
            aspect.Join(EdgeSum(scope, aspect, after), ItemSum(scope, aspect, lost))
            == aspect.Join(EdgeSum(scope, aspect, rows), ItemSum(scope, aspect, batch))
  {
    if batch != [] {
      var i := |batch| - 1;
      WriteBatchStores(rows, batch[..i], outcome, scope, aspect);
      var (before, lost) := WriteBatch(rows, batch[..i], outcome);
      assert batch == batch[..i] + [batch[i]];
      ItemSumSnoc(scope, aspect, batch[..i], batch[i]);
      if outcome(i).stored {
        var row := Resolved(batch[i].edge, outcome(i));
        assert scope.Covers(row) == scope.Covers(batch[i].edge);
        AddToFold(before, row, batch[i].delta, scope, aspect);
        JoinShuffle(aspect, EdgeSum(scope, aspect, before), ItemSum(scope, aspect, lost),
                    ItemMeasure(scope, aspect)(batch[i]));
        JoinShuffle(aspect, EdgeSum(scope, aspect, rows), ItemSum(scope, aspect, batch[..i]),
                    ItemMeasure(scope, aspect)(batch[i]));
      } else {
        ItemSumSnoc(scope, aspect, lost, batch[i]);
        JoinShuffle(aspect, EdgeSum(scope, aspect, before), ItemSum(scope, aspect, lost),
                    ItemMeasure(scope, aspect)(batch[i]));
        JoinShuffle(aspect, EdgeSum(scope, aspect, rows), ItemSum(scope, aspect, batch[..i]),
                    ItemMeasure(scope, aspect)(batch[i]));
      }
    }
  }

  // What the accepted items of a batch weigh in the rows they resolve to.
  ghost function StoredSum(scope: Scope, aspect: Aspect, batch: seq<Item>, outcome: nat -> Outcome): nat {
    if batch == [] then 0
    else
      var i := |batch| - 1;
      aspect.Join(StoredSum(scope, aspect, batch[..i], outcome),
                  if outcome(i).stored && scope.Covers(Resolved(batch[i].edge, outcome(i)))
                  then batch[i].delta.Get(aspect) else 0)
  }

  /**
    Row by row: every scope of the stored rows, one target included, gains exactly the accepted
    items that resolve into it.
   */
  lemma {:induction false} RowsHoldResolvedItems(rows: map<EdgeKey, Total>, batch: seq<Item>, outcome: nat -> Outcome,
                                                 scope: Scope, aspect: Aspect)
    ensures EdgeSum(scope, aspect, WriteBatch(rows, batch, outcome).0)
         == aspect.Join(EdgeSum(scope, aspect, rows), StoredSum(scope, aspect, batch, outcome))
  {
    hide EdgeSum, AddTo;
    if batch != [] {
      var i := |batch| - 1;
      RowsHoldResolvedItems(rows, batch[..i], outcome, scope, aspect);
      AddToFold(WriteBatch(rows, batch[..i], outcome).0, Resolved(batch[i].edge, outcome(i)), batch[i].delta, scope,
                aspect);
    }
  }

  lemma TakeBatchMoves(cfg: Config, s: State, now: int, clients: seq<CallKey>, edges: seq<EdgeKey>, scope: Scope,
                       aspect: Aspect)
    ensures var (after, calls, batch) := TakeBatch(cfg, s, now, clients, edges);
            && aspect.Join(EdgeSum(scope, aspect, after.edges), ItemSum(scope, aspect, batch))
               == aspect.Join(EdgeSum(scope, aspect, s.edges), CallSum(scope, aspect, calls))
            && AddsSamples(s, after, calls, scope, aspect)
  {
    FlushClientsAddsSamples(cfg, s, now, clients, scope, aspect);
    var (closed, calls) := FlushClients(cfg, s, now, clients);
    FlushEdgesMoves(closed, edges, scope, aspect);
    FlushEdgesFrame(closed, edges);
    ItemsWeighAsCalls(calls, scope, aspect);
    ItemSumConcat(scope, aspect, ItemsOf(calls), FlushEdges(closed, edges).1);
  }

  // ---------------------------------------------------------------- conservation over runs

  ghost predicate EdgesConserved(w: World, scope: Scope, aspect: Aspect) {
    aspect.Join(EdgeSum(scope, aspect, w.state.edges), ItemSum(scope, aspect, w.flushed))
    == CallSum(scope, aspect, w.counted)
  }

  ghost predicate RowsConserved(w: World, scope: Scope, aspect: Aspect) {
    aspect.Join(EdgeSum(scope, aspect, w.rows), ItemSum(scope, aspect, w.lost)) == ItemSum(scope, aspect, w.flushed)
  }

  ghost predicate SamplesConserved(w: World, scope: Scope, aspect: Aspect) {
    aspect.Join(SampleSum(scope, aspect, w.state.samples), StatsSum(scope, aspect, w.drained))
    == CallSum(scope, aspect, w.counted)
  }

  // The part of the world a step of the sums looks at.
  ghost predicate Moves(w: World, after: World, calls: seq<Call>, batch: seq<Item>) {
    after.counted == w.counted + calls && after.flushed == w.flushed + batch
  }

  lemma ObservedMoves(w: World, span: Span, paired: State, calls: seq<Call>, victims: set<CallKey>)
    ensures var after := AfterObserving(w, span, paired, calls, victims);
            && after.state.edges == paired.edges && after.state.samples == paired.samples
            && after.counted == w.counted + calls && after.flushed == w.flushed
            && after.drained == w.drained && after.rows == w.rows && after.lost == w.lost
  {
    EvictFrame(paired, span.timestamp, victims);
  }

  lemma EvictFrame(s: State, now: int, victims: set<CallKey>)
    ensures Evict(s, now, victims).edges == s.edges && Evict(s, now, victims).samples == s.samples
  {
  }

  lemma EdgesStep(w: World, after: World, calls: seq<Call>, batch: seq<Item>, scope: Scope, aspect: Aspect)
    requires EdgesConserved(w, scope, aspect) && Moves(w, after, calls, batch)
    requires aspect.Join(EdgeSum(scope, aspect, after.state.edges), ItemSum(scope, aspect, batch))
          == aspect.Join(EdgeSum(scope, aspect, w.state.edges), CallSum(scope, aspect, calls))
    ensures EdgesConserved(after, scope, aspect)
  {
    CallSumConcat(scope, aspect, w.counted, calls);
    ItemSumConcat(scope, aspect, w.flushed, batch);
    JoinShuffle(aspect, EdgeSum(scope, aspect, after.state.edges), ItemSum(scope, aspect, w.flushed),
                ItemSum(scope, aspect, batch));
    JoinShuffle(aspect, EdgeSum(scope, aspect, w.state.edges), ItemSum(scope, aspect, w.flushed),
                CallSum(scope, aspect, calls));
  }

  lemma SamplesStep(w: World, after: World, calls: seq<Call>, scope: Scope, aspect: Aspect)
    requires SamplesConserved(w, scope, aspect) && after.counted == w.counted + calls && after.drained == w.drained
    requires !scope.ByAgent? && AddsSamples(w.state, after.state, calls, scope, aspect)
    ensures SamplesConserved(after, scope, aspect)
  {
    CallSumConcat(scope, aspect, w.counted, calls);
    JoinShuffle(aspect, SampleSum(scope, aspect, w.state.samples), StatsSum(scope, aspect, w.drained),
                CallSum(scope, aspect, calls));
  }

  /**
    In every run and scope, what pending edges hold plus what flushes took equals
    everything ever counted: calls, errors, duration sums, and the maximum.
   */
  lemma {:induction false} EdgesConserve(cfg: Config, ops: seq<Op>, scope: Scope, aspect: Aspect)
    ensures EdgesConserved(Run(cfg, ops), scope, aspect)
  {
    if ops != [] {
      var init, op := ops[..|ops| - 1], ops[|ops| - 1];
      EdgesConserve(cfg, init, scope, aspect);
      EdgesKept(cfg, Run(cfg, init), op, scope, aspect);
    }
  }

  lemma EdgesKept(cfg: Config, w: World, op: Op, scope: Scope, aspect: Aspect)
    requires EdgesConserved(w, scope, aspect)
    ensures EdgesConserved(Apply(cfg, w, op), scope, aspect)
  {
    var after := Apply(cfg, w, op);
    match op
    case Observed(span, agentId, victims) =>
      PairedAdds(cfg, w.state, span, agentId, scope, aspect);
      var (paired, calls) := Paired(cfg, w.state, span, agentId);
      ObservedMoves(w, span, paired, calls, victims);
      EdgesStep(w, after, calls, [], scope, aspect);
    case Flushed(now, clients, order, outcome) =>
      TakeBatchMoves(cfg, w.state, now, clients, order, scope, aspect);
      var (_, calls, batch) := TakeBatch(cfg, w.state, now, clients, order);
      EdgesStep(w, after, calls, batch, scope, aspect);
    case Drained(_, _) =>
  }

  lemma {:induction false} RowsStep(w: World, after: World, batch: seq<Item>, outcome: nat -> Outcome, scope: Scope,
                                    aspect: Aspect)
    requires RowsConserved(w, scope, aspect) && Unresolvable(scope, outcome)
    requires after.flushed == w.flushed + batch && after.rows == WriteBatch(w.rows, batch, outcome).0
    requires after.lost == w.lost + WriteBatch(w.rows, batch, outcome).1
    ensures RowsConserved(after, scope, aspect)
  {
    UnresolvableStays(scope, batch, outcome);
    WriteBatchStores(w.rows, batch, outcome, scope, aspect);
    var lost := WriteBatch(w.rows, batch, outcome).1;
    ItemSumConcat(scope, aspect, w.lost, lost);
    ItemSumConcat(scope, aspect, w.flushed, batch);
    JoinShuffle(aspect, EdgeSum(scope, aspect, after.rows), ItemSum(scope, aspect, w.lost),
                ItemSum(scope, aspect, lost));
    JoinShuffle(aspect, EdgeSum(scope, aspect, w.rows), ItemSum(scope, aspect, w.lost), ItemSum(scope, aspect, batch));
  }

  ghost predicate NeverResolvedTo(scope: Scope, ops: seq<Op>) {
    forall op | op in ops && op.Flushed? :: Unresolvable(scope, op.outcome)
  }

  lemma {:induction false} RowsConserve(cfg: Config, ops: seq<Op>, scope: Scope, aspect: Aspect)
    requires NeverResolvedTo(scope, ops)
    ensures RowsConserved(Run(cfg, ops), scope, aspect)
  {
    if ops != [] {
      var init, op := ops[..|ops| - 1], ops[|ops| - 1];
      RowsConserve(cfg, init, scope, aspect);
      RowsKept(cfg, Run(cfg, init), op, scope, aspect);
    }
  }

  lemma RowsKept(cfg: Config, w: World, op: Op, scope: Scope, aspect: Aspect)
    requires RowsConserved(w, scope, aspect) && (op.Flushed? ==> Unresolvable(scope, op.outcome))
    ensures RowsConserved(Apply(cfg, w, op), scope, aspect)
  {
    var after := Apply(cfg, w, op);
    match op
    case Observed(span, agentId, victims) =>
      var (paired, calls) := Paired(cfg, w.state, span, agentId);
      ObservedMoves(w, span, paired, calls, victims);
    case Flushed(now, clients, order, outcome) =>
      RowsStep(w, after, TakeBatch(cfg, w.state, now, clients, order).2, outcome, scope, aspect);
    case Drained(_, _) =>
  }

  /**
    Flushing conserves, whatever the resolver answers and however many targets it maps onto
    one row: stored rows, pending edges and increments lost to failed writes add up to
    everything ever counted, in all, per (minute, source, agent), and per (minute, source,
    target) for a known target that no answer of the resolver names.
   */
  lemma {:induction false} StoredRowsConserve(cfg: Config, ops: seq<Op>, scope: Scope, aspect: Aspect)
    requires NeverResolvedTo(scope, ops)
    ensures var w := Run(cfg, ops);
            aspect.Join(aspect.Join(EdgeSum(scope, aspect, w.rows), ItemSum(scope, aspect, w.lost)),
                        EdgeSum(scope, aspect, w.state.edges))
            == CallSum(scope, aspect, w.counted)
  {
    EdgesConserve(cfg, ops, scope, aspect);
    RowsConserve(cfg, ops, scope, aspect);
  }

  // ---------------------------------------------------------------- samples agree with edges

  lemma {:induction false} SamplesConserve(cfg: Config, ops: seq<Op>, scope: Scope, aspect: Aspect)
    requires ValidRun(cfg, ops) && !scope.ByAgent?
    ensures SamplesConserved(Run(cfg, ops), scope, aspect)
  {
    if ops != [] {
      var init, op := ops[..|ops| - 1], ops[|ops| - 1];
      SamplesConserve(cfg, init, scope, aspect);
      SamplesKept(cfg, Run(cfg, init), op, scope, aspect);
    }
  }

  lemma SamplesKept(cfg: Config, w: World, op: Op, scope: Scope, aspect: Aspect)
    requires SamplesConserved(w, scope, aspect) && ValidStep(cfg, w, op) && !scope.ByAgent?
    ensures SamplesConserved(Apply(cfg, w, op), scope, aspect)
  {
    var after := Apply(cfg, w, op);
    match op
    case Observed(span, agentId, victims) =>
      PairedAdds(cfg, w.state, span, agentId, scope, aspect);
      var (paired, calls) := Paired(cfg, w.state, span, agentId);
      ObservedMoves(w, span, paired, calls, victims);
      SamplesStep(w, after, calls, scope, aspect);
    case Flushed(now, clients, order, outcome) =>
      TakeBatchMoves(cfg, w.state, now, clients, order, scope, aspect);
      SamplesStep(w, after, TakeBatch(cfg, w.state, now, clients, order).1, scope, aspect);
    case Drained(now, out) =>
      R.DrainMoves(aspect, w.state.samples, now, out, GroupMeasure(scope, aspect), StatsMeasure(scope, aspect));
      SeqFoldConcat(aspect, w.drained, out, StatsMeasure(scope, aspect));
      JoinShuffle(aspect, SampleSum(scope, aspect, after.state.samples), StatsSum(scope, aspect, w.drained),
                  StatsSum(scope, aspect, out));
  }

  /**
    The samples behind the RED metrics and the edge rows never disagree: per (minute,
    source, unresolved target) the samples' count over statuses is the edges' calls over
    agents, the error group's count is the errors, and sum and maximum are the same.
   */
  lemma {:induction false} SamplesAgreeWithEdges(cfg: Config, ops: seq<Op>, scope: Scope, aspect: Aspect)
    requires ValidRun(cfg, ops) && !scope.ByAgent?
    ensures var w := Run(cfg, ops);
            aspect.Join(SampleSum(scope, aspect, w.state.samples), StatsSum(scope, aspect, w.drained))
            == aspect.Join(EdgeSum(scope, aspect, w.state.edges), ItemSum(scope, aspect, w.flushed))
  {
    SamplesConserve(cfg, ops, scope, aspect);
    EdgesConserve(cfg, ops, scope, aspect);
  }
}
