/**
  Pairing of client and server spans into topology edges
  (crates/dataplane-apm/src/edge.rs): the state machine as functions.
 */
module EdgePairing {
  import opened Wrappers
  import opened Spans
  import opened Samples
  import opened Totals

  const PENDING_TTL_MICROS: nat := 120_000_000

  // Which key guards against counting a client again when its servers arrived first: the
  // written code passes the client where the server is expected, so it uses the client's parent.
  datatype DedupKey = ByParent | ByOwnId

  datatype Config = Config(dedup: DedupKey, pendingCapacity: pos, groupCap: pos)

  datatype CallKey = CallKey(traceId: string, spanId: string)
  datatype EdgeKey = EdgeKey(bucketStart: int, src: string, dst: string, agentId: string)
  datatype Pending = Pending(service: string, timestamp: int, fallbackDst: string, duration: nat,
                             status: string, agentId: string)

  // One counted call: the client span it stands for and what it added.
  datatype Call = Call(client: CallKey, timestamp: int, edge: EdgeKey, status: string, duration: nat)
  // One write of a flush: the edge as accumulated (target not yet resolved) and its increment.
  datatype Item = Item(edge: EdgeKey, delta: Total)

  datatype State = State(waitingClient: map<CallKey, seq<Pending>>,
                         waitingServer: map<CallKey, Pending>,
                         recorded: map<CallKey, int>,
                         edges: map<EdgeKey, Total>,
                         samples: Table, droppedSamples: nat,
                         droppedPending: nat, pairedEdges: nat)

  const INITIAL := State(map[], map[], map[], map[], map[], 0, 0, 0)

  function BucketOf(timestamp: int): int {
    timestamp / MINUTE_MICROS * MINUTE_MICROS
  }

  function PendingOf(span: Span, agentId: string): Pending {
    Pending(span.service, span.timestamp, if span.peerHost == "" then "unknown" else "unknown:" + span.peerHost,
            span.duration, span.status, agentId)
  }

  function OwnKey(span: Span): CallKey { CallKey(span.traceId, span.spanId) }

  function ParentKey(span: Span): CallKey { CallKey(span.traceId, span.parentSpanId) }

  function CallOf(who: CallKey, client: Pending, dst: string, agentId: string): Call {
    Call(who, client.timestamp, EdgeKey(BucketOf(client.timestamp), client.service, dst, agentId),
         client.status, client.duration)
  }

  function TotalOf(call: Call): Total {
    Total(1, if call.status == "error" then 1 else 0, call.duration, call.duration)
  }

  function GroupOf(call: Call): GroupKey {
    GroupKey(call.edge.bucketStart, call.edge.src, call.edge.dst, "server", call.status)
  }

  function AddTo(m: map<EdgeKey, Total>, k: EdgeKey, delta: Total): map<EdgeKey, Total> {
    m[k := (if k in m then m[k] else ZERO).Plus(delta)]
  }

  function Sample(cfg: Config, s: State, call: Call): State {
    s.(samples := ObserveSample(cfg.groupCap, s.samples, GroupOf(call), call.duration),
       droppedSamples := s.droppedSamples + if Overflows(cfg.groupCap, s.samples, GroupOf(call)) then 1 else 0)
  }

  // Counts a call unless its dedup key was recorded already.
  function Record(cfg: Config, s: State, dedup: CallKey, call: Call): (State, seq<Call>) {
    if dedup in s.recorded then (s, [])
    else
      var counted := s.(recorded := s.recorded[dedup := call.timestamp],
                        edges := AddTo(s.edges, call.edge, TotalOf(call)),
                        pairedEdges := s.pairedEdges + 1);
      (Sample(cfg, counted, call), [call])
  }

  function DedupOf(cfg: Config, client: Span): CallKey {
    if cfg.dedup.ByParent? then ParentKey(client) else OwnKey(client)
  }

  // Server first: the client that just arrived is recorded against each waiting server.
  function RecordServers(cfg: Config, s: State, client: Span, agentId: string, servers: seq<Pending>)
    : (State, seq<Call>)
  {
    if servers == [] then (s, [])
    else
      var (before, calls) := RecordServers(cfg, s, client, agentId, servers[..|servers| - 1]);
      var call := CallOf(OwnKey(client), PendingOf(client, agentId), servers[|servers| - 1].service, agentId);
      var (after, more) := Record(cfg, before, DedupOf(cfg, client), call);
      (after, calls + more)
  }

  function ObserveClient(cfg: Config, s: State, span: Span, agentId: string): (State, seq<Call>) {
    var own := OwnKey(span);
    var (paired, calls) :=
      if own in s.waitingClient
      then RecordServers(cfg, s.(waitingClient := s.waitingClient - {own}), span, agentId, s.waitingClient[own])
      else (s, []);
    (paired.(waitingServer := paired.waitingServer[own := PendingOf(span, agentId)]), calls)
  }

  function ObserveServer(cfg: Config, s: State, span: Span, agentId: string): (State, seq<Call>) {
    var key := ParentKey(span);
    if key in s.waitingServer then
      Record(cfg, s.(waitingServer := s.waitingServer - {key}), key,
             CallOf(key, s.waitingServer[key], span.service, agentId))
    else
      var waiting := if key in s.waitingClient then s.waitingClient[key] else [];
      (s.(waitingClient := s.waitingClient[key := waiting + [PendingOf(span, agentId)]]), [])
  }

  // ---------------------------------------------------------------- eviction

  predicate Fresh(timestamp: int, now: int) {
    timestamp >= now - PENDING_TTL_MICROS
  }

  function FreshOnly(spans: seq<Pending>, now: int): seq<Pending> {
    if spans == [] then []
    else
      var last := spans[|spans| - 1];
      FreshOnly(spans[..|spans| - 1], now) + if Fresh(last.timestamp, now) then [last] else []
  }

  function Expire(s: State, now: int): State {
    s.(waitingClient := map k | k in s.waitingClient && FreshOnly(s.waitingClient[k], now) != [] ::
       FreshOnly(s.waitingClient[k], now),
       waitingServer := map k | k in s.waitingServer && Fresh(s.waitingServer[k].timestamp, now) :: s.waitingServer[k],
       recorded := map k | k in s.recorded && Fresh(s.recorded[k], now) :: s.recorded[k])
  }

  // The counter takes expired dedup records for dropped spans too.
  function Evict(s: State, now: int, victims: set<CallKey>): State {
    Settle(s, Expire(s, now), victims)
  }

  function Settle(s: State, expired: State, victims: set<CallKey>): State {
    expired.(waitingServer := expired.waitingServer - victims,
             droppedPending := s.droppedPending + |s.waitingServer.Keys - expired.waitingServer.Keys|
                             + |s.recorded.Keys - expired.recorded.Keys| + |victims|)
  }

  function ListLength(): (CallKey, seq<Pending>) -> nat {
    (k: CallKey, v: seq<Pending>) => |v|
  }

  ghost function PendingCount(s: State): nat {
    |s.waitingServer| + MapFold(Calls, s.waitingClient, ListLength())
  }

  // Over capacity, the oldest clients go: only clients, however many servers wait.
  ghost predicate OldestVictims(cfg: Config, expired: State, victims: set<CallKey>) {
    && victims <= expired.waitingServer.Keys
    && |victims| == (var overflow := PendingCount(expired) - cfg.pendingCapacity;
                     if overflow <= 0 then 0
                     else if overflow <= |expired.waitingServer| then overflow else |expired.waitingServer|)
    && forall v, k | v in victims && k in expired.waitingServer && k !in victims ::
         expired.waitingServer[v].timestamp <= expired.waitingServer[k].timestamp
  }

  // Spans that are neither a client nor a server with a parent are ignored.
  predicate Relevant(span: Span) {
    span.kind.Client? || (span.kind.Server? && span.parentSpanId != "")
  }

  function Paired(cfg: Config, s: State, span: Span, agentId: string): (State, seq<Call>) {
    if !Relevant(span) then (s, [])
    else if span.kind.Client? then ObserveClient(cfg, s, span, agentId)
    else ObserveServer(cfg, s, span, agentId)
  }

  function Observe(cfg: Config, s: State, span: Span, agentId: string, victims: set<CallKey>): (State, seq<Call>) {
    var (paired, calls) := Paired(cfg, s, span, agentId);
    (if Relevant(span) then Evict(paired, span.timestamp, victims) else paired, calls)
  }

  // ---------------------------------------------------------------- flushing

  // A client still waiting a minute after its call becomes a fallback edge, unless counted already.
  function FlushClient(cfg: Config, s: State, now: int, key: CallKey): (State, seq<Call>) {
    if key !in s.waitingServer || !Closed(s.waitingServer[key].timestamp, now) then (s, [])
    else
      var client := s.waitingServer[key];
      var taken := s.(waitingServer := s.waitingServer - {key});
      if key in taken.recorded then (taken, [])
      else
        var call := CallOf(key, client, client.fallbackDst, client.agentId);
        (Sample(cfg, taken.(recorded := taken.recorded[key := client.timestamp]), call), [call])
  }

  function FlushClients(cfg: Config, s: State, now: int, order: seq<CallKey>): (State, seq<Call>) {
    if order == [] then (s, [])
    else
      var (before, calls) := FlushClients(cfg, s, now, order[..|order| - 1]);
      var (after, more) := FlushClient(cfg, before, now, order[|order| - 1]);
      (after, calls + more)
  }

  function ItemsOf(calls: seq<Call>): (r: seq<Item>)
    ensures |r| == |calls|
  {
    if calls == [] then []
    else ItemsOf(calls[..|calls| - 1]) + [Item(calls[|calls| - 1].edge, TotalOf(calls[|calls| - 1]))]
  }

  function FlushEdges(s: State, order: seq<EdgeKey>): (State, seq<Item>) {
    if order == [] then (s, [])
    else
      var (before, items) := FlushEdges(s, order[..|order| - 1]);
      var key := order[|order| - 1];
      if key in before.edges
      then (before.(edges := before.edges - {key}), items + [Item(key, before.edges[key])])
      else (before, items)
  }

  // What the locked part of a flush takes: the new state, the fallback calls and the batch to write.
  function TakeBatch(cfg: Config, s: State, now: int, clients: seq<CallKey>, edges: seq<EdgeKey>)
    : (State, seq<Call>, seq<Item>)
  {
    var (closed, calls) := FlushClients(cfg, s, now, clients);
    var (emptied, items) := FlushEdges(closed, edges);
    (emptied, calls, ItemsOf(calls) + items)
  }

  // What happens to one item of a batch: the resolver's answer and whether the write succeeded.
  datatype Outcome = Outcome(service: Option<string>, stored: bool)

  predicate IsUnknown(dst: string) {
    "unknown" <= dst
  }

  function Resolved(edge: EdgeKey, outcome: Outcome): EdgeKey {
    if IsUnknown(edge.dst) && outcome.service.Some? then edge.(dst := outcome.service.value) else edge
  }

  // Read back, add, replace: several targets may resolve to the same row.
  function WriteBatch(rows: map<EdgeKey, Total>, batch: seq<Item>, outcome: nat -> Outcome)
    : (map<EdgeKey, Total>, seq<Item>)
  {
    if batch == [] then (rows, [])
    else
      var i := |batch| - 1;
      var (before, lost) := WriteBatch(rows, batch[..i], outcome);
      if outcome(i).stored
      then (AddTo(before, Resolved(batch[i].edge, outcome(i)), batch[i].delta), lost)
      else (before, lost + [batch[i]])
  }
}
