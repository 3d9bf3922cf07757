/**
  The alias cache (crates/dataplane-apm/src/alias.rs, crates/dataplane-apm/src/sink.rs):
  concurrent resolves and writers as interleaved atomic steps, and the match by priority.
 */
module AliasCache {
  import opened Wrappers
  import opened Arithmetic
  import opened EbpfAbi

  // ---------------------------------------------------------------- records and matching

  datatype MatchKind = ProcessName | ProcessPrefix | PodPrefix | Cidr {
    function Priority(): nat {
      match this
      case ProcessName => 0
      case ProcessPrefix => 1
      case PodPrefix => 2
      case Cidr => 3
    }
  }

  datatype Ip = V4(bits: nat) | V6(bits: nat)
  // What a record matches: a text, or for Cidr an address block already parsed.
  datatype MatchValue = Text(text: string) | Block(net: Ip, len: nat)
  // The primary key derives from kind and value, so one condition has one row.
  datatype AliasId = AliasId(kind: MatchKind, value: MatchValue)
  datatype AliasRecord = AliasRecord(id: AliasId, service: string, enabled: bool, updatedTs: int)
  // An empty or unparsable host address is None.
  datatype Query = Query(hostIp: Option<Ip>, podName: string, processName: string)

  predicate BlockContains(net: Ip, len: nat, ip: Ip) {
    match (net, ip)
    case (V4(a), V4(b)) => len <= 32 && a / Pow2(32 - len) == b / Pow2(32 - len)
    case (V6(a), V6(b)) => len <= 128 && a / Pow2(128 - len) == b / Pow2(128 - len)
    case _ => false
  }

  predicate MatchesKind(r: AliasRecord, kind: MatchKind, q: Query) {
    match kind
    case ProcessName => q.processName != "" && r.id.value == Text(q.processName)
    case ProcessPrefix => q.processName != "" && r.id.value.Text? && r.id.value.text <= q.processName
    case PodPrefix => q.podName != "" && r.id.value.Text? && r.id.value.text <= q.podName
    case Cidr => q.hostIp.Some? && r.id.value.Block? && BlockContains(r.id.value.net, r.id.value.len, q.hostIp.value)
  }

  predicate Matches(r: AliasRecord, q: Query) {
    r.enabled && MatchesKind(r, r.id.kind, q)
  }

  // Earlier kinds win; within a kind the newest, the first listed on ties.
  predicate Beats(records: seq<AliasRecord>, i: nat, j: nat)
    requires i < |records| && j < |records|
  {
    var a, b := records[i], records[j];
    || a.id.kind.Priority() < b.id.kind.Priority()
    || (a.id.kind == b.id.kind && a.updatedTs > b.updatedTs)
    || (a.id.kind == b.id.kind && a.updatedTs == b.updatedTs && i <= j)
  }

  ghost predicate IsWinner(records: seq<AliasRecord>, q: Query, i: nat) {
    && i < |records| && Matches(records[i], q)
    && forall j: nat | j < |records| && Matches(records[j], q) :: Beats(records, i, j)
  }

  /** At most one record wins, and one does whenever any matches. */
  lemma WinnerIsUnique(records: seq<AliasRecord>, q: Query, i: nat, j: nat)
    requires IsWinner(records, q, i) && IsWinner(records, q, j)
    ensures i == j
  {
  }

  method BestOfKind(records: seq<AliasRecord>, kind: MatchKind, q: Query) returns (best: Option<nat>)
    ensures best.None? ==> forall j | 0 <= j < |records| && records[j].id.kind == kind :: !Matches(records[j], q)
    ensures best.Some? ==>
              && best.value < |records| && records[best.value].id.kind == kind && Matches(records[best.value], q)
              && forall j: nat | j < |records| && records[j].id.kind == kind && Matches(records[j], q) ::
                 Beats(records, best.value, j)
  {
    best := None;
    for i := 0 to |records|
      invariant best.None? ==> forall j | 0 <= j < i && records[j].id.kind == kind :: !Matches(records[j], q)
      invariant best.Some? ==>
                  && best.value < i && records[best.value].id.kind == kind && Matches(records[best.value], q)
                  && forall j: nat | j < i && records[j].id.kind == kind && Matches(records[j], q) ::
                     Beats(records, best.value, j)
    {
      var r := records[i];
      if r.enabled && r.id.kind == kind && MatchesKind(r, kind, q) {
        if best.None? || r.updatedTs > records[best.value].updatedTs { best := Some(i); }
      }
    }
  }

  // ---------------------------------------------------------------- what an answer means

  // An enabled record that names the process, begins its name, begins the pod's, or holds the host's address.
  predicate NamesProcess(r: AliasRecord, q: Query) {
    r.enabled && r.id.kind == ProcessName && q.processName != "" && r.id.value == Text(q.processName)
  }

  predicate BeginsProcess(r: AliasRecord, q: Query) {
    && r.enabled && r.id.kind == ProcessPrefix && q.processName != ""
    && r.id.value.Text? && |r.id.value.text| <= |q.processName|
    && q.processName[..|r.id.value.text|] == r.id.value.text
  }

  predicate BeginsPod(r: AliasRecord, q: Query) {
    && r.enabled && r.id.kind == PodPrefix && q.podName != ""
    && r.id.value.Text? && |r.id.value.text| <= |q.podName| && q.podName[..|r.id.value.text|] == r.id.value.text
  }

  // Both addresses lie in one aligned block of the size the mask leaves.
  ghost predicate InBlock(a: nat, b: nat, size: nat) {
    exists first: nat :: first <= a < first + size && first <= b < first + size && size > 0 && first % size == 0
  }

  ghost predicate HoldsHost(r: AliasRecord, q: Query) {
    && r.enabled && r.id.kind == Cidr && q.hostIp.Some? && r.id.value.Block?
    && (var net, len, host := r.id.value.net, r.id.value.len, q.hostIp.value;
        || (net.V4? && host.V4? && len <= 32 && InBlock(net.bits, host.bits, Pow2(32 - len)))
        || (net.V6? && host.V6? && len <= 128 && InBlock(net.bits, host.bits, Pow2(128 - len))))
  }

  lemma SameQuotient(a: nat, b: nat, size: nat)
    requires size > 0
    ensures a / size == b / size <==> InBlock(a, b, size)
  {
    if a / size == b / size {
      BlockStart(a, size);
      BlockStart(b, size);
    }
    if InBlock(a, b, size) {
      var first: nat :| first <= a < first + size && first <= b < first + size && first % size == 0;
      InsideBlock(first, a, size);
      InsideBlock(first, b, size);
    }
  }

  lemma BlockStart(a: nat, size: nat)
    requires size > 0
    ensures var first := a / size * size; first <= a < first + size && first % size == 0
  {
    assert a == a / size * size + a % size;
    QuotientOf(a / size * size, size, a / size, 0);
  }

  lemma InsideBlock(first: nat, a: nat, size: nat)
    requires size > 0 && first <= a < first + size && first % size == 0
    ensures a / size == first / size
  {
    QuotientOf(a, size, first / size, a - first);
  }

  lemma HitsInFields(r: AliasRecord, q: Query)
    ensures Matches(r, q) && r.id.kind == ProcessName <==> NamesProcess(r, q)
    ensures Matches(r, q) && r.id.kind == ProcessPrefix <==> BeginsProcess(r, q)
    ensures Matches(r, q) && r.id.kind == PodPrefix <==> BeginsPod(r, q)
    ensures Matches(r, q) && r.id.kind == Cidr <==> HoldsHost(r, q)
  {
    hide Pow2, InBlock;
    if r.id.kind == Cidr && q.hostIp.Some? && r.id.value.Block? {
      var net, len, host := r.id.value.net, r.id.value.len, q.hostIp.value;
      if net.V4? && host.V4? && len <= 32 { SameQuotient(net.bits, host.bits, Pow2(32 - len)); }
      if net.V6? && host.V6? && len <= 128 { SameQuotient(net.bits, host.bits, Pow2(128 - len)); }
    }
  }

  // The newest of the records that qualify, the first listed on ties.
  ghost predicate NewestOf(records: seq<AliasRecord>, hit: AliasRecord -> bool, i: nat) {
    && i < |records| && hit(records[i])
    && forall j | 0 <= j < |records| && hit(records[j]) ::
         records[j].updatedTs < records[i].updatedTs || (records[j].updatedTs == records[i].updatedTs && i <= j)
  }

  ghost predicate AnsweredBy(records: seq<AliasRecord>, hit: AliasRecord -> bool, service: Option<string>) {
    exists i: nat :: NewestOf(records, hit, i) && service == Some(records[i].service)
  }

  ghost predicate AnyHit(records: seq<AliasRecord>, hit: AliasRecord -> bool) {
    exists r | r in records :: hit(r)
  }

  // A record that names the process answers before one that begins it, that before a pod's, that before a block.
  ghost predicate AnswersInOrder(records: seq<AliasRecord>, q: Query, service: Option<string>) {
    var name, process := (r: AliasRecord) => NamesProcess(r, q), (r: AliasRecord) => BeginsProcess(r, q);
    var pod, host := (r: AliasRecord) => BeginsPod(r, q), (r: AliasRecord) => HoldsHost(r, q);
    if AnyHit(records, name) then AnsweredBy(records, name, service)
    else if AnyHit(records, process) then AnsweredBy(records, process, service)
    else if AnyHit(records, pod) then AnsweredBy(records, pod, service)
    else if AnyHit(records, host) then AnsweredBy(records, host, service)
    else service == None
  }

  /** The winner is the answer the order of the kinds asks for, in terms of the records' and the query's fields. */
  lemma WinnerAnswersInOrder(records: seq<AliasRecord>, q: Query, service: Option<string>)
    requires service.None? ==> forall j | 0 <= j < |records| :: !Matches(records[j], q)
    requires service.Some? ==> exists i: nat :: IsWinner(records, q, i) && service.value == records[i].service
    ensures AnswersInOrder(records, q, service)
  {
    hide Matches, NamesProcess, BeginsProcess, BeginsPod, HoldsHost;
    forall r | r in records
      ensures Matches(r, q) && r.id.kind == ProcessName <==> NamesProcess(r, q)
      ensures Matches(r, q) && r.id.kind == ProcessPrefix <==> BeginsProcess(r, q)
      ensures Matches(r, q) && r.id.kind == PodPrefix <==> BeginsPod(r, q)
      ensures Matches(r, q) && r.id.kind == Cidr <==> HoldsHost(r, q)
    {
      HitsInFields(r, q);
    }
    if service.Some? {
      var i: nat :| IsWinner(records, q, i) && service.value == records[i].service;
      assert records[i] in records;
    }
  }

  /** The service of the winning record, if any record matches. */
  method BestMatch(records: seq<AliasRecord>, q: Query) returns (service: Option<string>)
    ensures service.None? <==> forall j | 0 <= j < |records| :: !Matches(records[j], q)
    ensures service.Some? ==> exists i: nat :: IsWinner(records, q, i) && service.value == records[i].service
    ensures AnswersInOrder(records, q, service)
  {
    hide AnswersInOrder;
    var kinds := [ProcessName, ProcessPrefix, PodPrefix, Cidr];
    service := None;
    for k := 0 to 4
      invariant service.None?
      invariant forall j | 0 <= j < |records| && records[j].id.kind.Priority() < k :: !Matches(records[j], q)
    {
      assert kinds[k].Priority() == k && forall kind: MatchKind :: kind.Priority() == k ==> kind == kinds[k];
      var best := BestOfKind(records, kinds[k], q);
      if best.Some? {
        assert IsWinner(records, q, best.value);
        service := Some(records[best.value].service);
        WinnerAnswersInOrder(records, q, service);
        return;
      }
    }
    assert forall kind: MatchKind :: kind.Priority() < 4;
    WinnerAnswersInOrder(records, q, service);
  }

  // ---------------------------------------------------------------- the table as a log of changes

  datatype Change =
    | Upsert(record: AliasRecord)
    | SetEnabled(target: AliasId, enabled: bool, ts: int)
    | Delete(target: AliasId)
  {
    function Id(): AliasId { if Upsert? then record.id else target }
  }

  type Table = map<AliasId, AliasRecord>

  function Changed(table: Table, change: Change): Table {
    match change
    case Upsert(record) => table[record.id := record]
    case SetEnabled(id, enabled, ts) =>
      if id in table then table[id := table[id].(enabled := enabled, updatedTs := ts)] else table
    case Delete(id) => table - {id}
  }

  function TableAfter(changes: seq<Change>): Table {
    if changes == [] then map[] else Changed(TableAfter(changes[..|changes| - 1]), changes[|changes| - 1])
  }

  // How many changes an id's row depends on: one more than the index of the last that touched it.
  function LastTouch(changes: seq<Change>, id: AliasId): nat {
    if changes == [] then 0
    else if changes[|changes| - 1].Id() == id then |changes|
    else LastTouch(changes[..|changes| - 1], id)
  }

  /** A row is what the changes up to its last touch made of it: later changes to other rows leave it alone. */
  lemma {:induction false} RowDependsOnLastTouch(changes: seq<Change>, id: AliasId)
    ensures LastTouch(changes, id) <= |changes|
    ensures id in TableAfter(changes) <==> id in TableAfter(changes[..LastTouch(changes, id)])
    ensures id in TableAfter(changes) ==> TableAfter(changes)[id] == TableAfter(changes[..LastTouch(changes, id)])[id]
  {
    if changes != [] {
      var init := changes[..|changes| - 1];
      RowDependsOnLastTouch(init, id);
      if changes[|changes| - 1].Id() == id {
        assert changes[..|changes|] == changes;
      } else {
        assert init[..LastTouch(init, id)] == changes[..LastTouch(init, id)];
      }
    }
  }

  // The last change that writes or removes the row of this id, and the last that toggles it since.
  ghost predicate WrittenLast(changes: seq<Change>, id: AliasId, i: nat) {
    && i < |changes| && !changes[i].SetEnabled? && changes[i].Id() == id
    && forall j | i < j < |changes| :: changes[j].SetEnabled? || changes[j].Id() != id
  }

  ghost predicate ToggledLast(changes: seq<Change>, id: AliasId, i: nat, j: nat) {
    && i < j < |changes| && changes[j].SetEnabled? && changes[j].Id() == id
    && forall k | j < k < |changes| :: changes[k].Id() != id
  }

  // The record as upserted, with the switch and the time of the last toggle after it.
  ghost predicate IsRowOf(changes: seq<Change>, id: AliasId, i: nat, row: AliasRecord)
    requires i < |changes| && changes[i].Upsert?
  {
    var record := changes[i].record;
    && row.id == record.id && row.service == record.service
    && (forall j: nat | ToggledLast(changes, id, i, j) ::
        row.enabled == changes[j].enabled && row.updatedTs == changes[j].ts)
    && ((forall j | i < j < |changes| :: changes[j].Id() != id) ==>
          row.enabled == record.enabled && row.updatedTs == record.updatedTs)
  }

  /**
    What the table holds for an id: no row unless the last change that wrote it was an upsert, and then
    that record with the switch and the time of the last toggle since.
   */
  lemma {:induction false} RowIsLastWrite(changes: seq<Change>, id: AliasId)
    ensures (exists i: nat :: WrittenLast(changes, id, i)) || id !in TableAfter(changes)
    ensures forall i: nat | WrittenLast(changes, id, i) ::
              && (id in TableAfter(changes) <==> changes[i].Upsert?)
              && (changes[i].Upsert? ==> IsRowOf(changes, id, i, TableAfter(changes)[id]))
  {
    if changes != [] {
      var init, n := changes[..|changes| - 1], |changes| - 1;
      RowIsLastWrite(init, id);
      assert forall k | 0 <= k < n :: init[k] == changes[k];
      if changes[n].Id() == id && !changes[n].SetEnabled? {
        assert WrittenLast(changes, id, n);
        assert forall i: nat | WrittenLast(changes, id, i) :: i == n;
      } else {
        forall i: nat ensures WrittenLast(changes, id, i) <==> WrittenLast(init, id, i) {
          SameLastWrite(changes, id, i);
        }
        forall i: nat | WrittenLast(changes, id, i) && changes[i].Upsert?
          ensures IsRowOf(changes, id, i, TableAfter(changes)[id])
        {
          LaterChange(changes, id, i, TableAfter(init)[id]);
        }
      }
    }
  }

  lemma {:induction false} SameLastWrite(changes: seq<Change>, id: AliasId, i: nat)
    requires changes != [] && (changes[|changes| - 1].Id() != id || changes[|changes| - 1].SetEnabled?)
    ensures WrittenLast(changes, id, i) <==> WrittenLast(changes[..|changes| - 1], id, i)
  {
    assert forall k | 0 <= k < |changes| - 1 :: changes[..|changes| - 1][k] == changes[k];
  }

  // A later change of another row leaves this one; a toggle of it sets its switch and time.
  lemma {:induction false} LaterChange(changes: seq<Change>, id: AliasId, i: nat, row: AliasRecord)
    requires i < |changes| - 1 && changes[i].Upsert? && changes[i].Id() == id
    requires IsRowOf(changes[..|changes| - 1], id, i, row)
    requires changes[|changes| - 1].Id() != id || changes[|changes| - 1].SetEnabled?
    ensures var last := changes[|changes| - 1];
            IsRowOf(changes, id, i,
                    if last.Id() == id then row.(enabled := last.enabled, updatedTs := last.ts) else row)
  {
    var init, last := changes[..|changes| - 1], changes[|changes| - 1];
    assert forall k | 0 <= k < |init| :: init[k] == changes[k];
    if last.Id() != id {
      forall j: nat | ToggledLast(changes, id, i, j) ensures ToggledLast(init, id, i, j) {
      }
    }
  }

  lemma {:induction false} TouchedSince(changes: seq<Change>, i: nat, n: nat)
    requires i < n <= |changes|
    ensures LastTouch(changes[..n], changes[i].Id()) > i
    decreases n
  {
    var some := changes[..n];
    assert some[..n - 1] == changes[..n - 1];
    if i < n - 1 { TouchedSince(changes, i, n - 1); }
  }

  // ---------------------------------------------------------------- the protocol

  // What the cache holds: the version it was loaded for, and how many changes its records reflect.
  datatype Loaded = Loaded(version: nat, asOf: nat)

  // A resolve in progress. `needs`: the changes acknowledged to their upserters when it began.
  datatype Reader =
    | Began(needs: nat)
    | HasVersion(needs: nat, version: nat)
    | Missed(needs: nat, version: nat)
    | HasTable(needs: nat, version: nat, asOf: nat)
    | Done(needs: nat, asOf: nat)

  // A write that is stored but not yet acknowledged: the index of its change.
  datatype Writer = Wrote(index: nat)

  // `bases[v]` is the number of changes stored when the version became v; `acknowledged`
  // bounds the changes whose upsert has returned.
  datatype State = State(changes: seq<Change>, version: nat, bases: seq<nat>, loaded: Option<Loaded>,
                         readers: map<nat, Reader>, writers: map<nat, Writer>, acknowledged: nat)

  const INITIAL := State([], 0, [0], None, map[], map[], 0)

  datatype Step =
    | Store(writer: nat, change: Change)
    | Bump(writer: nat)
    // The row count of a delete or toggle read as zero: it returns without invalidating.
    | ReturnMissed(writer: nat)
    | Begin(reader: nat)
    | LoadVersion(reader: nat)
    | CheckCache(reader: nat, expired: bool)
    | ReadTable(reader: nat)
    | StoreCache(reader: nat)

  function Apply(s: State, step: Step): State {
    match step
    case Store(w, change) =>
      if w in s.writers then s else s.(changes := s.changes + [change], writers := s.writers[w := Wrote(|s.changes|)])
    case Bump(w) =>
      if w !in s.writers then s
      else
        var index := s.writers[w].index;
        s.(version := s.version + 1, bases := s.bases + [|s.changes|], writers := s.writers - {w},
           acknowledged := if index < s.acknowledged then s.acknowledged else index + 1)
    case ReturnMissed(w) =>
      if w in s.writers && s.writers[w].index < |s.changes| && !s.changes[s.writers[w].index].Upsert?
      then s.(writers := s.writers - {w}) else s
    case Begin(r) => s.(readers := s.readers[r := Began(s.acknowledged)])
    case LoadVersion(r) =>
      if r in s.readers && s.readers[r].Began?
      then s.(readers := s.readers[r := HasVersion(s.readers[r].needs, s.version)]) else s
    case CheckCache(r, expired) =>
      if !(r in s.readers && s.readers[r].HasVersion?) then s
      else
        var reader := s.readers[r];
        if s.loaded.Some? && s.loaded.value.version == reader.version && !expired
        then s.(readers := s.readers[r := Done(reader.needs, s.loaded.value.asOf)])
        else s.(readers := s.readers[r := Missed(reader.needs, reader.version)])
    case ReadTable(r) =>
      if r in s.readers && s.readers[r].Missed?
      then s.(readers := s.readers[r := HasTable(s.readers[r].needs, s.readers[r].version, |s.changes|)]) else s
    case StoreCache(r) =>
      if r in s.readers && s.readers[r].HasTable?
      then s.(loaded := Some(Loaded(s.readers[r].version, s.readers[r].asOf)),
              readers := s.readers[r := Done(s.readers[r].needs, s.readers[r].asOf)])
      else s
  }

  function Run(steps: seq<Step>): State {
    if steps == [] then INITIAL else Apply(Run(steps[..|steps| - 1]), steps[|steps| - 1])
  }

  ghost predicate Monotone(bases: seq<nat>) {
    forall i, j | 0 <= i <= j < |bases| :: bases[i] <= bases[j]
  }

  ghost predicate ReaderOk(s: State, r: Reader) {
    match r
    case Began(needs) => needs <= s.acknowledged
    case HasVersion(needs, v) => v <= s.version && v < |s.bases| && needs <= s.bases[v]
    case Missed(needs, v) => v <= s.version && v < |s.bases| && needs <= s.bases[v]
    case HasTable(needs, v, asOf) => v <= s.version && v < |s.bases| && needs <= s.bases[v] <= asOf <= |s.changes|
    case Done(needs, asOf) => needs <= asOf <= |s.changes|
  }

  // Everything loaded under a version was read after the version was reached.
  ghost predicate Inv(s: State) {
    && |s.bases| == s.version + 1 && Monotone(s.bases) && s.bases[s.version] <= |s.changes|
    && s.acknowledged <= s.bases[s.version]
    && (s.loaded.Some? ==>
          s.loaded.value.version <= s.version && s.bases[s.loaded.value.version] <= s.loaded.value.asOf <= |s.changes|)
    && (forall w | w in s.writers :: s.writers[w].index < |s.changes|)
    && (forall r | r in s.readers :: ReaderOk(s, s.readers[r]))
  }

  lemma {:induction false} RunInv(steps: seq<Step>)
    ensures Inv(Run(steps))
  {
    if steps != [] {
      RunInv(steps[..|steps| - 1]);
      StepInv(Run(steps[..|steps| - 1]), steps[|steps| - 1]);
    }
  }

  lemma StepInv(s: State, step: Step)
    requires Inv(s)
    ensures Inv(Apply(s, step))
  {
    if step.Bump? { BumpInv(s, step.writer); }
  }

  lemma BumpInv(s: State, w: nat)
    requires Inv(s)
    ensures Inv(Apply(s, Bump(w)))
  {
  }

  ghost function NeedsOf(r: Reader): nat { r.needs }

  // A resolve keeps what it began with until the same reader begins another.
  lemma {:induction false} NeedsStay(steps: seq<Step>, j: nat, r: nat)
    requires j < |steps| && steps[j] == Begin(r)
    requires forall k | j < k < |steps| :: steps[k] != Begin(r)
    ensures r in Run(steps).readers && NeedsOf(Run(steps).readers[r]) == Run(steps[..j]).acknowledged
    decreases |steps|
  {
    var init := steps[..|steps| - 1];
    if j == |steps| - 1 {
    } else {
      assert init[..j] == steps[..j];
      NeedsStay(init, j, r);
    }
  }

  lemma {:induction false} AcknowledgedGrows(steps: seq<Step>, i: nat)
    requires i <= |steps|
    ensures Run(steps[..i]).acknowledged <= Run(steps).acknowledged
    ensures Run(steps[..i]).changes <= Run(steps).changes
    decreases |steps|
  {
    if i == |steps| {
      assert steps[..i] == steps;
    } else {
      hide Apply;
      var init := steps[..|steps| - 1];
      assert init[..i] == steps[..i];
      AcknowledgedGrows(init, i);
      StepGrows(Run(init), steps[|steps| - 1]);
    }
  }

  lemma StepGrows(s: State, step: Step)
    ensures s.acknowledged <= Apply(s, step).acknowledged && s.changes <= Apply(s, step).changes
  {
  }

  /**
    Freshness under any interleaving of readers and writers, with expiring caches and deletes
    that miss their invalidation: a resolve that began after an upsert had returned uses a
    table that contains the upsert, and the row of the upsert's condition in it comes from
    that upsert or a later change.
   */
  lemma {:induction false} ResolvesAreFresh(steps: seq<Step>, i: nat, j: nat, w: nat, r: nat)
    requires i < j < |steps| && steps[i] == Bump(w) && w in Run(steps[..i]).writers
    requires steps[j] == Begin(r) && forall k | j < k < |steps| :: steps[k] != Begin(r)
    requires r in Run(steps).readers && Run(steps).readers[r].Done?
    ensures var s, index := Run(steps), Run(steps[..i]).writers[w].index;
            && index < s.readers[r].asOf <= |s.changes|
            && LastTouch(s.changes[..s.readers[r].asOf], s.changes[index].Id()) > index
  {
    hide Apply;
    RunInv(steps);
    RunInv(steps[..i]);
    NeedsStay(steps, j, r);
    assert steps[..i + 1][..i] == steps[..i] && steps[..j][..i + 1] == steps[..i + 1];
    BumpAcknowledges(Run(steps[..i]), w);
    AcknowledgedGrows(steps[..j], i + 1);
    AcknowledgedGrows(steps, i);
    var s, index := Run(steps), Run(steps[..i]).writers[w].index;
    assert ReaderOk(s, s.readers[r]);
    TouchedSince(s.changes, index, s.readers[r].asOf);
  }

  lemma BumpAcknowledges(s: State, w: nat)
    requires w in s.writers
    ensures Apply(s, Bump(w)).acknowledged > s.writers[w].index
  {
  }

  lemma {:induction false} RunSnoc(steps: seq<Step>, step: Step)
    ensures Run(steps + [step]) == Apply(Run(steps), step)
  {
  }

  // One resolve on its own: begin, load the version, check the cache; on a miss read and store.
  function Lookup(r: nat, expired: bool): seq<Step> { [Begin(r)] + [LoadVersion(r)] + [CheckCache(r, expired)] }

  function Resolving(r: nat, expired: bool): seq<Step> { Lookup(r, expired) + [ReadTable(r)] + [StoreCache(r)] }

  predicate Answers(s: State, expired: bool) {
    s.loaded.Some? && s.loaded.value.version == s.version && !expired
  }

  function AfterLookup(s: State, r: nat, expired: bool): State {
    s.(readers := s.readers[r := if Answers(s, expired) then Done(s.acknowledged, s.loaded.value.asOf)
                                 else Missed(s.acknowledged, s.version)])
  }

  // A resolve that is not interrupted uses the cache if it answers, and else the table as it is.
  function AfterResolving(s: State, r: nat, expired: bool): State {
    if Answers(s, expired) then s.(readers := s.readers[r := Done(s.acknowledged, s.loaded.value.asOf)])
    else s.(readers := s.readers[r := Done(s.acknowledged, |s.changes|)],
            loaded := Some(Loaded(s.version, |s.changes|)))
  }

  lemma LookupApplies(s: State, r: nat, expired: bool)
    ensures Apply(Apply(Apply(s, Begin(r)), LoadVersion(r)), CheckCache(r, expired)) == AfterLookup(s, r, expired)
  {
  }

  lemma {:induction false} LookupRuns(steps: seq<Step>, r: nat, expired: bool)
    ensures Run(steps + Lookup(r, expired)) == AfterLookup(Run(steps), r, expired)
  {
    hide Apply, AfterLookup;
    LookupApplies(Run(steps), r, expired);
    RunSnoc(steps, Begin(r));
    RunSnoc(steps + [Begin(r)], LoadVersion(r));
    RunSnoc(steps + [Begin(r)] + [LoadVersion(r)], CheckCache(r, expired));
    assert steps + Lookup(r, expired) == steps + [Begin(r)] + [LoadVersion(r)] + [CheckCache(r, expired)];
  }

  lemma ReadAndStoreApply(s: State, r: nat, expired: bool)
    ensures Apply(Apply(AfterLookup(s, r, expired), ReadTable(r)), StoreCache(r)) == AfterResolving(s, r, expired)
  {
  }

  lemma {:induction false} ResolvingRuns(steps: seq<Step>, r: nat, expired: bool)
    ensures Run(steps + Resolving(r, expired)) == AfterResolving(Run(steps), r, expired)
  {
    hide Apply, AfterLookup, AfterResolving;
    LookupRuns(steps, r, expired);
    RunSnoc(steps + Lookup(r, expired), ReadTable(r));
    RunSnoc(steps + Lookup(r, expired) + [ReadTable(r)], StoreCache(r));
    assert steps + Resolving(r, expired) == steps + Lookup(r, expired) + [ReadTable(r)] + [StoreCache(r)];
    ReadAndStoreApply(Run(steps), r, expired);
  }

  // ---------------------------------------------------------------- writes that miss their invalidation

  /**
    A delete or toggle whose row count read zero returns without invalidating. The next resolve
    misses the change exactly when the cache still answers with records from before it.
   */
  lemma {:induction false} MissedWriteServedIff(steps: seq<Step>, w: nat, q: nat, expired: bool)
    requires w in Run(steps).writers
    requires var s := Run(steps); s.writers[w].index < |s.changes| && !s.changes[s.writers[w].index].Upsert?
    ensures var s, index := Run(steps), Run(steps).writers[w].index;
            var after := Run(steps + [ReturnMissed(w)] + Resolving(q, expired));
            && after.changes == s.changes && after.version == s.version && w !in after.writers
            && q in after.readers && after.readers[q].Done? && after.readers[q].asOf <= |s.changes|
            && (after.readers[q].asOf <= index
                <==> s.loaded.Some? && s.loaded.value.version == s.version && !expired && s.loaded.value.asOf <= index)
            && (after.readers[q].asOf > index
                ==> LastTouch(s.changes[..after.readers[q].asOf], s.changes[index].Id()) > index)
  {
    hide LastTouch;
    RunInv(steps);
    RunSnoc(steps, ReturnMissed(w));
    ResolvingRuns(steps + [ReturnMissed(w)], q, expired);
    var s, index := Run(steps), Run(steps).writers[w].index;
    var asOf := Run(steps + [ReturnMissed(w)] + Resolving(q, expired)).readers[q].asOf;
    if asOf > index { TouchedSince(s.changes, index, asOf); }
  }

  // The cache answers this reader with records from before change `index`.
  predicate AnswersOld(s: State, q: nat, index: nat) {
    && q in s.readers && s.readers[q].HasVersion? && s.loaded.Some?
    && s.loaded.value.version == s.readers[q].version && s.loaded.value.asOf <= index
  }

  ghost predicate ServedOld(steps: seq<Step>, j: nat, q: nat, index: nat) {
    exists k | j < k < |steps| :: steps[k] == CheckCache(q, false) && AnswersOld(Run(steps[..k]), q, index)
  }

  ghost predicate UsesOld(reader: Reader, index: nat, stale: bool) {
    match reader
    case HasTable(_, _, asOf) => asOf > index && !stale
    case Done(_, asOf) => asOf <= index <==> stale
    case _ => !stale
  }

  lemma {:induction false} ReaderUses(steps: seq<Step>, j: nat, q: nat, index: nat)
    requires j < |steps| && steps[j] == Begin(q) && index < |Run(steps[..j]).changes|
    requires forall k | j < k < |steps| :: steps[k] != Begin(q)
    ensures q in Run(steps).readers && UsesOld(Run(steps).readers[q], index, ServedOld(steps, j, q, index))
    decreases |steps|
  {
    var init, last := steps[..|steps| - 1], steps[|steps| - 1];
    if j == |steps| - 1 {
    } else {
      hide Run;
      assert init[..j] == steps[..j];
      ReaderUses(init, j, q, index);
      AcknowledgedGrows(init, j);
      ServedSnoc(init, last, j, q, index);
      assert steps == init + [last];
      RunSnoc(init, last);
      StepUses(Run(init), last, q, index, ServedOld(init, j, q, index));
    }
  }

  lemma StepUses(s: State, step: Step, q: nat, index: nat, stale: bool)
    requires step != Begin(q) && index < |s.changes| && q in s.readers && UsesOld(s.readers[q], index, stale)
    ensures q in Apply(s, step).readers
    ensures UsesOld(Apply(s, step).readers[q], index,
                    stale || (step == CheckCache(q, false) && AnswersOld(s, q, index)))
  {
  }

  lemma {:induction false} ServedSnoc(init: seq<Step>, last: Step, j: nat, q: nat, index: nat)
    requires j < |init|
    ensures ServedOld(init + [last], j, q, index)
            <==> ServedOld(init, j, q, index) || (last == CheckCache(q, false) && AnswersOld(Run(init), q, index))
  {
    hide Run, AnswersOld;
    var steps := init + [last];
    assert steps[..|init|] == init;
    forall k | j < k < |init| ensures steps[..k] == init[..k] && steps[k] == init[k] {
    }
    if ServedOld(init, j, q, index) {
      var k :| j < k < |init| && init[k] == CheckCache(q, false) && AnswersOld(Run(init[..k]), q, index);
      assert steps[k] == CheckCache(q, false) && AnswersOld(Run(steps[..k]), q, index);
    }
  }

  /**
    Under any interleaving: a resolve begun after a change was stored, by whatever write and
    whether it invalidated, is done with records from before the change exactly when its own
    check of the cache hit such records.
   */
  lemma {:induction false} ServedOldIff(steps: seq<Step>, j: nat, q: nat, index: nat)
    requires j < |steps| && steps[j] == Begin(q) && index < |Run(steps[..j]).changes|
    requires forall k | j < k < |steps| :: steps[k] != Begin(q)
    requires q in Run(steps).readers && Run(steps).readers[q].Done?
    ensures Run(steps).readers[q].asOf <= index <==> ServedOld(steps, j, q, index)
  {
    hide Run, ServedOld;
    ReaderUses(steps, j, q, index);
  }

  // A row is stored and cached, then changed by a write whose row count reads zero, then resolved.
  lemma MissedChangeStaysCached(record: AliasRecord, change: Change, w: nat, r: nat, q: nat) returns (steps: seq<Step>)
    requires r != q && !change.Upsert?
    ensures var s := Run(steps);
            && s.changes == [Upsert(record), change] && s.writers == map[]
            && q in s.readers && s.readers[q].Done? && s.readers[q].asOf == 1
  {
    hide Apply;
    var one, two := [Store(w, Upsert(record))], [Store(w, Upsert(record))] + [Bump(w)];
    RunSnoc([], Store(w, Upsert(record)));
    assert [] + one == one;
    RunSnoc(one, Bump(w));
    ResolvingRuns(two, r, false);
    var three := two + Resolving(r, false);
    var four := three + [Store(w, change)];
    RunSnoc(three, Store(w, change));
    RunSnoc(four, ReturnMissed(w));
    steps := four + [ReturnMissed(w)] + Resolving(q, false);
    ResolvingRuns(four + [ReturnMissed(w)], q, false);
    MissedChangeApplies(record, change, w, r, q);
  }

  lemma MissedChangeApplies(record: AliasRecord, change: Change, w: nat, r: nat, q: nat)
    requires r != q && !change.Upsert?
    ensures var cached := AfterResolving(Apply(Apply(INITIAL, Store(w, Upsert(record))), Bump(w)), r, false);
            var s := AfterResolving(Apply(Apply(cached, Store(w, change)), ReturnMissed(w)), q, false);
            && s.changes == [Upsert(record), change] && s.writers == map[]
            && q in s.readers && s.readers[q].Done? && s.readers[q].asOf == 1
  {
    assert [] + [Upsert(record)] == [Upsert(record)] && [Upsert(record)] + [change] == [Upsert(record), change];
  }

  /** The failing run of a delete: the row is gone from the table and still answers. */
  lemma MissedDeleteStaysCached(record: AliasRecord, w: nat, r: nat, q: nat) returns (steps: seq<Step>)
    requires r != q
    ensures var s := Run(steps);
            && s.changes == [Upsert(record), Delete(record.id)] && s.writers == map[]
            && q in s.readers && s.readers[q].Done? && s.readers[q].asOf == 1
            && record.id in TableAfter(s.changes[..1]) && record.id !in TableAfter(s.changes)
  {
    steps := MissedChangeStaysCached(record, Delete(record.id), w, r, q);
    TableOfTwo(record, Delete(record.id));
  }

  /** The failing run of a toggle: the row is switched off in the table and still answers as it was. */
  lemma MissedToggleStaysCached(record: AliasRecord, ts: int, w: nat, r: nat, q: nat) returns (steps: seq<Step>)
    requires r != q && record.enabled
    ensures var s := Run(steps);
            && s.changes == [Upsert(record), SetEnabled(record.id, false, ts)] && s.writers == map[]
            && q in s.readers && s.readers[q].Done? && s.readers[q].asOf == 1
            && record.id in TableAfter(s.changes[..1]) && TableAfter(s.changes[..1])[record.id].enabled
            && record.id in TableAfter(s.changes) && !TableAfter(s.changes)[record.id].enabled
  {
    steps := MissedChangeStaysCached(record, SetEnabled(record.id, false, ts), w, r, q);
    TableOfTwo(record, SetEnabled(record.id, false, ts));
  }

  lemma TableOfTwo(record: AliasRecord, change: Change)
    ensures var changes := [Upsert(record), change];
            TableAfter(changes[..1]) == map[record.id := record]
                && TableAfter(changes) == Changed(map[record.id := record], change)
  {
    var changes := [Upsert(record), change];
    assert changes[..1] == [Upsert(record)] && changes[..1][..0] == [];
  }

  /**
    A slow reader may store an older table over a newer one, for the same version: it read
    before another writer stored and a quicker reader loaded that write.
   */
  lemma SlowReaderStoresOlder(a: Change, w: nat, slow: nat, fast: nat) returns (steps: seq<Step>, last: Step)
    requires slow != fast
    ensures Run(steps).loaded == Some(Loaded(0, 1)) && Run(steps + [last]).loaded == Some(Loaded(0, 0))
  {
    hide Apply, AfterLookup, AfterResolving;
    LookupRuns([], slow, false);
    var one := Lookup(slow, false) + [ReadTable(slow)];
    assert [] + Lookup(slow, false) == Lookup(slow, false);
    RunSnoc(Lookup(slow, false), ReadTable(slow));
    RunSnoc(one, Store(w, a));
    var two := one + [Store(w, a)];
    ResolvingRuns(two, fast, false);
    steps := two + Resolving(fast, false);
    last := StoreCache(slow);
    RunSnoc(steps, last);
    SlowReadsFirst(a, w, slow, fast);
  }

  lemma SlowReadsFirst(a: Change, w: nat, slow: nat, fast: nat)
    requires slow != fast
    ensures var read := Apply(Apply(AfterLookup(INITIAL, slow, false), ReadTable(slow)), Store(w, a));
            var after := AfterResolving(read, fast, false);
            after.loaded == Some(Loaded(0, 1)) && Apply(after, StoreCache(slow)).loaded == Some(Loaded(0, 0))
  {
  }

  // ---------------------------------------------------------------- the cache itself

  datatype Snapshot = Snapshot(version: nat, records: seq<AliasRecord>)

  // The enabled rows of a table, each once, in whatever order.
  ghost predicate Lists(records: seq<AliasRecord>, table: Table) {
    && (forall i, j | 0 <= i < j < |records| :: records[i].id != records[j].id)
    && (forall x | x in records :: x.enabled && x.id in table && table[x.id] == x)
    && (forall id | id in table && table[id].enabled :: table[id] in records)
  }

  // The fields are those of the protocol's state: same version, and records that list the table
  // as it was when they were read.
  ghost predicate Mirrors(version: nat, loaded: Option<Snapshot>, s: State) {
    && version == s.version && (loaded.Some? <==> s.loaded.Some?)
    && (loaded.Some? ==>
          && loaded.value.version == s.loaded.value.version && s.loaded.value.asOf <= |s.changes|
          && Lists(loaded.value.records, TableAfter(s.changes[..s.loaded.value.asOf])))
  }

  // The reader is done, with these records.
  ghost predicate DoneWith(s: State, r: nat, records: seq<AliasRecord>) {
    && r in s.readers && s.readers[r].Done? && s.readers[r].asOf <= |s.changes|
    && Lists(records, TableAfter(s.changes[..s.readers[r].asOf]))
  }

  lemma BeginMirrors(version: nat, loaded: Option<Snapshot>, s: State, r: nat)
    requires Mirrors(version, loaded, s)
    ensures var begun := Apply(Apply(s, Begin(r)), LoadVersion(r));
            && Mirrors(version, loaded, begun) && begun.changes == s.changes
            && r in begun.readers && begun.readers[r] == HasVersion(s.acknowledged, version)
  {
    hide Lists;
  }

  lemma HitResolves(s: State, r: nat, expired: bool, records: seq<AliasRecord>)
    requires DoneWith(AfterLookup(s, r, expired), r, records)
    ensures AfterResolving(s, r, expired) == AfterLookup(s, r, expired)
  {
    hide Lists;
  }

  lemma ReadMirrors(version: nat, loaded: Option<Snapshot>, s: State, r: nat, expired: bool, table: seq<AliasRecord>)
    requires Mirrors(version, loaded, s) && Lists(table, TableAfter(s.changes))
    requires r in AfterLookup(s, r, expired).readers && AfterLookup(s, r, expired).readers[r].Missed?
    ensures var read := Apply(AfterLookup(s, r, expired), ReadTable(r));
            && Mirrors(version, loaded, read) && r in read.readers
               && read.readers[r] == HasTable(s.acknowledged, version, |s.changes|)
            && read.changes == s.changes && Lists(table, TableAfter(read.changes[..|s.changes|]))
  {
    hide Lists, TableAfter;
    assert s.changes[..|s.changes|] == s.changes;
  }

  // The methods that lock take the run so far and take it one step further: whatever other
  // readers and writers did in between is in the run.
  class Cache {
    var version: nat
    var loaded: Option<Snapshot>

    constructor ()
      ensures Mirrors(version, loaded, Run([]))
    {
      version, loaded := 0, None;
    }

    method Invalidate(ghost steps: seq<Step>, ghost w: nat)
      requires Mirrors(version, loaded, Run(steps)) && w in Run(steps).writers
      modifies this`version
      ensures Mirrors(version, loaded, Run(steps + [Bump(w)]))
    {
      RunSnoc(steps, Bump(w));
      version := version + 1;
    }

    // The records if they are of the version read before and have not expired.
    method Cached(current: nat, expired: bool, ghost steps: seq<Step>, ghost r: nat)
      returns (records: Option<seq<AliasRecord>>)
      requires Mirrors(version, loaded, Run(steps))
      requires r in Run(steps).readers && Run(steps).readers[r].HasVersion? && Run(steps).readers[r].version == current
      ensures var after := Run(steps + [CheckCache(r, expired)]);
              && Mirrors(version, loaded, after) && r in after.readers
              && if records.Some? then DoneWith(after, r, records.value)
                 else after.readers[r] == Missed(Run(steps).readers[r].needs, current)
    {
      RunSnoc(steps, CheckCache(r, expired));
      if loaded.Some? && loaded.value.version == current && !expired {
        return Some(loaded.value.records);
      }
      records := None;
    }

    // Stores records read for a version, over whatever is there by now.
    method Keep(current: nat, records: seq<AliasRecord>, ghost steps: seq<Step>, ghost r: nat)
      requires Mirrors(version, loaded, Run(steps))
      requires var s := Run(steps);
               && r in s.readers && s.readers[r].HasTable? && s.readers[r].version == current
                  && s.readers[r].asOf <= |s.changes|
               && Lists(records, TableAfter(s.changes[..s.readers[r].asOf]))
      modifies this`loaded
      ensures var after := Run(steps + [StoreCache(r)]);
              && Mirrors(version, loaded, after) && DoneWith(after, r, records)
                 && loaded == Some(Snapshot(current, records))
    {
      RunSnoc(steps, StoreCache(r));
      loaded := Some(Snapshot(current, records));
    }

    /**
      A resolve no one interrupts. `table`: the enabled rows as listed now; `expired`: whether the
      time to live has run out. It answers with the table as of the changes its protocol steps say.
     */
    method Load(table: seq<AliasRecord>, expired: bool, ghost steps: seq<Step>, ghost r: nat)
      returns (records: seq<AliasRecord>)
      requires Mirrors(version, loaded, Run(steps)) && Lists(table, TableAfter(Run(steps).changes))
      modifies this`loaded
      ensures var after := Run(steps + Resolving(r, expired));
              Mirrors(version, loaded, after) && DoneWith(after, r, records)
    {
      hide Apply, Mirrors, DoneWith, AfterLookup, AfterResolving;
      ghost var begun, looked := steps + [Begin(r)] + [LoadVersion(r)], steps + Lookup(r, expired);
      RunSnoc(steps, Begin(r));
      RunSnoc(steps + [Begin(r)], LoadVersion(r));
      BeginMirrors(version, loaded, Run(steps), r);
      assert begun + [CheckCache(r, expired)] == looked;
      var current := version;
      var cached := Cached(current, expired, begun, r);
      LookupRuns(steps, r, expired);
      ResolvingRuns(steps, r, expired);
      if cached.Some? {
        HitResolves(Run(steps), r, expired, cached.value);
        return cached.value;
      }
      RunSnoc(looked, ReadTable(r));
      ReadMirrors(version, loaded, Run(steps), r, expired, table);
      assert looked + [ReadTable(r)] + [StoreCache(r)] == steps + Resolving(r, expired);
      Keep(current, table, looked + [ReadTable(r)], r);
      records := table;
    }

    /** The winner among those records. */
    method Resolve(table: seq<AliasRecord>, expired: bool, q: Query, ghost steps: seq<Step>, ghost r: nat)
      returns (service: Option<string>, ghost records: seq<AliasRecord>)
      requires Mirrors(version, loaded, Run(steps)) && Lists(table, TableAfter(Run(steps).changes))
      modifies this`loaded
      ensures var after := Run(steps + Resolving(r, expired));
              Mirrors(version, loaded, after) && DoneWith(after, r, records)
      ensures service.None? <==> forall j | 0 <= j < |records| :: !Matches(records[j], q)
      ensures service.Some? ==> exists i: nat :: IsWinner(records, q, i) && service.value == records[i].service
      ensures AnswersInOrder(records, q, service)
    {
      hide AnswersInOrder;
      var found := Load(table, expired, steps, r);
      records := found;
      service := BestMatch(found, q);
    }
  }
}
