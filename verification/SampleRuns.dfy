/**
  Runs of the minute samples (crates/dataplane-apm/src/red.rs): spans and edges have a table
  each, share one counter of dropped samples, and closed minutes are drained from both.
 */
module SampleRuns {
  import opened Samples
  import opened Totals

  // ---------------------------------------------------------------- draining one table

  lemma DrainsRest(table: Table, now: int, out: seq<GroupStats>)
    requires DrainsClosed(table, now, out) && out != []
    ensures var init, last := out[..|out| - 1], out[|out| - 1];
            && last.key in table && last == StatsOf(last.key, table[last.key])
            && DrainsClosed(table - {last.key}, now, init)
            && OpenPart(table - {last.key}, now) == OpenPart(table, now)
  {
  }

  lemma {:induction false} DrainMoves(aspect: Aspect, table: Table, now: int, out: seq<GroupStats>,
                                      group: (GroupKey, Group) -> nat, stats: GroupStats -> nat)
    requires DrainsClosed(table, now, out)
    requires forall k, g :: stats(StatsOf(k, g)) == group(k, g)
    ensures aspect.Join(MapFold(aspect, OpenPart(table, now), group), SeqFold(aspect, out, stats))
            == MapFold(aspect, table, group)
    decreases |out|
  {
    if out == [] {
      assert OpenPart(table, now) == table;
    } else {
      var last := out[|out| - 1];
      DrainsRest(table, now, out);
      DrainMoves(aspect, table - {last.key}, now, out[..|out| - 1], group, stats);
      FoldRemove(aspect, table, group, last.key);
    }
  }

  function Excess(): (GroupKey, Group) -> nat {
    (k: GroupKey, g: Group) => if g.count >= |g.kept| then g.count - |g.kept| else 0
  }

  function StatsExcess(): GroupStats -> nat {
    (g: GroupStats) => if g.count >= |g.samples| then g.count - |g.samples| else 0
  }

  ghost predicate Capped(cap: pos, table: Table) {
    forall k | k in table :: |table[k].kept| == if table[k].count <= cap then table[k].count else cap
  }

  lemma {:induction false} ObserveOverflows(cap: pos, table: Table, key: GroupKey, duration: nat)
    requires Capped(cap, table)
    ensures Capped(cap, ObserveSample(cap, table, key, duration))
    ensures MapFold(Calls, ObserveSample(cap, table, key, duration), Excess())
         == MapFold(Calls, table, Excess()) + if Overflows(cap, table, key) then 1 else 0
  {
    var before := if key in table then table[key] else EMPTY_GROUP;
    FoldUpdate(Calls, table, Excess(), key, Extend(cap, before, duration), if Overflows(cap, table, key) then 1 else 0);
  }

  lemma {:induction false} DrainKeepsShortfall(cap: pos, table: Table, now: int, out: seq<GroupStats>)
    requires Capped(cap, table) && DrainsClosed(table, now, out)
    ensures Capped(cap, OpenPart(table, now))
    ensures MapFold(Calls, OpenPart(table, now), Excess()) + SeqFold(Calls, out, StatsExcess())
            == MapFold(Calls, table, Excess())
  {
    forall k, g ensures StatsExcess()(StatsOf(k, g)) == Excess()(k, g) { SortSorts(g.kept); }
    DrainMoves(Calls, table, now, out, Excess(), StatsExcess());
  }

  // ---------------------------------------------------------------- both sides

  datatype Op =
    | Observed(side: Side, key: GroupKey, duration: nat)
    | Taken(now: int, service: seq<GroupStats>, edge: seq<GroupStats>)

  // The two tables, the shared counter, and what was drained so far.
  datatype World = World(service: Table, edge: Table, dropped: nat, serviceOut: seq<GroupStats>,
                         edgeOut: seq<GroupStats>)

  const START := World(map[], map[], 0, [], [])

  function Apply(cap: pos, w: World, op: Op): World {
    match op
    case Observed(Service, key, duration) =>
      w.(service := ObserveSample(cap, w.service, key, duration),
         dropped := w.dropped + if Overflows(cap, w.service, key) then 1 else 0)
    case Observed(Edge, key, duration) =>
      w.(edge := ObserveSample(cap, w.edge, key, duration),
         dropped := w.dropped + if Overflows(cap, w.edge, key) then 1 else 0)
    case Taken(now, service, edge) =>
      World(OpenPart(w.service, now), OpenPart(w.edge, now), w.dropped, w.serviceOut + service, w.edgeOut + edge)
  }

  function Run(cap: pos, ops: seq<Op>): World {
    if ops == [] then START else Apply(cap, Run(cap, ops[..|ops| - 1]), ops[|ops| - 1])
  }

  // Taking lists the closed groups of both tables.
  ghost predicate ValidRun(cap: pos, ops: seq<Op>) {
    ops == [] ||
    (var w, op := Run(cap, ops[..|ops| - 1]), ops[|ops| - 1];
     && ValidRun(cap, ops[..|ops| - 1])
     && (op.Taken? ==> DrainsClosed(w.service, op.now, op.service) && DrainsClosed(w.edge, op.now, op.edge)))
  }

  /**
    The shared counter is exactly what the groups of both sides, present and drained, counted
    beyond the samples they kept; and each keeps as many as it counted, up to the cap.
   */
  lemma {:induction false} DroppedIsShortfall(cap: pos, ops: seq<Op>)
    requires ValidRun(cap, ops)
    ensures var w := Run(cap, ops);
            && Capped(cap, w.service) && Capped(cap, w.edge)
            && w.dropped == MapFold(Calls, w.service, Excess()) + SeqFold(Calls, w.serviceOut, StatsExcess())
                            + MapFold(Calls, w.edge, Excess()) + SeqFold(Calls, w.edgeOut, StatsExcess())
  {
    hide Capped;
    if ops == [] {
      NothingDropped(cap);
    } else {
      DroppedIsShortfall(cap, ops[..|ops| - 1]);
      var w := Run(cap, ops[..|ops| - 1]);
      match ops[|ops| - 1]
      case Observed(Service, key, duration) => ObserveOverflows(cap, w.service, key, duration);
      case Observed(Edge, key, duration) => ObserveOverflows(cap, w.edge, key, duration);
      case Taken(now, service, edge) =>
        DrainKeepsShortfall(cap, w.service, now, service);
        DrainKeepsShortfall(cap, w.edge, now, edge);
        SeqFoldConcat(Calls, w.serviceOut, service, StatsExcess());
        SeqFoldConcat(Calls, w.edgeOut, edge, StatsExcess());
    }
  }

  lemma NothingDropped(cap: pos)
    ensures Capped(cap, map[]) && MapFold(Calls, START.service, Excess()) == 0
            && SeqFold(Calls, START.serviceOut, StatsExcess()) == 0
    ensures MapFold(Calls, START.edge, Excess()) == 0 && SeqFold(Calls, START.edgeOut, StatsExcess()) == 0
  {
    FoldZero(Calls, START.service, Excess());
  }
}
