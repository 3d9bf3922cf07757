/**
  The cleanup pass as the source runs it: loops over scanned keys that set and
  delete entries, and edge rows deleted in batches. Every method is tied to Cleanup.
 */
module CleanupServices {
  import opened Wrappers
  import opened Progress
  import opened Arithmetic
  import opened Cleanup
  import K = KvPrefix

  // ---------------------------------------------------------------- batched edge deletion

  // Edge rows before the cutoff; an empty item stands for all of them.
  predicate EdgeSelected(e: Entry, item: string, cutoff: int) {
    (item == "" || e.item == item) && e.ts < cutoff
  }

  function Selected(edges: map<nat, Entry>, item: string, cutoff: int): set<nat> {
    set k | k in edges && EdgeSelected(edges[k], item, cutoff)
  }

  // One statement: up to `limit` matching rows, whichever the database picks.
  method DeleteBatch(edges: map<nat, Entry>, item: string, cutoff: int, limit: nat)
    returns (rest: map<nat, Entry>, affected: nat)
    ensures exists gone: set<nat> :: gone <= Selected(edges, item, cutoff) && |gone| == affected && rest == edges - gone
    ensures affected == if |Selected(edges, item, cutoff)| <= limit then |Selected(edges, item, cutoff)| else limit
  {
    var todo := Selected(edges, item, cutoff);
    ghost var all := todo;
    rest, affected := edges, 0;
    while todo != {} && affected < limit
      invariant todo <= all && rest == edges - (all - todo)
      invariant affected + |todo| == |all| && affected <= limit
      decreases |todo|
    {
      var k :| k in todo;
      assert edges - (all - todo) - {k} == edges - (all - (todo - {k}));
      rest, todo, affected := rest - {k}, todo - {k}, affected + 1;
    }
    assert |all - todo| == |all| - |todo|;
  }

  lemma SelectedAfter(edges: map<nat, Entry>, gone: set<nat>, item: string, cutoff: int)
    requires gone <= Selected(edges, item, cutoff)
    ensures Selected(edges - gone, item, cutoff) == Selected(edges, item, cutoff) - gone
    ensures |Selected(edges - gone, item, cutoff)| == |Selected(edges, item, cutoff)| - |gone|
  {
  }

  lemma SelectedInFields(edges: map<nat, Entry>, item: string, cutoff: int)
    ensures forall k :: k in edges - Selected(edges, item, cutoff)
                        <==> k in edges && !((item == "" || edges[k].item == item) && edges[k].ts < cutoff)
  {
  }

  lemma SelectedCount(edges: map<nat, Entry>, item: string, cutoff: int)
    ensures |edges - Selected(edges, item, cutoff)| == |edges| - |Selected(edges, item, cutoff)|
  {
    var gone := Selected(edges, item, cutoff);
    assert edges.Keys == (edges - gone).Keys + gone && (edges - gone).Keys !! gone;
    assert |edges| == |edges.Keys| && |edges - gone| == |(edges - gone).Keys|;
  }

  // After one more batch; a batch that takes all that matched leaves nothing to match.
  lemma BatchGone(edges: map<nat, Entry>, gone: set<nat>, more: set<nat>, item: string, cutoff: int)
    requires gone <= Selected(edges, item, cutoff) && more <= Selected(edges - gone, item, cutoff)
    ensures edges - gone - more == edges - (gone + more)
    ensures |gone + more| == |gone| + |more| && gone + more <= Selected(edges, item, cutoff)
    ensures |Selected(edges, item, cutoff) - (gone + more)| == |Selected(edges, item, cutoff) - gone| - |more|
    ensures |more| == |Selected(edges - gone, item, cutoff)| ==> gone + more == Selected(edges, item, cutoff)
  {
    var all := Selected(edges, item, cutoff);
    SelectedAfter(edges, gone, item, cutoff);
    assert all - gone == (all - (gone + more)) + more;
    assert all - gone == Selected(edges - gone, item, cutoff);
    if |more| == |all - gone| {
      assert |(all - gone) - more| == 0;
      assert all - (gone + more) == {};
    }
  }

  /**
    Batches until a short one: whatever rows each statement picks, exactly the matching rows go,
    in one batch more than the whole batches they fill.
   */
  method DeleteEdgesBefore(edges: map<nat, Entry>, item: string, cutoff: int, batchSize: int)
    returns (rest: map<nat, Entry>, deleted: nat, batches: nat)
    ensures rest == edges - Selected(edges, item, cutoff)
    ensures forall k :: k in rest <==> k in edges && !((item == "" || edges[k].item == item) && edges[k].ts < cutoff)
    ensures deleted == |Selected(edges, item, cutoff)|
    ensures batches == deleted / (if batchSize < 1 then 1 else batchSize) + 1
  {
    hide Selected;
    SelectedInFields(edges, item, cutoff);
    var b: nat := if batchSize < 1 then 1 else batchSize;
    ghost var all := Selected(edges, item, cutoff);
    ghost var gone: set<nat> := {};
    rest, deleted, batches := edges, 0, 0;
    assert edges - gone == edges;
    while true
      invariant gone <= all && rest == edges - gone
      invariant deleted == batches * b && deleted == |gone|
      decreases |all - gone|
    {
      var affected;
      ghost var before := rest;
      rest, affected := DeleteBatch(rest, item, cutoff, b);
      ghost var more: set<nat> :| more <= Selected(before, item, cutoff) && |more| == affected && rest == before - more;
      BatchGone(edges, gone, more, item, cutoff);
      deleted := deleted + affected;
      if affected < b {
        QuotientOf(deleted, b, batches, affected);
        batches := batches + 1;
        return;
      }
      gone := gone + more;
      batches := batches + 1;
    }
  }

  // ---------------------------------------------------------------- the parts already processed

  // Items that left, moved from the live keys to deadlines.
  function Scheduled(live: map<string, nat>, retain: map<string, int>, done: set<string>, now: int): map<string, int> {
    map id | id in retain.Keys + (done * live.Keys) ::
        if id in done && id in live then RetainUntil(now, live[id]) else retain[id]
  }

  function Admitted(live: map<string, nat>, items: Items, done: set<string>): map<string, nat> {
    map id | id in live.Keys + (done * items.Keys) :: if id in done && id in items then items[id].days else live[id]
  }

  lemma NoneScheduled(live: map<string, nat>, retain: map<string, int>, now: int)
    ensures Scheduled(live, retain, {}, now) == retain && live - {} == live
  {
  }

  lemma LeftAreLive(live: map<string, nat>, items: Items)
    ensures LeftItems(live, items) <= live.Keys
  {
  }

  lemma ScheduleNext(live: map<string, nat>, retain: map<string, int>, done: set<string>, id: string, now: int)
    ensures id in live ==>
              Scheduled(live, retain, done + {id}, now)
                  == Scheduled(live, retain, done, now)[id := RetainUntil(now, live[id])]
    ensures live - done - {id} == live - (done + {id})
    ensures id in live && id !in done ==> id in live - done && (live - done)[id] == live[id]
  {
  }

  lemma NoneAdmitted(live: map<string, nat>, retain: map<string, int>, items: Items)
    ensures Admitted(live, items, {}) == live && retain - {} == retain
  {
  }

  lemma AdmitNext(live: map<string, nat>, retain: map<string, int>, items: Items, done: set<string>, id: string)
    requires id in items
    ensures Admitted(live, items, done + {id}) == Admitted(live, items, done)[id := items[id].days]
    ensures retain - (done + {id}) == if id in retain - done then retain - done - {id} else retain - done
  {
  }

  lemma MarkingInTwoPasses(s: Stores, items: Items, now: int)
    ensures Admitted(s.live - LeftItems(s.live, items), items, items.Keys) == LiveAfterMarking(s, items)
    ensures Scheduled(s.live, s.retain, LeftItems(s.live, items), now) - items.Keys == RetainAfterMarking(s, items, now)
  {
    hide RetainUntil;
  }

  function OnlyItems(items: Items, done: set<string>): Items {
    map id | id in done && id in items :: items[id]
  }

  function OnlyRetain(retain: map<string, int>, done: set<string>): map<string, int> {
    map id | id in done && id in retain :: retain[id]
  }

  // The stores once `done` live items and `gone` retain keys were handled.
  function TsSoFar(s: Stores, items: Items, done: set<string>, gone: set<string>, globalDays: nat, now: int)
    : map<nat, Entry>
  {
    ApplyTs(s.(retain := OnlyRetain(s.retain, gone)), OnlyItems(items, done), globalDays, now).points
  }

  function LogsSoFar(s: Stores, items: Items, done: set<string>, gone: set<string>, now: int): Stores {
    ApplyLogs(s.(retain := OnlyRetain(s.retain, gone)), OnlyItems(items, done), now)
  }

  predicate TsItem(items: Items, id: string, globalDays: nat, now: int) {
    id in items && Clamp(items[id].days) < Clamp(globalDays) && Cutoff(now, items[id].days) > 0
  }

  // The live items and the due deadlines whose points a round selects.
  function TsItems(items: Items, globalDays: nat, now: int): set<string> {
    set id | id in items && TsItem(items, id, globalDays, now)
  }

  function TsKeys(s: Stores, now: int): set<string> {
    set id | id in s.retain && Due(s, id, now) && s.retain[id] > 0
  }

  function WithoutPoints(points: map<nat, Entry>, id: string, to: int): map<nat, Entry> {
    map k | k in points && !TsSelected(points[k], id, to) :: points[k]
  }

  lemma TsNothing(s: Stores, items: Items, globalDays: nat, now: int)
    ensures TsSoFar(s, items, {}, {}, globalDays, now) == s.points
  {
  }

  lemma TsNextItem(s: Stores, items: Items, done: set<string>, id: string, globalDays: nat, now: int)
    requires id in items && id !in done
    ensures var before := TsSoFar(s, items, done, {}, globalDays, now);
            TsSoFar(s, items, done + {id}, {}, globalDays, now)
            == if TsItem(items, id, globalDays, now) then WithoutPoints(before, id, Cutoff(now, items[id].days))
               else before
  {
  }

  lemma TsNextKey(s: Stores, items: Items, gone: set<string>, id: string, globalDays: nat, now: int)
    requires id in s.retain && id !in gone
    ensures var before := TsSoFar(s, items, items.Keys, gone, globalDays, now);
            TsSoFar(s, items, items.Keys, gone + {id}, globalDays, now)
            == if Due(s, id, now) && s.retain[id] > 0 then WithoutPoints(before, id, s.retain[id]) else before
  {
  }

  lemma TsAll(s: Stores, items: Items, done: set<string>, gone: set<string>, globalDays: nat, now: int)
    requires done == items.Keys && gone == s.retain.Keys
    ensures TsSoFar(s, items, done, gone, globalDays, now) == ApplyTs(s, items, globalDays, now).points
  {
  }

  function WithoutLogs(logs: map<nat, Entry>, id: string, to: Option<int>): map<nat, Entry> {
    map k | k in logs && !(logs[k].item == id && (to.None? || logs[k].ts <= to.value)) :: logs[k]
  }

  lemma LogsNothing(s: Stores, items: Items, now: int)
    ensures LogsSoFar(s, items, {}, {}, now).logs == s.logs && LogsSoFar(s, items, {}, {}, now).edges == s.edges
    ensures RetainSoFar(s, {}, now) == s.retain
  {
  }

  lemma LogsNextItem(s: Stores, items: Items, done: set<string>, id: string, now: int)
    requires id in items && id !in done && id != ""
    ensures var before, after, cutoff :=
            LogsSoFar(s, items, done, {}, now), LogsSoFar(s, items, done + {id}, {}, now), Cutoff(now, items[id].days);
            && after.logs == WithoutLogs(before.logs, id, Some(cutoff))
            && after.edges
               == (if items[id].IsEbpf() then before.edges - Selected(before.edges, id, cutoff) else before.edges)
  {
    hide Cutoff;
    EdgesNextItem(s, items, done, id, now);
  }

  lemma EdgesNextItem(s: Stores, items: Items, done: set<string>, id: string, now: int)
    requires id in items && id !in done && id != ""
    ensures var before, cutoff := LogsSoFar(s, items, done, {}, now).edges, Cutoff(now, items[id].days);
            LogsSoFar(s, items, done + {id}, {}, now).edges
            == if items[id].IsEbpf() then before - Selected(before, id, cutoff) else before
  {
  }

  lemma DueNext(s: Stores, gone: set<string>, id: string, now: int, item: string)
    requires id in s.retain && id !in gone
    ensures Due(s.(retain := OnlyRetain(s.retain, gone + {id})), item, now)
       <==> Due(s.(retain := OnlyRetain(s.retain, gone)), item, now) || (item == id && Due(s, id, now))
  {
  }

  lemma LogsNextKey(s: Stores, items: Items, gone: set<string>, id: string, now: int)
    requires id in s.retain && id !in gone
    ensures var before := LogsSoFar(s, items, items.Keys, gone, now).logs;
            LogsSoFar(s, items, items.Keys, gone + {id}, now).logs
                == if Due(s, id, now) then WithoutLogs(before, id, None) else before
  {
    hide Cutoff, EdgeExpires, Due, OnlyItems, OnlyRetain;
    forall item: string { DueNext(s, gone, id, now, item); }
  }

  lemma EdgesNextKey(s: Stores, items: Items, gone: set<string>, id: string, now: int)
    requires id in s.retain && id !in gone && id != ""
    ensures var before := LogsSoFar(s, items, items.Keys, gone, now).edges;
            LogsSoFar(s, items, items.Keys, gone + {id}, now).edges
            == if Due(s, id, now) then before - Selected(before, id, now) else before
  {
    hide Cutoff, LogExpires, Due, OnlyItems, OnlyRetain;
    forall item: string { DueNext(s, gone, id, now, item); }
  }

  lemma EmptyKeyIsNeverDue(s: Stores, items: Items, gone: set<string>, now: int)
    ensures LogsSoFar(s, items, items.Keys, gone + {""}, now).edges == LogsSoFar(s, items, items.Keys, gone, now).edges
    ensures LogsSoFar(s, items, items.Keys, gone + {""}, now).logs == LogsSoFar(s, items, items.Keys, gone, now).logs
  {
    hide Cutoff;
  }

  // The deadlines left once `gone` were handled.
  function RetainSoFar(s: Stores, gone: set<string>, now: int): map<string, int> {
    map id | id in s.retain && !(id in gone && Due(s, id, now)) :: s.retain[id]
  }

  lemma RetainNextKey(s: Stores, gone: set<string>, id: string, now: int)
    requires id in s.retain && id !in gone
    ensures RetainSoFar(s, gone + {id}, now)
            == if Due(s, id, now) then RetainSoFar(s, gone, now) - {id} else RetainSoFar(s, gone, now)
    ensures id in RetainSoFar(s, gone, now) && RetainSoFar(s, gone, now)[id] == s.retain[id]
  {
  }

  lemma LogsAll(s: Stores, items: Items, now: int)
    ensures ApplyLogs(s, items, now)
         == s.(logs := LogsSoFar(s, items, items.Keys, s.retain.Keys, now).logs,
               edges := LogsSoFar(s, items, items.Keys, s.retain.Keys, now).edges,
               retain := RetainSoFar(s, s.retain.Keys, now))
  {
    hide LogExpires, EdgeExpires;
    assert OnlyItems(items, items.Keys) == items && OnlyRetain(s.retain, s.retain.Keys) == s.retain;
  }

  // ---------------------------------------------------------------- the pass

  datatype Report = Report(logDeleted: nat, tsItems: nat, edgesDeleted: nat, ingestDeleted: nat)

  // "ingest/"
  const INGEST_PREFIX: K.Bytes := [105, 110, 103, 101, 115, 116, 47]

  class CleanupService {
    var live: map<string, nat>
    var retain: map<string, int>
    var logs: map<nat, Entry>
    var points: map<nat, Entry>
    var edges: map<nat, Entry>
    // The key-value store in key order: its ingest keys hold the time they were accepted.
    var kv: seq<K.Entry>

    ghost function View(): Stores
      reads this
    {
      Stores(live, retain, logs, points, edges)
    }

    // Items that left get a deadline; items that came back lose theirs.
    method MarkRemovedItems(items: Items, now: int) returns (marked: nat)
      modifies this`live, this`retain
      ensures live == LiveAfterMarking(old(View()), items) && retain == RetainAfterMarking(old(View()), items, now)
      ensures marked == |LeftItems(old(live), items)|
    {
      hide RetainUntil, Admitted, Scheduled, LeftItems, LiveAfterMarking, RetainAfterMarking;
      marked := ScheduleLeft(items, now);
      AdmitListed(items);
      MarkingInTwoPasses(old(View()), items, now);
    }

    method ScheduleLeft(items: Items, now: int) returns (marked: nat)
      modifies this`live, this`retain
      ensures live == old(live) - LeftItems(old(live), items)
      ensures retain == Scheduled(old(live), old(retain), LeftItems(old(live), items), now)
      ensures marked == |LeftItems(old(live), items)|
    {
      hide RetainUntil, Split, LeftItems, Scheduled;
      ghost var left := LeftItems(live, items);
      var todo := LeftItems(live, items);
      ghost var done: set<string> := {};
      marked := 0;
      SplitStart(todo);
      LeftAreLive(live, items);
      NoneScheduled(live, retain, now);
      while todo != {}
        invariant Split(left, todo, done) && marked == |done|
        invariant live == old(live) - done && retain == Scheduled(old(live), old(retain), done, now)
        decreases |todo|
      {
        var id :| id in todo;
        SplitNext(left, todo, done, id);
        ScheduleNext(old(live), old(retain), done, id, now);
        retain := retain[id := RetainUntil(now, live[id])];
        live := live - {id};
        todo, done, marked := todo - {id}, done + {id}, marked + 1;
      }
      SplitEnd(left, done);
    }

    method AdmitListed(items: Items)
      modifies this`live, this`retain
      ensures retain == old(retain) - items.Keys
      ensures live == Admitted(old(live), items, items.Keys)
    {
      hide Split, Admitted;
      var todo := items.Keys;
      ghost var done: set<string> := {};
      SplitStart(todo);
      NoneAdmitted(live, retain, items);
      while todo != {}
        invariant Split(items.Keys, todo, done)
        invariant retain == old(retain) - done && live == Admitted(old(live), items, done)
        decreases |todo|
      {
        var id :| id in todo;
        SplitNext(items.Keys, todo, done, id);
        AdmitNext(old(live), old(retain), items, done, id);
        if id in retain { retain := retain - {id}; }
        live := live[id := items[id].days];
        todo, done := todo - {id}, done + {id};
      }
      SplitEnd(items.Keys, done);
    }

    method DeleteSeries(id: string, to: int)
      modifies this`points
      ensures points == WithoutPoints(old(points), id, to)
    {
      points := map k | k in points && !TsSelected(points[k], id, to) :: points[k];
    }

    method DeleteLogs(id: string, to: Option<int>) returns (deleted: nat)
      modifies this`logs
      ensures logs == WithoutLogs(old(logs), id, to) && deleted == |old(logs)| - |logs|
    {
      var rest := WithoutLogs(logs, id, to);
      Shrinks(logs, rest);
      deleted := |logs| - |rest|;
      logs := rest;
    }

    // Points of live items past their own retention, and of due items before their deadline;
    // the result counts the items and the deadlines.
    method ApplyTsRetention(items: Items, globalDays: nat, now: int) returns (cleaned: nat)
      modifies this`points
      ensures points == ApplyTs(old(View()), items, globalDays, now).points
      ensures cleaned == |TsItems(items, globalDays, now)| + |TsKeys(old(View()), now)|
    {
      hide TsSoFar, ApplyTs, TsItems, TsKeys;
      cleaned := TrimListed(items, globalDays, now);
      var n := TrimDue(old(View()), items, globalDays, now);
      cleaned := cleaned + n;
    }

    method TrimListed(items: Items, globalDays: nat, now: int) returns (cleaned: nat)
      modifies this`points
      ensures points == TsSoFar(old(View()), items, items.Keys, {}, globalDays, now)
      ensures cleaned == |TsItems(items, globalDays, now)|
    {
      hide TsSoFar, Cutoff, WithoutPoints, Split;
      ghost var s, some := View(), TsItems(items, globalDays, now);
      cleaned := 0;
      var todo := items.Keys;
      ghost var done: set<string> := {};
      TsNothing(s, items, globalDays, now);
      CountAll(some, items.Keys);
      SplitStart(todo);
      while todo != {}
        invariant Split(items.Keys, todo, done)
        invariant points == TsSoFar(s, items, done, {}, globalDays, now) && cleaned == |some * done|
        decreases |todo|
      {
        var id :| id in todo;
        SplitNext(items.Keys, todo, done, id);
        TsNextItem(s, items, done, id, globalDays, now);
        CountNext(some, done, id);
        todo, done := todo - {id}, done + {id};
        if Clamp(items[id].days) < Clamp(globalDays) {
          var cutoff := Cutoff(now, items[id].days);
          if cutoff > 0 {
            DeleteSeries(id, cutoff);
            cleaned := cleaned + 1;
          }
        }
      }
      SplitEnd(items.Keys, done);
    }

    method TrimDue(ghost s: Stores, items: Items, globalDays: nat, now: int) returns (cleaned: nat)
      requires retain == s.retain && points == TsSoFar(s, items, items.Keys, {}, globalDays, now)
      modifies this`points
      ensures points == ApplyTs(s, items, globalDays, now).points
      ensures cleaned == |TsKeys(s, now)|
    {
      hide TsSoFar, ApplyTs, WithoutPoints, Split;
      ghost var due := TsKeys(s, now);
      cleaned := 0;
      var keys := retain.Keys;
      ghost var gone: set<string> := {};
      CountAll(due, s.retain.Keys);
      SplitStart(keys);
      while keys != {}
        invariant Split(s.retain.Keys, keys, gone)
        invariant points == TsSoFar(s, items, items.Keys, gone, globalDays, now) && cleaned == |due * gone|
        decreases |keys|
      {
        var id :| id in keys;
        SplitNext(s.retain.Keys, keys, gone, id);
        TsNextKey(s, items, gone, id, globalDays, now);
        CountNext(due, gone, id);
        keys, gone := keys - {id}, gone + {id};
        if id != "" && !(now < retain[id] || retain[id] <= 0) {
          DeleteSeries(id, retain[id]);
          cleaned := cleaned + 1;
        }
      }
      SplitEnd(s.retain.Keys, gone);
      TsAll(s, items, items.Keys, gone, globalDays, now);
    }

    // Logs of one live item past its retention, and its edges if it is an eBPF item.
    method CleanLive(id: string, item: LiveItem, now: int, batchSize: int) returns (logDeleted: nat, edgesDeleted: nat)
      requires id != ""
      modifies this`logs, this`edges
      ensures logs == WithoutLogs(old(logs), id, Some(Cutoff(now, item.days)))
      ensures edges
              == if item.IsEbpf() then old(edges) - Selected(old(edges), id, Cutoff(now, item.days)) else old(edges)
      ensures logDeleted == |old(logs)| - |logs| && edgesDeleted == |old(edges)| - |edges|
    {
      hide Cutoff, WithoutLogs, Selected;
      var cutoff := Cutoff(now, item.days);
      logDeleted := DeleteLogs(id, Some(cutoff));
      edgesDeleted := 0;
      if item.IsEbpf() {
        SelectedCount(edges, id, cutoff);
        var rest, deleted, _ := DeleteEdgesBefore(edges, id, cutoff, batchSize);
        edges, edgesDeleted := rest, deleted;
      }
    }

    // Everything of one item whose deadline has passed, and then the deadline itself.
    method PurgeItem(id: string, now: int, batchSize: int) returns (logDeleted: nat, edgesDeleted: nat)
      modifies this`logs, this`edges, this`retain
      ensures logs == WithoutLogs(old(logs), id, None)
      ensures edges == old(edges) - Selected(old(edges), id, now)
      ensures retain == old(retain) - {id}
      ensures logDeleted == |old(logs)| - |logs| && edgesDeleted == |old(edges)| - |edges|
    {
      hide WithoutLogs, Selected;
      logDeleted := DeleteLogs(id, None);
      SelectedCount(edges, id, now);
      var rest, deleted, _ := DeleteEdgesBefore(edges, id, now, batchSize);
      edges, edgesDeleted := rest, deleted;
      retain := retain - {id};
    }

    // Logs and edges of live items past their retention; everything of due items, and then their keys.
    method ApplyRetention(items: Items, now: int, batchSize: int) returns (logDeleted: nat, edgesDeleted: nat)
      requires "" !in items
      modifies this`logs, this`edges, this`retain
      ensures View() == ApplyLogs(old(View()), items, now)
      ensures logDeleted == |old(logs)| - |logs| && edgesDeleted == |old(edges)| - |edges|
    {
      logDeleted, edgesDeleted := CleanListed(items, now, batchSize);
      var n, m := PurgeDue(old(View()), items, now, batchSize);
      logDeleted, edgesDeleted := logDeleted + n, edgesDeleted + m;
    }

    method CleanListed(items: Items, now: int, batchSize: int) returns (logDeleted: nat, edgesDeleted: nat)
      requires "" !in items
      modifies this`logs, this`edges
      ensures logs == LogsSoFar(old(View()), items, items.Keys, {}, now).logs
      ensures edges == LogsSoFar(old(View()), items, items.Keys, {}, now).edges
      ensures logDeleted == |old(logs)| - |logs| && edgesDeleted == |old(edges)| - |edges|
    {
      hide LogsSoFar, Cutoff, WithoutLogs, Selected, Split, RetainSoFar;
      ghost var s := View();
      logDeleted, edgesDeleted := 0, 0;
      var todo := items.Keys;
      ghost var done: set<string> := {};
      LogsNothing(s, items, now);
      SplitStart(todo);
      while todo != {}
        invariant Split(items.Keys, todo, done)
        invariant logs == LogsSoFar(s, items, done, {}, now).logs && edges == LogsSoFar(s, items, done, {}, now).edges
        invariant logDeleted == |s.logs| - |logs| && edgesDeleted == |s.edges| - |edges|
        decreases |todo|
      {
        var id :| id in todo;
        SplitNext(items.Keys, todo, done, id);
        LogsNextItem(s, items, done, id, now);
        var n, m := CleanLive(id, items[id], now, batchSize);
        logDeleted, edgesDeleted := logDeleted + n, edgesDeleted + m;
        todo, done := todo - {id}, done + {id};
      }
      SplitEnd(items.Keys, done);
    }

    method PurgeDue(ghost s: Stores, items: Items, now: int, batchSize: int)
      returns (logDeleted: nat, edgesDeleted: nat)
      requires retain == s.retain && live == s.live && points == s.points
      requires logs == LogsSoFar(s, items, items.Keys, {}, now).logs
               && edges == LogsSoFar(s, items, items.Keys, {}, now).edges
      modifies this`logs, this`edges, this`retain
      ensures View() == ApplyLogs(s, items, now)
      ensures logDeleted == |old(logs)| - |logs| && edgesDeleted == |old(edges)| - |edges|
    {
      hide LogsSoFar, ApplyLogs, WithoutLogs, Selected, Split, RetainSoFar;
      logDeleted, edgesDeleted := 0, 0;
      var keys := retain.Keys;
      ghost var gone: set<string> := {};
      LogsNothing(s, items, now);
      SplitStart(keys);
      while keys != {}
        invariant Split(s.retain.Keys, keys, gone)
        invariant logs == LogsSoFar(s, items, items.Keys, gone, now).logs
                  && edges == LogsSoFar(s, items, items.Keys, gone, now).edges
        invariant retain == RetainSoFar(s, gone, now)
        invariant logDeleted == |old(logs)| - |logs| && edgesDeleted == |old(edges)| - |edges|
        decreases |keys|
      {
        var id :| id in keys;
        SplitNext(s.retain.Keys, keys, gone, id);
        if id != "" {
          LogsNextKey(s, items, gone, id, now);
          EdgesNextKey(s, items, gone, id, now);
        } else {
          EmptyKeyIsNeverDue(s, items, gone, now);
        }
        RetainNextKey(s, gone, id, now);
        if id != "" && !(now < retain[id]) {
          var n, m := PurgeItem(id, now, batchSize);
          logDeleted, edgesDeleted := logDeleted + n, edgesDeleted + m;
        }
        keys, gone := keys - {id}, gone + {id};
      }
      SplitEnd(s.retain.Keys, gone);
      LogsAll(s, items, now);
    }

    // Ingest keys older than the window of deduplication; zero days keep them all.
    method PruneIngestKeys(dedupDays: nat, now: int) returns (removed: nat)
      requires K.SortedKeys(kv)
      modifies this`kv
      ensures kv == (if dedupDays > 0 then K.Kept(old(kv), INGEST_PREFIX, DedupCutoff(now, dedupDays)) else old(kv))
      ensures removed == |old(kv)| - |kv| && K.SortedKeys(kv)
      ensures 0 <= now <= I64_MAX && 0 < dedupDays <= MAX_DAYS ==>
                forall e :: e in kv <==> e in old(kv) && !IngestKeyBefore(e, now - dedupDays * 86_400_000_000)
    {
      removed := 0;
      if dedupDays > 0 {
        hide K.Kept, IngestKeyBefore;
        var cutoff := DedupCutoff(now, dedupDays);
        OldIngestKeysGo(kv, now, dedupDays);
        K.KeptIsSorted(kv, INGEST_PREFIX, cutoff);
        var rest, n := K.PrunePrefixBefore(kv, INGEST_PREFIX, cutoff);
        kv, removed := rest, n;
      }
    }

    /** One pass: mark only with a list in hand, then time series, then logs and edges, then ingest keys. */
    method RunCleanup(fetch: Option<seq<RawItem>>, globalDays: nat, dedupDays: nat, now: int, batchSize: int)
      returns (report: Report)
      requires K.SortedKeys(kv)
      modifies this
      ensures View() == Round(old(View()), fetch, globalDays, now)
      ensures kv == (if dedupDays > 0 then K.Kept(old(kv), INGEST_PREFIX, DedupCutoff(now, dedupDays)) else old(kv))
              && K.SortedKeys(kv)
      ensures report.logDeleted == |old(logs)| - |logs| && report.edgesDeleted == |old(edges)| - |edges|
      ensures report.tsItems
              == |TsItems(ItemsOf(fetch), globalDays, now)| + |TsKeys(Marked(old(View()), fetch, now), now)|
      ensures report.ingestDeleted == |old(kv)| - |kv|
    {
      hide ApplyTs, ApplyLogs, TsItems, TsKeys, K.Kept, DedupCutoff;
      var items: Items := map[];
      if fetch.Some? {
        items := ParseAgentSpecs(fetch.value);
        NoEmptyId(fetch.value);
        var _ := MarkRemovedItems(items, now);
      }
      assert View() == Marked(old(View()), fetch, now) && items == ItemsOf(fetch);
      ghost var marked := View();
      var cleaned := ApplyTsRetention(items, globalDays, now);
      OnlyPointsGo(marked, items, globalDays, now);
      var logDeleted, edgesDeleted := ApplyRetention(items, now, batchSize);
      var ingestDeleted := PruneIngestKeys(dedupDays, now);
      report := Report(logDeleted, cleaned, edgesDeleted, ingestDeleted);
    }
  }

  // A key that starts with "ingest/", whose value is no eight-byte time or an earlier one.
  ghost predicate IngestKeyBefore(e: K.Entry, time: int) {
    && |e.key| >= 7 && e.key[0] == 'i' as nat && e.key[1] == 'n' as nat && e.key[2] == 'g' as nat
       && e.key[3] == 'e' as nat
    && e.key[4] == 's' as nat && e.key[5] == 't' as nat && e.key[6] == '/' as nat
    && (K.MicrosOf(e.value).None? || K.MicrosOf(e.value).value < time)
  }

  lemma IngestPrefix(key: K.Bytes)
    ensures K.StartsWith(key, INGEST_PREFIX)
            <==> && |key| >= 7 && key[0] == 'i' as nat && key[1] == 'n' as nat && key[2] == 'g' as nat
                 && key[3] == 'e' as nat && key[4] == 's' as nat && key[5] == 't' as nat && key[6] == '/' as nat
  {
    if |key| >= 7 { assert key[..7] == [key[0], key[1], key[2], key[3], key[4], key[5], key[6]]; }
  }

  lemma {:induction false} OldIngestKeysGo(kv: seq<K.Entry>, now: int, dedupDays: nat)
    requires 0 < dedupDays
    ensures 0 <= now <= I64_MAX && dedupDays <= MAX_DAYS ==>
              forall e :: e in K.Kept(kv, INGEST_PREFIX, DedupCutoff(now, dedupDays))
                          <==> e in kv && !IngestKeyBefore(e, now - dedupDays * 86_400_000_000)
  {
    var cutoff := DedupCutoff(now, dedupDays);
    forall e ensures e in K.Kept(kv, INGEST_PREFIX, cutoff) <==> e in kv && !K.Goes(e, INGEST_PREFIX, cutoff) {
      K.KeptElements(kv, INGEST_PREFIX, cutoff, e);
    }
    forall e: K.Entry { IngestPrefix(e.key); }
  }

  function DedupCutoff(now: int, dedupDays: nat): int {
    SaturatingSub(now, Wrap(dedupDays * MICROS_PER_DAY))
  }

  lemma OnlyPointsGo(s: Stores, items: Items, globalDays: nat, now: int)
    ensures ApplyTs(s, items, globalDays, now) == s.(points := ApplyTs(s, items, globalDays, now).points)
  {
  }

  lemma Shrinks(m: map<nat, Entry>, rest: map<nat, Entry>)
    requires rest.Keys <= m.Keys
    ensures |rest| <= |m|
  {
    assert m.Keys == rest.Keys + (m.Keys - rest.Keys);
    assert |m| == |m.Keys| && |rest| == |rest.Keys|;
  }
}
