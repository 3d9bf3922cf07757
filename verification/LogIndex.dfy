/**
  Deleting log records (crates/dataplane-log/src/lib.rs): a query on promoted index
  fields in place of a label post-filter, and deletion in batches by record id.
 */
module LogIndex {
  import opened Wrappers

  // Four label keys are promoted to index fields.
  datatype LabelKey = TraceId | DataType | Service | DataId | Other(name: string)

  // `tokens`: the words of the message.
  datatype LogRecord = LogRecord(id: string, ts: int, level: string, tokens: set<string>, labels: map<LabelKey, string>)

  datatype LogFilter = LogFilter(fromTs: Option<int>, toTs: Option<int>, level: Option<string>, words: set<string>,
                                 labels: map<LabelKey, string>)
  datatype IndexedFilter = IndexedFilter(fromTs: Option<int>, toTs: Option<int>, level: Option<string>,
                                         words: set<string>,
                                         traceId: Option<string>, dataType: Option<string>,
                                         service: Option<string>, dataId: Option<string>)

  // ---------------------------------------------------------------- two ways to match labels

  // What the index stores for a promoted key: the empty text when the label is absent.
  function Promoted(labels: map<LabelKey, string>, key: LabelKey): string {
    if key in labels then labels[key] else ""
  }

  // The clauses both paths share: time range (both ends included), level, message words.
  predicate InRange(fromTs: Option<int>, toTs: Option<int>, ts: int) {
    (fromTs.Some? ==> fromTs.value <= ts) && (toTs.Some? ==> ts <= toTs.value)
  }

  predicate Candidate(f: LogFilter, r: LogRecord) {
    InRange(f.fromTs, f.toTs, r.ts) && (f.level.Some? ==> f.level.value == r.level) && f.words <= r.tokens
  }

  // The label post-filter: every label must be there with that value.
  predicate Matches(f: LogFilter, r: LogRecord) {
    Candidate(f, r) && forall k | k in f.labels :: k in r.labels && r.labels[k] == f.labels[k]
  }

  predicate TermMatches(value: Option<string>, r: LogRecord, key: LabelKey) {
    value.Some? ==> value.value == Promoted(r.labels, key)
  }

  predicate IndexMatches(f: IndexedFilter, r: LogRecord) {
    && InRange(f.fromTs, f.toTs, r.ts) && (f.level.Some? ==> f.level.value == r.level) && f.words <= r.tokens
    && TermMatches(f.traceId, r, TraceId) && TermMatches(f.dataType, r, DataType)
    && TermMatches(f.service, r, Service) && TermMatches(f.dataId, r, DataId)
  }

  function ValueOf(labels: map<LabelKey, string>, key: LabelKey): Option<string> {
    if key in labels then Some(labels[key]) else None
  }

  predicate AllIndexed(labels: map<LabelKey, string>) {
    forall k | k in labels :: !k.Other?
  }

  function ToIndexed(f: LogFilter): Option<IndexedFilter> {
    if AllIndexed(f.labels)
    then Some(IndexedFilter(f.fromTs, f.toTs, f.level, f.words, ValueOf(f.labels, TraceId), ValueOf(f.labels, DataType),
                            ValueOf(f.labels, Service), ValueOf(f.labels, DataId)))
    else None
  }

  method ToIndexedFilter(f: LogFilter) returns (out: Option<IndexedFilter>)
    ensures out == ToIndexed(f)
  {
    var indexed := IndexedFilter(f.fromTs, f.toTs, f.level, f.words, None, None, None, None);
    var todo := f.labels.Keys;
    while todo != {}
      invariant todo <= f.labels.Keys
      invariant forall k | k in f.labels && k !in todo :: !k.Other?
      invariant indexed == IndexedFilter(f.fromTs, f.toTs, f.level, f.words,
                  if TraceId in todo then None else ValueOf(f.labels, TraceId),
                  if DataType in todo then None else ValueOf(f.labels, DataType),
                  if Service in todo then None else ValueOf(f.labels, Service),
                  if DataId in todo then None else ValueOf(f.labels, DataId))
      decreases |todo|
    {
      var key :| key in todo;
      todo := todo - {key};
      match key {
        case TraceId => indexed := indexed.(traceId := Some(f.labels[key]));
        case DataType => indexed := indexed.(dataType := Some(f.labels[key]));
        case Service => indexed := indexed.(service := Some(f.labels[key]));
        case DataId => indexed := indexed.(dataId := Some(f.labels[key]));
        case Other(_) => return None;
      }
    }
    out := Some(indexed);
  }

  predicate NoEmptyValue(labels: map<LabelKey, string>) {
    forall k | k in labels :: labels[k] != ""
  }

  predicate EmptyRange(f: LogFilter) {
    f.fromTs.Some? && f.toTs.Some? && f.fromTs.value > f.toTs.value
  }

  lemma IndexMatchesLabels(f: LogFilter, r: LogRecord)
    requires ToIndexed(f).Some?
    ensures IndexMatches(ToIndexed(f).value, r)
            <==> Candidate(f, r) && forall k | k in f.labels :: f.labels[k] == Promoted(r.labels, k)
  {
  }

  /**
    The index query selects exactly what the post-filter selects, on every record, if and only
    if no label value asked for is empty (or the time range is): an empty value also matches
    records that lack the label.
   */
  lemma IndexAgreesIff(f: LogFilter)
    requires ToIndexed(f).Some?
    ensures (forall r :: IndexMatches(ToIndexed(f).value, r) <==> Matches(f, r))
            <==> NoEmptyValue(f.labels) || EmptyRange(f)
  {
    if NoEmptyValue(f.labels) || EmptyRange(f) {
      forall r ensures IndexMatches(ToIndexed(f).value, r) <==> Matches(f, r) { IndexMatchesLabels(f, r); }
    } else {
      var key :| key in f.labels && f.labels[key] == "";
      var ts := if f.fromTs.Some? then f.fromTs.value else if f.toTs.Some? then f.toTs.value else 0;
      var r := LogRecord("", ts, if f.level.Some? then f.level.value else "", f.words, f.labels - {key});
      IndexMatchesLabels(f, r);
      assert IndexMatches(ToIndexed(f).value, r) && !Matches(f, r);
    }
  }

  // ---------------------------------------------------------------- deletion by id

  type Docs = map<nat, LogRecord>

  function Selected(docs: Docs, of: LogRecord -> bool): set<nat> {
    set d | d in docs && of(docs[d])
  }

  function IdsOf(docs: Docs, some: set<nat>): set<string> {
    set d | d in some && d in docs :: docs[d].id
  }

  // Deleting a term removes every document with the id; the empty id is never deleted.
  function WithoutIds(docs: Docs, ids: set<string>): Docs {
    map d | d in docs && !(docs[d].id in ids && docs[d].id != "") :: docs[d]
  }

  // Appending gives an id to records without one.
  ghost predicate HaveIds(docs: Docs) {
    forall d | d in docs :: docs[d].id != ""
  }

  ghost predicate UniqueIds(docs: Docs) {
    forall d, e | d in docs && e in docs && docs[d].id == docs[e].id :: d == e
  }

  lemma WithoutTwice(docs: Docs, a: set<string>, b: set<string>)
    ensures WithoutIds(WithoutIds(docs, a), b) == WithoutIds(docs, a + b)
  {
  }

  // Any `limit` of the selected documents, or all of them when there are fewer.
  method TopDocs(docs: Docs, of: LogRecord -> bool, limit: nat) returns (top: set<nat>)
    ensures top <= Selected(docs, of)
    ensures |top| == if |Selected(docs, of)| <= limit then |Selected(docs, of)| else limit
  {
    var all := Selected(docs, of);
    var todo := all;
    top := {};
    while todo != {} && |top| < limit
      invariant top <= all && todo == all - top && |top| <= limit
      decreases |todo|
    {
      var d :| d in todo;
      top, todo := top + {d}, todo - {d};
    }
    if todo == {} { assert top == all; } else { SubsetSmaller(top, all); }
  }

  lemma SubsetSmaller<T>(a: set<T>, b: set<T>)
    requires a <= b
    ensures |a| <= |b|
    ensures |a| == |b| ==> a == b
  {
    assert b == a + (b - a);
  }

  /**
    Removing the ids of the selected documents removes exactly those documents if and only if
    no other document shares an id with one of them.
   */
  lemma DeletesExactlyIff(docs: Docs, some: set<nat>)
    requires HaveIds(docs) && some <= docs.Keys
    ensures WithoutIds(docs, IdsOf(docs, some)) == docs - some
       <==> forall d, e | d in some && e in docs && docs[d].id == docs[e].id :: e in some
  {
    var rest := WithoutIds(docs, IdsOf(docs, some));
    if rest == docs - some {
      forall d, e | d in some && e in docs && docs[d].id == docs[e].id ensures e in some {
        assert docs[d].id in IdsOf(docs, some);
        assert e !in rest;
      }
    }
    if forall d, e | d in some && e in docs && docs[d].id == docs[e].id :: e in some {
      forall e | e in docs ensures e in rest <==> e !in some {
        if e in some { assert docs[e].id in IdsOf(docs, some); }
      }
    }
  }

  // What one batch leaves: of the selected documents, at most those that were not in it.
  lemma BatchShrinks(docs: Docs, of: LogRecord -> bool, top: set<nat>)
    requires HaveIds(docs) && top <= Selected(docs, of)
    ensures var rest := WithoutIds(docs, IdsOf(docs, top));
            HaveIds(rest) && (UniqueIds(docs) ==> UniqueIds(rest)) && Selected(rest, of) <= Selected(docs, of) - top
  {
  }

  lemma BatchRemoves(docs: Docs, of: LogRecord -> bool, top: set<nat>)
    requires HaveIds(docs) && UniqueIds(docs) && top <= Selected(docs, of)
    ensures |Selected(WithoutIds(docs, IdsOf(docs, top)), of)| == |Selected(docs, of)| - |top|
  {
    hide WithoutIds, IdsOf, Selected;
    SelectedMinus(docs, of, top);
    DeletesExactlyIff(docs, top);
  }

  lemma SelectedMinus(docs: Docs, of: LogRecord -> bool, top: set<nat>)
    requires top <= Selected(docs, of)
    ensures top <= docs.Keys
    ensures |Selected(docs - top, of)| == |Selected(docs, of)| - |top|
  {
    assert Selected(docs, of) == Selected(docs - top, of) + top;
  }

  lemma IdsJoin(docs: Docs, gone: set<string>, of: LogRecord -> bool, top: set<nat>)
    requires gone <= IdsOf(docs, Selected(docs, of)) && top <= Selected(WithoutIds(docs, gone), of)
    ensures gone + IdsOf(WithoutIds(docs, gone), top) <= IdsOf(docs, Selected(docs, of))
  {
  }

  lemma AllGone(docs: Docs, gone: set<string>, of: LogRecord -> bool)
    requires HaveIds(docs) && gone <= IdsOf(docs, Selected(docs, of)) && Selected(WithoutIds(docs, gone), of) == {}
    ensures gone == IdsOf(docs, Selected(docs, of))
  {
    forall id | id in IdsOf(docs, Selected(docs, of)) ensures id in gone {
      var d :| d in Selected(docs, of) && d in docs && docs[d].id == id;
      assert d !in Selected(WithoutIds(docs, gone), of);
    }
  }

  /**
    Batches until a short one: every selected document goes, and with it every other document of
    the same id. With unique ids it succeeds exactly when fewer documents are selected than the
    rounds can take, and returns their number.
   */
  method DeleteInBatches(docs: Docs, of: LogRecord -> bool, limit: nat, maxRounds: nat)
    returns (rest: Docs, total: Option<nat>)
    requires HaveIds(docs) && limit >= 1
    ensures total.Some? ==> rest == WithoutIds(docs, IdsOf(docs, Selected(docs, of)))
    ensures UniqueIds(docs) ==>
              && (total.Some? <==> |Selected(docs, of)| < maxRounds * limit)
              && (total.Some? ==> total.value == |Selected(docs, of)| && rest == docs - Selected(docs, of))
  {
    hide Selected, IdsOf, WithoutIds, UniqueIds;
    rest := docs;
    var sum: nat := 0;
    ghost var gone: set<string> := {};
    NothingGone(docs, of);
    for round := 0 to maxRounds
      invariant rest == WithoutIds(docs, gone) && gone <= IdsOf(docs, Selected(docs, of))
      invariant HaveIds(rest)
      invariant UniqueIds(docs) ==> UniqueIds(rest)
      invariant sum == round * limit
      invariant UniqueIds(docs) ==> |Selected(rest, of)| + sum == |Selected(docs, of)|
    {
      var top := TopDocs(rest, of, limit);
      RoundBound(round, maxRounds, limit);
      if top == {} {
        AllSelected(rest, of, top);
        Finished(docs, gone, of);
        return rest, Some(sum);
      }
      BatchShrinks(rest, of, top);
      if UniqueIds(rest) { BatchRemoves(rest, of, top); }
      IdsJoin(docs, gone, of, top);
      WithoutTwice(docs, gone, IdsOf(rest, top));
      gone := gone + IdsOf(rest, top);
      ghost var before := rest;
      rest := WithoutIds(rest, IdsOf(rest, top));
      sum := sum + |top|;
      if |top| < limit {
        AllSelected(before, of, top);
        Finished(docs, gone, of);
        return rest, Some(sum);
      }
    }
    total := None;
  }

  lemma NothingGone(docs: Docs, of: LogRecord -> bool)
    ensures WithoutIds(docs, {}) == docs && {} <= IdsOf(docs, Selected(docs, of))
  {
  }

  lemma AllSelected(docs: Docs, of: LogRecord -> bool, top: set<nat>)
    requires top <= Selected(docs, of) && |top| == |Selected(docs, of)|
    ensures Selected(docs, of) - top == {}
  {
    SubsetSmaller(top, Selected(docs, of));
  }

  lemma RoundBound(round: nat, maxRounds: nat, limit: nat)
    requires round < maxRounds
    ensures round * limit + limit <= maxRounds * limit
  {
    assert (round + 1) * limit <= maxRounds * limit;
  }

  lemma Finished(docs: Docs, gone: set<string>, of: LogRecord -> bool)
    requires HaveIds(docs) && gone <= IdsOf(docs, Selected(docs, of)) && Selected(WithoutIds(docs, gone), of) == {}
    ensures gone == IdsOf(docs, Selected(docs, of))
    ensures UniqueIds(docs) ==> WithoutIds(docs, gone) == docs - Selected(docs, of)
  {
    AllGone(docs, gone, of);
    DeletesExactlyIff(docs, Selected(docs, of));
  }

  // The other path: candidates up to a cap, then the label post-filter, then one deletion.
  method DeleteByScan(docs: Docs, f: LogFilter, cap: nat) returns (rest: Docs, total: nat)
    requires HaveIds(docs)
    ensures |Selected(docs, CandidatesOf(f))| <= cap ==>
              rest == WithoutIds(docs, IdsOf(docs, Selected(docs, MatchesOf(f))))
                  && total == |Selected(docs, MatchesOf(f))|
    ensures UniqueIds(docs) && |Selected(docs, CandidatesOf(f))| <= cap ==> rest == docs - Selected(docs, MatchesOf(f))
  {
    var top := TopDocs(docs, CandidatesOf(f), cap);
    var hits := set d | d in top && Matches(f, docs[d]);
    rest := WithoutIds(docs, IdsOf(docs, hits));
    total := |hits|;
    if |Selected(docs, CandidatesOf(f))| <= cap {
      SubsetSmaller(top, Selected(docs, CandidatesOf(f)));
      assert hits == Selected(docs, MatchesOf(f));
      DeletesExactlyIff(docs, hits);
    }
  }

  function CandidatesOf(f: LogFilter): LogRecord -> bool { r => Candidate(f, r) }

  function MatchesOf(f: LogFilter): LogRecord -> bool { r => Matches(f, r) }

  function IndexMatchesOf(f: IndexedFilter): LogRecord -> bool { r => IndexMatches(f, r) }

  const DELETE_BATCH_LIMIT: nat := 10_000
  const DELETE_BATCH_MAX_ROUNDS: nat := 10_000
  const DELETE_SCAN_LIMIT: nat := 100_000

  // What keeps a deletion from reaching its limits.
  ghost predicate WithinLimits(docs: Docs, f: LogFilter) {
    if ToIndexed(f).Some? then |Selected(docs, MatchesOf(f))| < 100_000_000
    else |Selected(docs, CandidatesOf(f))| <= 100_000
  }

  // The record is in the time range, ends included, has the level, the words and the labels asked for.
  ghost predicate IsAskedFor(f: LogFilter, r: LogRecord) {
    && (f.fromTs.Some? ==> r.ts >= f.fromTs.value) && (f.toTs.Some? ==> r.ts <= f.toTs.value)
    && (f.level.Some? ==> r.level == f.level.value) && (forall word | word in f.words :: word in r.tokens)
    && (forall k | k in f.labels :: k in r.labels && f.labels[k] == r.labels[k])
  }

  lemma MatchesAreAskedFor(docs: Docs, f: LogFilter)
    ensures forall d :: d in docs - Selected(docs, MatchesOf(f)) <==> d in docs && !IsAskedFor(f, docs[d])
  {
  }

  /**
    Both paths do the same: with unique ids and no empty label value, within the limits, exactly
    the records the filter matches are removed and their number is returned.
   */
  method DeleteMatching(docs: Docs, f: LogFilter) returns (rest: Docs, total: Option<nat>)
    requires HaveIds(docs)
    ensures UniqueIds(docs) && NoEmptyValue(f.labels) && WithinLimits(docs, f) ==>
              rest == docs - Selected(docs, MatchesOf(f)) && total == Some(|Selected(docs, MatchesOf(f))|)
    ensures UniqueIds(docs) && NoEmptyValue(f.labels) && WithinLimits(docs, f) ==>
              forall d :: d in rest <==> d in docs && !IsAskedFor(f, docs[d])
    ensures UniqueIds(docs) && NoEmptyValue(f.labels) && ToIndexed(f).Some? && !WithinLimits(docs, f) ==> total == None
  {
    hide IsAskedFor;
    MatchesAreAskedFor(docs, f);
    var indexed := ToIndexedFilter(f);
    if indexed.Some? {
      if NoEmptyValue(f.labels) { SelectedAlike(docs, f); }
      rest, total := DeleteInBatches(docs, IndexMatchesOf(indexed.value), DELETE_BATCH_LIMIT, DELETE_BATCH_MAX_ROUNDS);
    } else {
      var n;
      rest, n := DeleteByScan(docs, f, DELETE_SCAN_LIMIT);
      total := Some(n);
    }
  }

  lemma SelectedAlike(docs: Docs, f: LogFilter)
    requires ToIndexed(f).Some? && NoEmptyValue(f.labels)
    ensures Selected(docs, IndexMatchesOf(ToIndexed(f).value)) == Selected(docs, MatchesOf(f))
  {
  }
}
