/**
  The merged view of edges from two sources (crates/dataplane-apm/src/query.rs): one
  row per minute and service pair, whichever source the rows came from.
 */
module MergeSources {
  datatype Key = Key(bucket: int, src: string, dst: string)
  datatype Counts = Counts(calls: nat, connections: nat, errors: nat, failures: nat, bytesSent: nat, bytesRecv: nat,
                           durationSum: nat, retrans: nat)
  datatype EdgeRow = EdgeRow(key: Key, counts: Counts, durationMax: nat, durationAvg: nat, protocol: string,
                             spanKind: string, agentId: string, source: string)

  function Sum(a: Counts, b: Counts): Counts {
    Counts(a.calls + b.calls, a.connections + b.connections, a.errors + b.errors, a.failures + b.failures,
           a.bytesSent + b.bytesSent, a.bytesRecv + b.bytesRecv, a.durationSum + b.durationSum, a.retrans + b.retrans)
  }

  const ZERO := Counts(0, 0, 0, 0, 0, 0, 0, 0)

  function Average(c: Counts): nat { if c.connections > 0 then c.durationSum / c.connections else 0 }

  function MergeProtocol(current: string, incoming: string): string {
    if incoming == "" then current
    else if current == "" then incoming
    else if current != incoming then "mixed"
    else current
  }

  function FirstOf(current: string, incoming: string): string { if current == "" then incoming else current }

  function Start(row: EdgeRow): EdgeRow {
    row.(source := "merged", durationAvg := Average(row.counts))
  }

  function Absorb(current: EdgeRow, row: EdgeRow): EdgeRow {
    var counts := Sum(current.counts, row.counts);
    current.(counts := counts,
             durationMax := if current.durationMax >= row.durationMax then current.durationMax else row.durationMax,
             durationAvg := Average(counts), protocol := MergeProtocol(current.protocol, row.protocol),
             spanKind := FirstOf(current.spanKind, row.spanKind), agentId := FirstOf(current.agentId, row.agentId))
  }

  function Merged(rows: seq<EdgeRow>): map<Key, EdgeRow> {
    if rows == [] then map[]
    else
      var before, row := Merged(rows[..|rows| - 1]), rows[|rows| - 1];
      before[row.key := if row.key in before then Absorb(before[row.key], row) else Start(row)]
  }

  method AbsorbRow(into: EdgeRow, row: EdgeRow) returns (current: EdgeRow)
    ensures current == Absorb(into, row)
  {
    current := into.(counts := Sum(into.counts, row.counts));
    if row.durationMax > current.durationMax { current := current.(durationMax := row.durationMax); }
    var calls := current.counts.connections;
    current := current.(durationAvg := if calls > 0 then current.counts.durationSum / calls else 0);
    if row.protocol != "" {
      if current.protocol == "" {
        current := current.(protocol := row.protocol);
      } else if current.protocol != row.protocol {
        current := current.(protocol := "mixed");
      }
    }
    if current.spanKind == "" { current := current.(spanKind := row.spanKind); }
    if current.agentId == "" { current := current.(agentId := row.agentId); }
  }

  // The two sources one after the other, folded into a map in place.
  method MergeRows(otlp: seq<EdgeRow>, ebpf: seq<EdgeRow>) returns (merged: map<Key, EdgeRow>)
    ensures merged == Merged(otlp + ebpf)
  {
    hide Absorb, Average;
    var rows := otlp + ebpf;
    merged := map[];
    for i := 0 to |rows|
      invariant merged == Merged(rows[..i])
    {
      assert rows[..i + 1][..i] == rows[..i];
      var row := rows[i];
      if row.key in merged {
        var current := AbsorbRow(merged[row.key], row);
        merged := merged[row.key := current];
      } else {
        row := row.(source := "merged", durationAvg := Average(row.counts));
        merged := merged[row.key := row];
      }
    }
    assert rows[..|rows|] == rows;
  }

  // ---------------------------------------------------------------- what a merged row says

  function RowsAt(rows: seq<EdgeRow>, key: Key): seq<EdgeRow> {
    if rows == [] then []
    else RowsAt(rows[..|rows| - 1], key) + if rows[|rows| - 1].key == key then [rows[|rows| - 1]] else []
  }

  function CountsOf(rows: seq<EdgeRow>): Counts {
    if rows == [] then ZERO else Sum(CountsOf(rows[..|rows| - 1]), rows[|rows| - 1].counts)
  }

  ghost predicate IsLongest(m: nat, rows: seq<EdgeRow>) {
    (forall r | r in rows :: r.durationMax <= m) && exists r | r in rows :: r.durationMax == m
  }

  // The protocols the rows name.
  ghost function Protocols(rows: seq<EdgeRow>): set<string> {
    set r | r in rows && r.protocol != "" :: r.protocol
  }

  // No protocol, the only one, or "mixed".
  ghost predicate NamesProtocol(p: string, protocols: set<string>) {
    && (protocols == {} ==> p == "")
    && (forall q | protocols == {q} :: p == q)
    && (forall q, r | q in protocols && r in protocols && q != r :: p == "mixed")
  }

  ghost predicate Describes(row: EdgeRow, key: Key, rows: seq<EdgeRow>) {
    && row.key == key && row.source == "merged"
    && row.counts == CountsOf(rows) && IsLongest(row.durationMax, rows)
    && row.durationAvg == Average(CountsOf(rows))
    && NamesProtocol(row.protocol, Protocols(rows))
  }

  lemma ProtocolsGrow(rows: seq<EdgeRow>, row: EdgeRow)
    ensures Protocols(rows + [row]) == Protocols(rows) + if row.protocol != "" then {row.protocol} else {}
  {
  }

  lemma ProtocolJoins(p: string, protocols: set<string>, incoming: string)
    requires NamesProtocol(p, protocols) && "" !in protocols
    ensures NamesProtocol(MergeProtocol(p, incoming), protocols + if incoming != "" then {incoming} else {})
  {
    if protocols != {} && incoming != "" {
      var q :| q in protocols;
      if protocols == {q} {
        assert incoming != q ==> q in protocols + {incoming} && incoming in protocols + {incoming};
      } else {
        var r :| r in protocols && r != q;
      }
    }
  }

  lemma StartDescribes(row: EdgeRow)
    ensures Describes(Start(row), row.key, [row])
  {
    assert [row][..0] == [] && row in [row];
    ProtocolsGrow([], row);
    assert Protocols([]) == {} && [] + [row] == [row];
  }

  lemma AbsorbDescribes(current: EdgeRow, rows: seq<EdgeRow>, row: EdgeRow)
    requires Describes(current, row.key, rows)
    ensures Describes(Absorb(current, row), row.key, rows + [row])
  {
    assert (rows + [row])[..|rows|] == rows;
    assert row in rows + [row] && forall r | r in rows :: r in rows + [row];
    ProtocolsGrow(rows, row);
    ProtocolJoins(current.protocol, Protocols(rows), row.protocol);
  }

  /**
    A merged row exists exactly for the keys some row has, and sums up all rows of its key: every
    counter, the longest duration, the truncated average over the sums, and the protocol that is
    empty, the only one, or "mixed" as the rows name none, one or several.
   */
  lemma {:induction false} MergedRowsDescribe(rows: seq<EdgeRow>, key: Key)
    ensures key in Merged(rows) <==> RowsAt(rows, key) != []
    ensures key in Merged(rows) ==> Describes(Merged(rows)[key], key, RowsAt(rows, key))
  {
    hide Describes, Absorb, Start;
    if rows != [] {
      var init, row := rows[..|rows| - 1], rows[|rows| - 1];
      MergedRowsDescribe(init, key);
      if row.key == key {
        if key in Merged(init) {
          AbsorbDescribes(Merged(init)[key], RowsAt(init, key), row);
        } else {
          StartDescribes(row);
          assert [] + [row] == [row];
        }
      } else {
        assert RowsAt(init, key) + [] == RowsAt(init, key);
      }
    }
  }

  // ---------------------------------------------------------------- column by column

  datatype Column = Calls | Connections | Errors | Failures | BytesSent | BytesRecv | DurationSum | Retrans

  function At(row: EdgeRow, column: Column): nat {
    match column
    case Calls => row.counts.calls
    case Connections => row.counts.connections
    case Errors => row.counts.errors
    case Failures => row.counts.failures
    case BytesSent => row.counts.bytesSent
    case BytesRecv => row.counts.bytesRecv
    case DurationSum => row.counts.durationSum
    case Retrans => row.counts.retrans
  }

  function ColumnSum(rows: seq<EdgeRow>, key: Key, column: Column): nat {
    if rows == [] then 0
    else
      var last := rows[|rows| - 1];
      ColumnSum(rows[..|rows| - 1], key, column) + if last.key == key then At(last, column) else 0
  }

  // The first text that is not empty, in the order of the rows.
  ghost predicate FirstText(text: string, rows: seq<EdgeRow>, of: EdgeRow -> string) {
    if text == "" then forall r | r in rows :: of(r) == ""
    else exists i :: 0 <= i < |rows| && of(rows[i]) == text && forall j | 0 <= j < i :: of(rows[j]) == ""
  }

  function KindOf(): EdgeRow -> string { (r: EdgeRow) => r.spanKind }

  function AgentOf(): EdgeRow -> string { (r: EdgeRow) => r.agentId }

  lemma FirstTextStays(text: string, rows: seq<EdgeRow>, of: EdgeRow -> string, row: EdgeRow)
    requires FirstText(text, rows, of)
    ensures FirstText(if text != "" then text else of(row), rows + [row], of)
  {
    var longer := rows + [row];
    if text != "" {
      var i :| 0 <= i < |rows| && of(rows[i]) == text && forall j | 0 <= j < i :: of(rows[j]) == "";
      assert longer[i] == rows[i] && forall j | 0 <= j < i :: longer[j] == rows[j];
    } else {
      forall j | 0 <= j < |rows| ensures of(longer[j]) == "" { assert rows[j] in rows; }
      assert longer[|rows|] == row;
    }
  }

  /**
    Column by column: a merged row adds up each counter of all rows of its key, its average is their
    duration sum over their connections rounded down, and its span kind and agent are the first named.
   */
  lemma {:induction false} MergedRowInFields(rows: seq<EdgeRow>, key: Key)
    requires key in Merged(rows)
    ensures var row := Merged(rows)[key];
            && (forall column :: At(row, column) == ColumnSum(rows, key, column))
            && FirstText(row.spanKind, RowsAt(rows, key), KindOf())
               && FirstText(row.agentId, RowsAt(rows, key), AgentOf())
            && (row.counts.connections == 0 ==> row.durationAvg == 0)
            && (row.counts.connections > 0 ==>
                  row.durationAvg * row.counts.connections <= row.counts.durationSum
                  < (row.durationAvg + 1) * row.counts.connections)
  {
    hide ColumnSum, FirstText, Merged, At, CountsOf, Protocols, IsLongest, NamesProtocol;
    MergedRowsDescribe(rows, key);
    var row := Merged(rows)[key];
    forall column ensures At(row, column) == ColumnSum(rows, key, column) { ColumnsAdd(rows, key, column); }
    TextsStay(rows, key);
    if row.counts.connections > 0 { Rounded(row.counts.durationSum, row.counts.connections); }
  }

  lemma Rounded(sum: nat, n: nat)
    requires n > 0
    ensures sum / n * n <= sum < (sum / n + 1) * n
  {
    assert sum == sum / n * n + sum % n;
  }

  lemma {:induction false} ColumnsAdd(rows: seq<EdgeRow>, key: Key, column: Column)
    ensures key in Merged(rows) ==> At(Merged(rows)[key], column) == ColumnSum(rows, key, column)
    ensures key !in Merged(rows) ==> ColumnSum(rows, key, column) == 0
  {
    if rows != [] { ColumnsAdd(rows[..|rows| - 1], key, column); }
  }

  lemma {:induction false} TextsStay(rows: seq<EdgeRow>, key: Key)
    ensures key in Merged(rows) ==> FirstText(Merged(rows)[key].spanKind, RowsAt(rows, key), KindOf())
    ensures key in Merged(rows) ==> FirstText(Merged(rows)[key].agentId, RowsAt(rows, key), AgentOf())
    ensures key !in Merged(rows) ==> RowsAt(rows, key) == []
  {
    hide FirstText;
    if rows != [] {
      var init, row := rows[..|rows| - 1], rows[|rows| - 1];
      TextsStay(init, key);
      if row.key == key {
        if key in Merged(init) {
          FirstTextStays(Merged(init)[key].spanKind, RowsAt(init, key), KindOf(), row);
          FirstTextStays(Merged(init)[key].agentId, RowsAt(init, key), AgentOf(), row);
        } else {
          OnlyText(row);
          assert [] + [row] == [row];
        }
      } else {
        assert RowsAt(init, key) + [] == RowsAt(init, key);
      }
    }
  }

  lemma OnlyText(row: EdgeRow)
    ensures FirstText(row.spanKind, [row], KindOf()) && FirstText(row.agentId, [row], AgentOf())
  {
    assert KindOf()([row][0]) == row.spanKind && AgentOf()([row][0]) == row.agentId;
  }

  // ---------------------------------------------------------------- the order of the sources

  lemma {:induction false} RowsAtConcat(a: seq<EdgeRow>, b: seq<EdgeRow>, key: Key)
    ensures RowsAt(a + b, key) == RowsAt(a, key) + RowsAt(b, key)
    decreases |b|
  {
    if b == [] {
      assert a + b == a;
    } else {
      RowsAtConcat(a, b[..|b| - 1], key);
      assert (a + b)[..|a + b| - 1] == a + b[..|b| - 1];
    }
  }

  lemma {:induction false} CountsConcat(a: seq<EdgeRow>, b: seq<EdgeRow>)
    ensures CountsOf(a + b) == Sum(CountsOf(a), CountsOf(b))
    decreases |b|
  {
    hide Sum;
    if b == [] {
      assert a + b == a;
      SumLaws(CountsOf(a), ZERO, ZERO);
    } else {
      CountsConcat(a, b[..|b| - 1]);
      assert (a + b)[..|a + b| - 1] == a + b[..|b| - 1];
      SumLaws(CountsOf(a), CountsOf(b[..|b| - 1]), b[|b| - 1].counts);
    }
  }

  lemma SumLaws(a: Counts, b: Counts, c: Counts)
    ensures Sum(a, ZERO) == a && Sum(a, b) == Sum(b, a) && Sum(Sum(a, b), c) == Sum(a, Sum(b, c))
  {
  }

  lemma {:induction false} DescriptionIsUnique(r: EdgeRow, q: EdgeRow, key: Key, rows: seq<EdgeRow>,
                                               others: seq<EdgeRow>)
    requires Describes(r, key, rows) && Describes(q, key, others) && rows != []
    requires CountsOf(rows) == CountsOf(others) && forall x :: x in rows <==> x in others
    ensures q.(spanKind := r.spanKind, agentId := r.agentId) == r
  {
    assert Protocols(rows) == Protocols(others);
    var protocols := Protocols(rows);
    if protocols != {} {
      var p :| p in protocols;
      if protocols != {p} {
        var other :| other in protocols && other != p;
      }
    }
  }

  lemma SameRows(a: seq<EdgeRow>, b: seq<EdgeRow>)
    ensures forall x :: x in a + b <==> x in b + a
    ensures a + b == [] <==> b + a == []
  {
  }

  /**
    The sources commute: except for the first nonempty span kind and agent, the merged view does
    not depend on which comes first.
   */
  lemma {:induction false} SourcesCommute(otlp: seq<EdgeRow>, ebpf: seq<EdgeRow>, key: Key)
    ensures key in Merged(otlp + ebpf) <==> key in Merged(ebpf + otlp)
    ensures key in Merged(otlp + ebpf) ==>
              var r, q := Merged(otlp + ebpf)[key], Merged(ebpf + otlp)[key];
              q.(spanKind := r.spanKind, agentId := r.agentId) == r
  {
    hide Describes, Merged, RowsAt, CountsOf, Sum;
    var a, b := RowsAt(otlp, key), RowsAt(ebpf, key);
    MergedRowsDescribe(otlp + ebpf, key);
    MergedRowsDescribe(ebpf + otlp, key);
    RowsAtConcat(otlp, ebpf, key);
    RowsAtConcat(ebpf, otlp, key);
    CountsConcat(a, b);
    CountsConcat(b, a);
    SumLaws(CountsOf(a), CountsOf(b), ZERO);
    SameRows(a, b);
    if key in Merged(otlp + ebpf) {
      DescriptionIsUnique(Merged(otlp + ebpf)[key], Merged(ebpf + otlp)[key], key, a + b, b + a);
    }
  }
}
