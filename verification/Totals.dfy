/**
  Totals of calls (count, errors, duration sum, duration maximum), and the sums
  and maxima over maps and sequences in which conservation is stated.
 */
module Totals {
  datatype Total = Total(calls: nat, errors: nat, sum: nat, max: nat) {
    function Plus(other: Total): Total {
      Total(calls + other.calls, errors + other.errors, sum + other.sum, if max >= other.max then max else other.max)
    }

    function Get(aspect: Aspect): nat {
      match aspect
      case Calls => calls
      case Errors => errors
      case DurationSum => sum
      case DurationMax => max
    }
  }

  const ZERO := Total(0, 0, 0, 0)

  // A component of a total: three add up, the last one is a maximum.
  datatype Aspect = Calls | Errors | DurationSum | DurationMax {
    function Join(a: nat, b: nat): nat {
      if DurationMax? then (if a >= b then a else b) else a + b
    }
  }

  ghost function PickKey<K, V>(m: map<K, V>): (k: K)
    requires m != map[]
    ensures k in m
  {
    var k :| k in m;
    k
  }

  // A measure joined over the entries of a map; FoldRemove shows the order is immaterial.
  ghost function MapFold<K, V>(aspect: Aspect, m: map<K, V>, measure: (K, V) -> nat): nat
    decreases |m|
  {
    if m == map[] then 0
    else
      var k := PickKey(m);
      aspect.Join(measure(k, m[k]), MapFold(aspect, m - {k}, measure))
  }

  lemma {:induction false} FoldRemove<K, V>(aspect: Aspect, m: map<K, V>, measure: (K, V) -> nat, k: K)
    requires k in m
    ensures MapFold(aspect, m, measure) == aspect.Join(measure(k, m[k]), MapFold(aspect, m - {k}, measure))
    decreases |m|
  {
    var pick := PickKey(m);
    if pick != k {
      assert m - {pick} - {k} == m - {k} - {pick};
      FoldRemove(aspect, m - {pick}, measure, k);
      FoldRemove(aspect, m - {k}, measure, pick);
    }
  }

  lemma FoldUpdate<K, V>(aspect: Aspect, m: map<K, V>, measure: (K, V) -> nat, k: K, v: V, delta: nat)
    requires measure(k, v) == aspect.Join(if k in m then measure(k, m[k]) else 0, delta)
    ensures MapFold(aspect, m[k := v], measure) == aspect.Join(MapFold(aspect, m, measure), delta)
  {
    var rest := m - {k};
    if k in m {
      FoldRemove(aspect, m, measure, k);
    } else {
      assert rest == m;
    }
    FoldRemove(aspect, m[k := v], measure, k);
    assert m[k := v] - {k} == rest;
  }

  lemma {:induction false} FoldZero<K, V>(aspect: Aspect, m: map<K, V>, measure: (K, V) -> nat)
    requires forall k | k in m :: measure(k, m[k]) == 0
    ensures MapFold(aspect, m, measure) == 0
    decreases |m|
  {
    if m != map[] {
      FoldZero(aspect, m - {PickKey(m)}, measure);
    }
  }

  // A measure joined over a sequence.
  ghost function SeqFold<T>(aspect: Aspect, s: seq<T>, measure: T -> nat): nat {
    if s == [] then 0 else aspect.Join(SeqFold(aspect, s[..|s| - 1], measure), measure(s[|s| - 1]))
  }

  lemma {:induction false} SeqFoldSnoc<T>(aspect: Aspect, s: seq<T>, measure: T -> nat, x: T)
    ensures SeqFold(aspect, s + [x], measure) == aspect.Join(SeqFold(aspect, s, measure), measure(x))
  {
  }

  lemma {:induction false} SeqFoldConcat<T>(aspect: Aspect, a: seq<T>, b: seq<T>, measure: T -> nat)
    ensures SeqFold(aspect, a + b, measure) == aspect.Join(SeqFold(aspect, a, measure), SeqFold(aspect, b, measure))
    decreases |b|
  {
    if b == [] {
      assert a + b == a;
    } else {
      var init := b[..|b| - 1];
      SeqFoldConcat(aspect, a, init, measure);
      assert (a + b)[..|a + b| - 1] == a + init;
    }
  }
}
