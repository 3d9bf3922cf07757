/**
  Ordered prefix ranges of the key-value store (crates/dataplane-kv/src/lib.rs): the scan
  that stops at the first foreign key, and pruning by the time stored in the value.
 */
module KvPrefix {
  import opened Wrappers

  type byte = b: nat | b < 256
  type Bytes = seq<byte>
  datatype Entry = Entry(key: Bytes, value: Bytes)

  // ---------------------------------------------------------------- byte order and prefixes

  // Lexicographic: the first differing byte decides, and a proper prefix comes first.
  predicate Less(a: Bytes, b: Bytes) {
    b != [] && (a == [] || a[0] < b[0] || (a[0] == b[0] && Less(a[1..], b[1..])))
  }

  ghost predicate SortedKeys(entries: seq<Entry>) {
    forall i, j | 0 <= i < j < |entries| :: Less(entries[i].key, entries[j].key)
  }

  predicate StartsWith(key: Bytes, prefix: Bytes) { prefix <= key }

  lemma {:induction false} StartsWithTail(key: Bytes, prefix: Bytes)
    requires prefix != []
    ensures StartsWith(key, prefix) <==> key != [] && key[0] == prefix[0] && StartsWith(key[1..], prefix[1..])
  {
  }

  lemma {:induction false} PrefixIsLeast(key: Bytes, prefix: Bytes)
    requires StartsWith(key, prefix)
    ensures !Less(key, prefix)
  {
    if prefix != [] {
      StartsWithTail(key, prefix);
      PrefixIsLeast(key[1..], prefix[1..]);
    }
  }

  // The keys agree up to `i`, where one ends or both differ.
  ghost predicate PartAt(a: Bytes, b: Bytes, i: nat) {
    i <= |a| && i < |b| && a[..i] == b[..i] && (i == |a| || a[i] < b[i])
  }

  /**
    The order of keys: one comes before another exactly when it ends first, or holds the smaller
    byte, where they part.
   */
  lemma {:induction false} LessIsBytewise(a: Bytes, b: Bytes)
    ensures Less(a, b) <==> exists i: nat :: PartAt(a, b, i)
  {
    if a != [] && b != [] && a[0] == b[0] {
      LessIsBytewise(a[1..], b[1..]);
      if exists i: nat :: PartAt(a[1..], b[1..], i) {
        var i: nat :| PartAt(a[1..], b[1..], i);
        assert a[..i + 1] == [a[0]] + a[1..][..i] && b[..i + 1] == [b[0]] + b[1..][..i];
        assert PartAt(a, b, i + 1);
      }
      if exists i: nat :: PartAt(a, b, i) {
        var i: nat :| PartAt(a, b, i);
        assert a[1..][..i - 1] == a[..i][1..] && b[1..][..i - 1] == b[..i][1..];
        assert PartAt(a[1..], b[1..], i - 1);
      }
    } else if a != [] && b != [] {
      assert forall i: nat | PartAt(a, b, i) :: i == 0;
      assert PartAt(a, b, 0) <==> a[0] < b[0];
    } else if b != [] {
      assert PartAt(a, b, 0);
    }
  }

  /** Once past the prefix, never back: a key at or after it without the prefix has none of its keys behind it. */
  lemma {:induction false} NoPrefixAfterForeign(foreign: Bytes, key: Bytes, prefix: Bytes)
    requires !Less(foreign, prefix) && !StartsWith(foreign, prefix) && Less(foreign, key)
    ensures !StartsWith(key, prefix)
  {
    if prefix != [] {
      StartsWithTail(foreign, prefix);
      StartsWithTail(key, prefix);
      if foreign != [] && foreign[0] == prefix[0] && key != [] && key[0] == prefix[0] {
        NoPrefixAfterForeign(foreign[1..], key[1..], prefix[1..]);
      }
    }
  }

  // ---------------------------------------------------------------- scanning

  function Prefixed(entries: seq<Entry>, prefix: Bytes): seq<Entry> {
    if entries == [] then []
    else
      var last := entries[|entries| - 1];
      Prefixed(entries[..|entries| - 1], prefix) + if StartsWith(last.key, prefix) then [last] else []
  }

  // The first entry at or after the prefix.
  method LowerBound(entries: seq<Entry>, prefix: Bytes) returns (lo: nat)
    requires SortedKeys(entries)
    ensures lo <= |entries| && (lo < |entries| ==> !Less(entries[lo].key, prefix))
    ensures forall i | 0 <= i < lo :: Less(entries[i].key, prefix)
  {
    lo := 0;
    while lo < |entries| && Less(entries[lo].key, prefix)
      invariant lo <= |entries| && forall i | 0 <= i < lo :: Less(entries[i].key, prefix)
    {
      lo := lo + 1;
    }
  }

  /**
    The early break loses nothing: the entries with the prefix are one contiguous run, starting at
    the first key not below it, and the scan returns exactly them in order.
   */
  method ScanPrefix(entries: seq<Entry>, prefix: Bytes) returns (out: seq<Entry>, ghost lo: nat, ghost hi: nat)
    requires SortedKeys(entries)
    ensures out == Prefixed(entries, prefix)
    ensures lo <= hi <= |entries| && out == entries[lo..hi]
    ensures forall i | 0 <= i < |entries| :: StartsWith(entries[i].key, prefix) <==> lo <= i < hi
  {
    hide Prefixed, Less;
    var start := LowerBound(entries, prefix);
    lo := start;
    var i := start;
    out := [];
    while i < |entries| && StartsWith(entries[i].key, prefix)
      invariant start <= i <= |entries| && out == entries[start..i]
      invariant forall j | start <= j < i :: StartsWith(entries[j].key, prefix)
    {
      out := out + [entries[i]];
      i := i + 1;
    }
    hi := i;
    forall j | 0 <= j < start ensures !StartsWith(entries[j].key, prefix) {
      if StartsWith(entries[j].key, prefix) { PrefixIsLeast(entries[j].key, prefix); }
    }
    NothingBehind(entries, prefix, start, i);
    RunIsPrefixed(entries, prefix, start, i);
  }

  lemma {:induction false} RunIsPrefixed(entries: seq<Entry>, prefix: Bytes, lo: nat, hi: nat)
    requires lo <= hi <= |entries|
    requires forall i | 0 <= i < |entries| :: StartsWith(entries[i].key, prefix) <==> lo <= i < hi
    ensures Prefixed(entries, prefix) == entries[lo..hi]
    decreases |entries|
  {
    hide StartsWith;
    if entries != [] {
      var n := |entries| - 1;
      var init := entries[..n];
      assert forall i | 0 <= i < n :: init[i] == entries[i];
      if lo < hi == |entries| {
        RunIsPrefixed(init, prefix, lo, n);
        assert entries[lo..hi] == init[lo..n] + [entries[n]];
      } else if hi <= n {
        RunIsPrefixed(init, prefix, lo, hi);
        assert entries[lo..hi] == init[lo..hi];
      } else {
        RunIsPrefixed(init, prefix, n, n);
        assert entries[lo..hi] == [] && init[n..n] == [];
      }
    }
  }

  lemma {:induction false} NothingBehind(entries: seq<Entry>, prefix: Bytes, start: nat, i: nat)
    requires SortedKeys(entries) && start <= i <= |entries|
    requires start < |entries| ==> !Less(entries[start].key, prefix)
    requires forall j | start <= j < i :: StartsWith(entries[j].key, prefix)
    requires i < |entries| ==> !StartsWith(entries[i].key, prefix)
    ensures forall j | i <= j < |entries| :: !StartsWith(entries[j].key, prefix)
  {
    if i < |entries| {
      AtLeastPrefix(entries, prefix, start, i);
      forall j | i < j < |entries| ensures !StartsWith(entries[j].key, prefix) {
        NoPrefixAfterForeign(entries[i].key, entries[j].key, prefix);
      }
    }
  }

  lemma {:induction false} LessTransitive(a: Bytes, b: Bytes, c: Bytes)
    requires !Less(a, c) && Less(a, b)
    ensures !Less(b, c)
  {
    if c != [] && b != [] && a != [] && a[0] == b[0] == c[0] {
      LessTransitive(a[1..], b[1..], c[1..]);
    }
  }

  lemma {:induction false} AtLeastPrefix(entries: seq<Entry>, prefix: Bytes, start: nat, i: nat)
    requires SortedKeys(entries) && start <= i < |entries| && !Less(entries[start].key, prefix)
    ensures !Less(entries[i].key, prefix)
  {
    if start < i { LessTransitive(entries[start].key, entries[i].key, prefix); }
  }

  // ---------------------------------------------------------------- times in values

  const I64_RANGE: int := 0x1_0000_0000_0000_0000
  const I64_HALF: int := 0x8000_0000_0000_0000

  // `n` bytes of x, least significant first.
  function LittleEndian(x: nat, n: nat): (r: Bytes)
    ensures |r| == n
  {
    if n == 0 then [] else [x % 256] + LittleEndian(x / 256, n - 1)
  }

  function Unsigned(bytes: Bytes): nat {
    if bytes == [] then 0 else bytes[0] + 256 * Unsigned(bytes[1..])
  }

  function Power256(n: nat): nat {
    if n == 0 then 1 else 256 * Power256(n - 1)
  }

  // Two's complement in eight bytes.
  function MicrosBytes(micros: int): Bytes
    requires -I64_HALF <= micros < I64_HALF
  {
    LittleEndian(if micros < 0 then micros + I64_RANGE else micros, 8)
  }

  // Eight bytes or nothing: older values are empty.
  function MicrosOf(value: Bytes): Option<int> {
    if |value| != 8 then None
    else
      var u := Unsigned(value);
      Some(if u >= I64_HALF then u - I64_RANGE else u)
  }

  lemma {:induction false} UnsignedOfLittleEndian(x: nat, n: nat)
    requires x < Power256(n)
    ensures Unsigned(LittleEndian(x, n)) == x
  {
    if n > 0 {
      UnsignedOfLittleEndian(x / 256, n - 1);
      assert LittleEndian(x, n)[1..] == LittleEndian(x / 256, n - 1);
    }
  }

  lemma {:induction false} LittleEndianOfUnsigned(bytes: Bytes)
    ensures Unsigned(bytes) < Power256(|bytes|)
    ensures LittleEndian(Unsigned(bytes), |bytes|) == bytes
  {
    if bytes != [] {
      LittleEndianOfUnsigned(bytes[1..]);
      LowByte(bytes[0], Unsigned(bytes[1..]));
      assert bytes == [bytes[0]] + bytes[1..];
    }
  }

  lemma LowByte(low: byte, high: nat)
    ensures (low + 256 * high) % 256 == low && (low + 256 * high) / 256 == high
  {
  }

  lemma Power256Of8()
    ensures Power256(8) == I64_RANGE
  {
  }

  /** Every 64-bit time survives being written and read back, and every 8-byte value is one time. */
  lemma MicrosRoundTrip(micros: int, value: Bytes)
    ensures -I64_HALF <= micros < I64_HALF ==> MicrosOf(MicrosBytes(micros)) == Some(micros)
    ensures |value| == 8 ==>
              MicrosOf(value).Some? && -I64_HALF <= MicrosOf(value).value < I64_HALF
                  && MicrosBytes(MicrosOf(value).value) == value
  {
    Power256Of8();
    if -I64_HALF <= micros < I64_HALF {
      UnsignedOfLittleEndian(if micros < 0 then micros + I64_RANGE else micros, 8);
    }
    LittleEndianOfUnsigned(value);
  }

  function ByteAt(value: Bytes, i: nat): nat
    requires i < |value|
  {
    value[i]
  }

  /**
    The bytes of a time: least significant first, negative when the last one's top bit is set;
    other lengths hold none.
   */
  lemma MicrosInBytes(value: Bytes)
    ensures |value| != 8 ==> MicrosOf(value) == None
    ensures |value| == 8 ==>
              var low := ByteAt(value, 0) + 0x100 * ByteAt(value, 1) + 0x1_0000 * ByteAt(value, 2)
                         + 0x100_0000 * ByteAt(value, 3) + 0x1_0000_0000 * ByteAt(value, 4)
                         + 0x100_0000_0000 * ByteAt(value, 5) + 0x1_0000_0000_0000 * ByteAt(value, 6)
                         + 0x100_0000_0000_0000 * ByteAt(value, 7);
              MicrosOf(value) == Some(if ByteAt(value, 7) >= 128 then low - 0x1_0000_0000_0000_0000 else low)
  {
    if |value| == 8 {
      hide Unsigned;
      assert value[0..] == value;
      for i := 0 to 8
        invariant forall k: nat | k < i :: Unsigned(value[k..]) == ByteAt(value, k) + 256 * Unsigned(value[k + 1..])
      {
        HighBytes(value, i);
      }
      NoBytes();
    }
  }

  lemma {:induction false} HighBytes(value: Bytes, i: nat)
    requires i < |value|
    ensures Unsigned(value[i..]) == ByteAt(value, i) + 256 * Unsigned(value[i + 1..])
  {
    assert value[i..][1..] == value[i + 1..];
  }

  lemma NoBytes()
    ensures Unsigned([]) == 0
  {
  }

  // ---------------------------------------------------------------- pruning

  predicate Stale(value: Bytes, cutoff: int) {
    MicrosOf(value).None? || MicrosOf(value).value < cutoff
  }

  predicate Goes(e: Entry, prefix: Bytes, cutoff: int) {
    StartsWith(e.key, prefix) && Stale(e.value, cutoff)
  }

  function Kept(entries: seq<Entry>, prefix: Bytes, cutoff: int): seq<Entry> {
    if entries == [] then []
    else
      var last := entries[|entries| - 1];
      Kept(entries[..|entries| - 1], prefix, cutoff) + if Goes(last, prefix, cutoff) then [] else [last]
  }

  lemma {:induction false} KeptNothingGoes(entries: seq<Entry>, prefix: Bytes, cutoff: int)
    requires forall i | 0 <= i < |entries| :: !Goes(entries[i], prefix, cutoff)
    ensures Kept(entries, prefix, cutoff) == entries
  {
    hide Goes;
    if entries != [] {
      var init, last := entries[..|entries| - 1], entries[|entries| - 1];
      assert forall i | 0 <= i < |init| :: init[i] == entries[i];
      KeptNothingGoes(init, prefix, cutoff);
      assert entries == init + [last];
    }
  }

  lemma {:induction false} KeptElements(entries: seq<Entry>, prefix: Bytes, cutoff: int, e: Entry)
    ensures e in Kept(entries, prefix, cutoff) <==> e in entries && !Goes(e, prefix, cutoff)
    ensures |Kept(entries, prefix, cutoff)| <= |entries|
  {
    hide Goes;
    if entries != [] {
      KeptElements(entries[..|entries| - 1], prefix, cutoff, e);
      assert entries == entries[..|entries| - 1] + [entries[|entries| - 1]];
    }
  }

  lemma {:induction false} KeptInFields(entries: seq<Entry>, prefix: Bytes, cutoff: int)
    ensures forall e :: e in Kept(entries, prefix, cutoff)
                        <==> && e in entries
                             && !(prefix <= e.key && (MicrosOf(e.value).None? || MicrosOf(e.value).value < cutoff))
  {
    hide Kept, MicrosOf;
    forall e
      ensures e in Kept(entries, prefix, cutoff)
              <==> e in entries && !(prefix <= e.key && (MicrosOf(e.value).None? || MicrosOf(e.value).value < cutoff))
    {
      KeptElements(entries, prefix, cutoff, e);
    }
  }

  lemma {:induction false} BeforeRangeStays(entries: seq<Entry>, prefix: Bytes, cutoff: int)
    requires forall i | 0 <= i < |entries| :: Less(entries[i].key, prefix)
    ensures Kept(entries, prefix, cutoff) == entries
  {
    hide StartsWith, Stale, Less;
    forall j | 0 <= j < |entries| ensures !Goes(entries[j], prefix, cutoff) {
      if StartsWith(entries[j].key, prefix) { PrefixIsLeast(entries[j].key, prefix); }
    }
    KeptNothingGoes(entries, prefix, cutoff);
  }

  /**
    Visiting only the range from the prefix on, pruning removes exactly the prefixed entries whose
    value is no 8-byte time or an earlier one, in place, and counts them.
   */
  method PrunePrefixBefore(entries: seq<Entry>, prefix: Bytes, cutoff: int) returns (rest: seq<Entry>, removed: nat)
    requires SortedKeys(entries)
    ensures rest == Kept(entries, prefix, cutoff)
    ensures removed == |entries| - |rest|
  {
    hide StartsWith, Stale, Less;
    var start := LowerBound(entries, prefix);
    rest, removed := entries[..start], 0;
    BeforeRangeStays(entries[..start], prefix, cutoff);
    for i := start to |entries|
      invariant rest == Kept(entries[..i], prefix, cutoff) && removed == i - |rest|
    {
      assert entries[..i + 1][..i] == entries[..i];
      if StartsWith(entries[i].key, prefix) && Stale(entries[i].value, cutoff) {
        removed := removed + 1;
      } else {
        rest := rest + [entries[i]];
      }
    }
    assert entries[..|entries|] == entries;
  }

  // What is left is still in key order.
  lemma {:induction false} KeptIsSorted(entries: seq<Entry>, prefix: Bytes, cutoff: int)
    requires SortedKeys(entries)
    ensures SortedKeys(Kept(entries, prefix, cutoff))
  {
    hide Goes, Less;
    if entries != [] {
      var init, last := entries[..|entries| - 1], entries[|entries| - 1];
      KeptIsSorted(init, prefix, cutoff);
      var kept := Kept(init, prefix, cutoff);
      forall i | 0 <= i < |kept| ensures Less(kept[i].key, last.key) {
        KeptElements(init, prefix, cutoff, kept[i]);
        var j :| 0 <= j < |init| && init[j] == kept[i];
        assert entries[j] == init[j];
      }
    }
  }

  /**
    Pruning leaves other prefixes and younger entries alone, and a second prune at the same or an
    earlier cutoff removes nothing.
   */
  lemma {:induction false} PruneIsIdempotent(entries: seq<Entry>, prefix: Bytes, cutoff: int, earlier: int)
    requires earlier <= cutoff
    ensures forall e :: e in Kept(entries, prefix, cutoff)
                        <==> && e in entries
                             && !(prefix <= e.key && (MicrosOf(e.value).None? || MicrosOf(e.value).value < cutoff))
    ensures Kept(Kept(entries, prefix, cutoff), prefix, earlier) == Kept(entries, prefix, cutoff)
  {
    KeptInFields(entries, prefix, cutoff);
    var kept := Kept(entries, prefix, cutoff);
    forall i | 0 <= i < |kept| ensures !Goes(kept[i], prefix, earlier) {
      assert kept[i] in kept;
    }
    KeptNothingGoes(kept, prefix, earlier);
  }

  /** A key stamped with its acceptance time falls to a prune exactly when that time is before the cutoff. */
  lemma StampedKeyGoesIff(key: Bytes, prefix: Bytes, acceptedAt: int, cutoff: int)
    requires StartsWith(key, prefix) && -I64_HALF <= acceptedAt < I64_HALF
    ensures Goes(Entry(key, MicrosBytes(acceptedAt)), prefix, cutoff) <==> acceptedAt < cutoff
  {
    MicrosRoundTrip(acceptedAt, []);
  }
}
