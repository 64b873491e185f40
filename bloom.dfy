/**
 * The bloom-filter block of a table: an offset array over per-range filter
 * slices, probed with double hashing on 32-bit unsigned arithmetic. Any
 * inconsistency in the offsets counts as a possible match (fail open).
 */
module Bloom {
  import opened Keys
  import opened Binary

  /** The answer of a probe, or a read outside the accessor (an exception in the source). */
  datatype Probe = Match(mayMatch: bool) | ReadOutOfRange

  class BloomFilter {
    /** log2 of the data range covered by one filter slice. */
    const baseLg: byte
    /** Byte position of the offset array inside the accessor. */
    const offset: int32
    /** The filter block's bytes; never written. */
    const accessor: seq<byte>
    /** The policy's key hash. */
    const hashKey: Key -> uint32
    /** Number of offset-array entries. */
    const num: int := DivTrunc(|accessor| - 5 - offset, 4)

    constructor (baseLg: byte, offset: int32, accessor: seq<byte>, hashKey: Key -> uint32)
      ensures this.baseLg == baseLg && this.offset == offset && this.accessor == accessor && this.hashKey == hashKey
      ensures num == DivTrunc(|accessor| - 5 - offset, 4)
    {
      this.baseLg := baseLg;
      this.offset := offset;
      this.accessor := accessor;
      this.hashKey := hashKey;
    }

    /** `ReadInt32` at `at`: four bytes inside the accessor, little-endian signed. */
    function ReadInt32(at: int): (r: Option32)
    {
      if 0 <= at && at + 4 <= |accessor| then Read32(ToInt32(accessor[at..at + 4])) else NoRead
    }

    /** The index into the offset array of the slice covering data position `position`. */
    function SliceIndex(position: int64): int32
    {
      Int32(position / Pow2(baseLg as nat % 64))
    }

    /** The byte at `at` of a slice, and whether its bit `bitpos % 8` is set. */
    function ProbeBit(filterStart: int, bitpos: nat): Probe
    {
      var at := Int32(filterStart + bitpos / 8);
      if 0 <= at < |accessor| then Match(BitAt(accessor[at], bitpos % 8)) else ReadOutOfRange
    }

    /** The bit position probe i tests: the hash of probe i, modulo the bit count. */
    function BitPosition(h: uint32, delta: uint32, i: nat, bits: int): nat
      requires bits != 0
    {
      HashAt(h, delta, i) % bits
    }

    /**
     * Probes i .. k-1 in order: the first unset bit answers false, the first
     * bad read fails, and true if all are set.
     */
    function Probes(filterStart: int, bits: int, h: uint32, delta: uint32, i: nat, k: nat): Probe
      decreases k - i
    {
      if i >= k then Match(true)
      else if bits == 0 then ReadOutOfRange
      else
        var p := ProbeBit(filterStart, BitPosition(h, delta, i, bits));
        if p != Match(true) then p else Probes(filterStart, bits, h, delta, i + 1, k)
    }

    /** The answer of the filter slice [filterStart, filterLimit) for `key`. */
    function SliceMayMatch(key: Key, filterStart: int32, filterLimit: int32): Probe
    {
      var len := Int32(filterLimit as int - filterStart);
      if len < 2 then Match(false)
      else if !(0 <= filterLimit - 1 < |accessor|) then ReadOutOfRange
      else
        var k := accessor[filterLimit - 1];
        if k > 30 then Match(true)
        else
          var h := hashKey(key);
          Probes(filterStart, Int32((len as int - 1) * 8), h, RotateRight17(h), 0, k as nat)
    }

    /**
     * The probe of one filter slice: a slice shorter than 2 bytes matches
     * nothing; a probe count above 30 (reserved encodings) matches anything;
     * otherwise the k bits chosen by double hashing must all be set.
     */
    method SliceKeyMayMatch(key: Key, filterStart: int32, filterLimit: int32) returns (r: Probe)
      ensures r == SliceMayMatch(key, filterStart, filterLimit)
    {
      var len := Int32(filterLimit as int - filterStart);
      if len < 2 {
        return Match(false);
      }
      var bits := Int32((len as int - 1) * 8);
      if !(0 <= filterLimit - 1 < |accessor|) {
        return ReadOutOfRange;
      }
      var k := accessor[filterLimit - 1];
      if k > 30 {
        return Match(true);
      }
      var h := hashKey(key);
      r := ProbeAll(filterStart, bits, h, RotateRight17(h), k as nat);
    }

    /** The k double-hashing probes of one slice, in order, starting from hash h0. */
    method ProbeAll(filterStart: int32, bits: int32, h0: uint32, delta: uint32, k: nat) returns (r: Probe)
      ensures r == Probes(filterStart, bits, h0, delta, 0, k)
    {
      var h: uint32 := h0;
      var i := 0;
      HashAtZero(h0, delta);
      while i < k
        invariant 0 <= i <= k
        invariant h == HashAt(h0, delta, i)
        invariant Probes(filterStart, bits, h0, delta, 0, k) == Probes(filterStart, bits, h0, delta, i, k)
      {
        if bits == 0 {
          return ReadOutOfRange;
        }
        var bitpos := h % bits;
        var at := Int32(filterStart + bitpos / 8);
        if !(0 <= at < |accessor|) {
          return ReadOutOfRange;
        }
        var b := accessor[at];
        if !BitAt(b, bitpos % 8) {
          return Match(false);
        }
        ProbesStep(filterStart, bits, h0, delta, i, k);
        AddModStep(h0, delta, i);
        h := (h + delta) % Two32;
        i := i + 1;
      }
      return Match(true);
    }

    /** A probe whose bit is set passes the decision on to the next probe. */
    lemma ProbesStep(filterStart: int, bits: int, h: uint32, delta: uint32, i: nat, k: nat)
      requires bits != 0 && i < k
      requires ProbeBit(filterStart, BitPosition(h, delta, i, bits)) == Match(true)
      ensures Probes(filterStart, bits, h, delta, i, k) == Probes(filterStart, bits, h, delta, i + 1, k)
    {
    }

    /**
     * The public probe for a key stored in the data range at `position`: a
     * slice index beyond the offset array matches, inconsistent offsets
     * match nothing, and otherwise the slice decides.
     */
    method KeyMayMatch(position: int64, key: Key) returns (r: Probe)
      ensures SliceIndex(position) >= num ==> r == Match(true)
      ensures SliceIndex(position) < num ==>
        var at := Int32(offset + Int32(SliceIndex(position) * 4));
        var start, limit := ReadInt32(at), ReadInt32(Int32(at as int + 4));
        if start.NoRead? || limit.NoRead? then r == ReadOutOfRange
        else if start.value > limit.value || limit.value > |accessor| then r == Match(false)
        else r == SliceMayMatch(key, start.value, limit.value)
    {
      var index := SliceIndex(position);
      if index >= num {
        return Match(true);
      }
      var at := Int32(offset + Int32(index * 4));
      var start := ReadInt32(at);
      var limit := ReadInt32(Int32(at as int + 4));
      if start.NoRead? || limit.NoRead? {
        return ReadOutOfRange;
      }
      if start.value > limit.value || limit.value > |accessor| {
        return Match(false);
      }
      r := SliceKeyMayMatch(key, start.value, limit.value);
    }
  }

  /** A 32-bit value read, or a read outside the accessor. */
  datatype Option32 = Read32(value: int32) | NoRead

  /** The hash probe i tests: h0 + i*delta, wrapped to 32 bits as `uint` addition does. */
  function HashAt(h0: uint32, delta: uint32, i: nat): uint32
  {
    (h0 + i * delta) % Two32
  }

  lemma HashAtZero(h0: uint32, delta: uint32)
    ensures HashAt(h0, delta, 0) == h0
  {
  }

  lemma AddModStep(h0: uint32, delta: uint32, i: nat)
    ensures (HashAt(h0, delta, i) + delta) % Two32 == HashAt(h0, delta, i + 1)
  {
    var x := h0 + i * delta;
    assert x == (x / Two32) * Two32 + x % Two32;
    assert x + delta == (x / Two32) * Two32 + (x % Two32 + delta);
    ModShift(x % Two32 + delta, x / Two32);
    assert h0 + (i + 1) * delta == x + delta;
  }

  lemma ModShift(y: int, q: int)
    ensures (q * Two32 + y) % Two32 == y % Two32
  {
  }

  // ---------------------------------------------------------------------

  /**
   * For every slice index below the entry count, with a non-negative offset
   * and an accessor that fits in 31 bits, both offset-array reads lie inside
   * the accessor.
   */
  lemma OffsetReadsInBounds(f: BloomFilter, index: int)
    requires 0 <= f.offset && |f.accessor| < Two31
    requires 0 <= index < f.num
    ensures var at := Int32(f.offset + Int32(index * 4));
      && at == f.offset + 4 * index && Int32(at as int + 4) == at + 4
      && 0 <= at && at + 8 <= |f.accessor|
      && f.ReadInt32(at).Read32? && f.ReadInt32(Int32(at as int + 4)).Read32?
  {
    assert |f.accessor| - 5 - f.offset >= 4;
    assert 4 * index <= |f.accessor| - 5 - f.offset - 4;
  }

  /** A slice shorter than two bytes matches no key. */
  lemma ShortSliceMatchesNothing(f: BloomFilter, key: Key, filterStart: int32, filterLimit: int32)
    requires filterStart <= filterLimit < filterStart + 2
    ensures f.SliceMayMatch(key, filterStart, filterLimit) == Match(false)
  {
  }

  /** A probe count above 30 in a readable slice matches every key. */
  lemma ReservedProbeCountMatches(f: BloomFilter, key: Key, filterStart: int32, filterLimit: int32)
    requires 0 <= filterStart && filterStart + 2 <= filterLimit <= |f.accessor|
    requires f.accessor[filterLimit - 1] > 30
    ensures f.SliceMayMatch(key, filterStart, filterLimit) == Match(true)
  {
  }

  /** Every probed byte lies strictly before the probe-count byte of the slice. */
  lemma ProbedByteInSlice(filterStart: int32, filterLimit: int32, bitpos: nat)
    requires 0 <= filterStart && filterStart + 2 <= filterLimit
    requires bitpos < (filterLimit - filterStart - 1) * 8
    ensures filterStart <= Int32(filterStart + bitpos / 8) < filterLimit - 1
  {
  }

  /** Probes i .. k-1 all find their bit set. */
  predicate AllBitsSet(f: BloomFilter, filterStart: int, bits: int, h: uint32, delta: uint32, i: nat, k: nat)
    requires bits != 0
  {
    forall j :: i <= j < k ==> f.ProbeBit(filterStart, f.BitPosition(h, delta, j, bits)) == Match(true)
  }

  /**
   * Over a slice whose `bits` bits lie inside the accessor, probes i .. k-1
   * never read out of range and answer true iff each finds its bit set.
   */
  lemma {:induction false} ProbesAllSet(f: BloomFilter, filterStart: int, bits: int, h: uint32, delta: uint32, i: nat, k: nat)
    requires 0 <= filterStart && bits > 0 && filterStart + bits / 8 < |f.accessor| && filterStart + bits / 8 < Two31
    ensures f.Probes(filterStart, bits, h, delta, i, k) == Match(AllBitsSet(f, filterStart, bits, h, delta, i, k))
    decreases k - i
  {
    if i < k {
      var bp := f.BitPosition(h, delta, i, bits);
      assert filterStart + bp / 8 <= filterStart + bits / 8;
      ProbesAllSet(f, filterStart, bits, h, delta, i + 1, k);
    }
  }

  /**
   * For a well-formed slice (non-negative start, 2 bytes up to 256 MiB, so
   * that its bit count fits in 32 bits) with probe count k <= 30, the filter answers
   * true iff all k double-hashing positions have their bit set; in
   * particular k == 0 matches every key.
   */
  lemma SliceMatchesIffAllBitsSet(f: BloomFilter, key: Key, filterStart: int32, filterLimit: int32)
    requires 0 <= filterStart && filterStart + 2 <= filterLimit <= |f.accessor|
    requires filterLimit - filterStart <= 0x1000_0000
    requires f.accessor[filterLimit - 1] <= 30
    ensures var h := f.hashKey(key);
      f.SliceMayMatch(key, filterStart, filterLimit) ==
        Match(AllBitsSet(f, filterStart, (filterLimit - filterStart - 1) * 8, h, RotateRight17(h), 0, f.accessor[filterLimit - 1] as nat))
    ensures f.accessor[filterLimit - 1] == 0 ==> f.SliceMayMatch(key, filterStart, filterLimit) == Match(true)
  {
    var h := f.hashKey(key);
    var bits := (filterLimit - filterStart - 1) * 8;
    assert Int32(filterLimit as int - filterStart) == filterLimit - filterStart;
    assert Int32(bits) == bits;
    ProbesAllSet(f, filterStart, bits, h, RotateRight17(h), 0, f.accessor[filterLimit - 1] as nat);
  }
}
