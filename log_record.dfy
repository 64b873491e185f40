/**
 * The log record of one write group and its decoder. A record is
 *   [sequence: 8][opCount: 4] { [type: 1][keyLength: 7-bit varint][key] ([valueLength: 4][value])? }*
 * with every fixed-width integer little-endian; the value part is present
 * for puts only. The block framing of the log writer and reader is not
 * part of this model: a record is its payload bytes.
 */
module LogRecords {
  import opened Wrappers
  import opened Keys
  import opened Binary
  import opened MemTables
  import opened WriteBatches

  // ---------------------------------------------------------------------
  // Encoding.

  /** The .NET 7-bit encoding of an unsigned value (unsigned LEB128). */
  function VarintBytes(v: nat): (r: seq<byte>)
    ensures 1 <= |r|
    decreases v
  {
    if v < 128 then [v as byte] else [(v % 128 + 128) as byte] + VarintBytes(v / 128)
  }

  /** An operation cannot be logged: its value was never stored in the memtable. */
  datatype EncodeError = MissingHandle | UnreadableHandle

  /** The bytes of one operation; a put's value is read from the memtable arena through its handle. */
  function EncodeOp(o: Operation, arena: seq<seq<byte>>): Result<seq<byte>, EncodeError> {
    var head := [OpCode(o.op)] + VarintBytes(|o.key| % Two32) + o.key;
    if o.op == DeleteOp then Ok(head)
    else if o.handle.None? then Err(MissingHandle)
    else if o.handle.value.index >= |arena| then Err(UnreadableHandle)
    else Ok(head + LittleEndian(o.handle.value.size, 4) + arena[o.handle.value.index])
  }

  /** The bytes of the operations in order, or the first operation's error. */
  function EncodeOps(ops: seq<Operation>, arena: seq<seq<byte>>): Result<seq<byte>, EncodeError> {
    if ops == [] then Ok([])
    else
      match EncodeOp(ops[0], arena)
      case Err(e) => Err(e)
      case Ok(first) => Prepend(first, EncodeOps(ops[1..], arena))
  }

  function Prepend(bytes: seq<byte>, r: Result<seq<byte>, EncodeError>): Result<seq<byte>, EncodeError> {
    if r.Ok? then Ok(bytes + r.value) else r
  }

  /** The record for the operations of a group logged at `sequence`. */
  function EncodeRecord(sequence: nat, ops: seq<Operation>, arena: seq<seq<byte>>): Result<seq<byte>, EncodeError> {
    Prepend(LittleEndian(sequence, 8) + LittleEndian(|ops|, 4), EncodeOps(ops, arena))
  }

  /** The operations of the batches, batch after batch (`SelectMany`). */
  function AllOps(writes: seq<WriteBatch>): seq<Operation>
    reads set w | w in writes
  {
    if writes == [] then [] else AllOps(writes[..|writes| - 1]) + writes[|writes| - 1].ops
  }

  // ---------------------------------------------------------------------
  // Decoding.

  datatype DecodeError = EndOfStream | BadVarint | NegativeLength | InvalidOperationType(code: byte)

  /**
   * `Stream.Read(buf, 0, n)`: copies the next n bytes, or what is left of
   * the stream, over the start of `buf`; the rest of `buf` keeps its old
   * contents.
   */
  function Fill(bytes: seq<byte>, pos: nat, buf: seq<byte>, n: nat): (r: (nat, seq<byte>))
    requires pos <= |bytes| && n <= |buf|
    ensures pos <= r.0 <= |bytes| && |r.1| == |buf|
  {
    var k := if |bytes| - pos < n then |bytes| - pos else n;
    (pos + k, bytes[pos..pos + k] + buf[k..])
  }

  /**
   * The .NET 7-bit decoder: groups of 7 bits, least significant first,
   * while the high bit is set; a sixth byte is an error, and the bits
   * beyond 32 are lost.
   */
  function ReadVarint(bytes: seq<byte>, pos: nat, shift: nat, acc: nat): (r: Result<(int32, nat), DecodeError>)
    requires pos <= |bytes| && shift <= 35
    ensures r.Ok? ==> pos < r.value.1 <= |bytes|
    decreases 35 - shift
  {
    if shift == 35 then Err(BadVarint)
    else if pos == |bytes| then Err(EndOfStream)
    else
      var b := bytes[pos] as nat;
      var acc' := acc + (b % 128) * Pow2(shift);
      if b >= 128 then (if shift + 7 <= 35 then ReadVarint(bytes, pos + 1, shift + 7, acc') else Err(BadVarint))
      else Ok((Int32(acc'), pos + 1))
  }

  /** The number of bytes a put's value copy takes: the length read, clamped to what is left. */
  function CopyLength(size: int, available: nat): (n: nat)
    ensures n <= available
  {
    if size < 0 then 0 else if size > available then available else size
  }

  /** One decoded operation, the position after it and the read buffer after it. */
  datatype OpRead = OpRead(op: Operation, next: nat, buf: seq<byte>)

  /**
   * Decodes the operation at `pos`, with `buf` the 8-byte read buffer that
   * every fixed-width read reuses: the type byte, the key length and the
   * key, then for a put the 4-byte value length (read into the buffer's
   * low half, the high half keeping earlier contents) and the value. A
   * type other than put or delete is rejected once the key has been read.
   */
  function DecodeOp(bytes: seq<byte>, pos: nat, buf: seq<byte>): (r: Result<OpRead, DecodeError>)
    requires pos <= |bytes| && |buf| == 8
    ensures r.Ok? ==> pos <= r.value.next <= |bytes| && |r.value.buf| == 8
    ensures r.Ok? ==> r.value.op.handle.None? && (r.value.op.value.Some? <==> r.value.op.op == PutOp)
  {
    var (p1, b1) := Fill(bytes, pos, buf, 1);
    match ReadVarint(bytes, p1, 0, 0)
    case Err(e) => Err(e)
    case Ok((keyCount, p2)) =>
      if keyCount < 0 then Err(NegativeLength)
      else
        var (p3, key) := Fill(bytes, p2, seq(keyCount, _ => 0 as byte), keyCount);
        DecodeBody(bytes, b1[0], key, p3, b1)
  }

  /** The rest of an operation once its type byte and key are read: nothing for a delete, the value for a put. */
  function DecodeBody(bytes: seq<byte>, code: byte, key: seq<byte>, pos: nat, buf: seq<byte>): (r: Result<OpRead, DecodeError>)
    requires pos <= |bytes| && |buf| == 8
    ensures r.Ok? ==> pos <= r.value.next <= |bytes| && |r.value.buf| == 8
    ensures r.Ok? ==> r.value.op.handle.None? && (r.value.op.value.Some? <==> r.value.op.op == PutOp)
  {
    if code == 1 then Ok(OpRead(Operation(DeleteOp, key, None, None), pos, buf))
    else if code == 0 then
      var (p4, b2) := Fill(bytes, pos, buf, 4);
      var n := CopyLength(Int64(FromLittleEndian(b2)), |bytes| - p4);
      Ok(OpRead(Operation(PutOp, key, Some(bytes[p4..p4 + n]), None), p4 + n, b2))
    else Err(InvalidOperationType(code))
  }

  /** Decodes `remaining` operations starting at `pos`, appending them to `acc`. */
  function DecodeOps(bytes: seq<byte>, pos: nat, buf: seq<byte>, remaining: nat, acc: seq<Operation>): Result<seq<Operation>, DecodeError>
    requires pos <= |bytes| && |buf| == 8
    decreases remaining
  {
    if remaining == 0 then Ok(acc)
    else
      match DecodeOp(bytes, pos, buf)
      case Err(e) => Err(e)
      case Ok(r) => DecodeOps(bytes, r.next, r.buf, remaining - 1, acc + [r.op])
  }

  /** The decoded header: the sequence, and the buffer holding the op count. */
  function Header(bytes: seq<byte>): (r: (nat, nat, seq<byte>))
    ensures r.1 <= |bytes| && |r.2| == 8
  {
    var (p0, b0) := Fill(bytes, 0, [0, 0, 0, 0, 0, 0, 0, 0], 8);
    var (p1, b1) := Fill(bytes, p0, b0, 4);
    (FromLittleEndian(b0), p1, b1)
  }

  /** One record: its sequence and the operations of its batch, or why it cannot be read. */
  function DecodeRecord(bytes: seq<byte>): Result<(nat, seq<Operation>), DecodeError> {
    var (sequence, p1, b1) := Header(bytes);
    var opCount := ToInt32(b1[..4]);
    match DecodeOps(bytes, p1, b1, if opCount < 0 then 0 else opCount, [])
    case Err(e) => Err(e)
    case Ok(ops) => Ok((sequence, ops))
  }

  // ---------------------------------------------------------------------
  // Round trip.

  /** What the log holds of an operation: its key, and for a put the value stored in the memtable. */
  function Logged(o: Operation, arena: seq<seq<byte>>): Operation {
    if o.op == DeleteOp then Operation(DeleteOp, o.key, None, None)
    else Operation(PutOp, o.key, if o.handle.Some? && o.handle.value.index < |arena| then Some(arena[o.handle.value.index]) else None, None)
  }

  function LoggedAll(ops: seq<Operation>, arena: seq<seq<byte>>): (r: seq<Operation>)
    ensures |r| == |ops| && forall i :: 0 <= i < |ops| ==> r[i] == Logged(ops[i], arena)
  {
    if ops == [] then [] else [Logged(ops[0], arena)] + LoggedAll(ops[1..], arena)
  }

  /** A prepared operation within the limits of the formats: keys and values below 2^31 bytes, handle matching its value. */
  predicate Loggable(o: Operation, arena: seq<seq<byte>>) {
    && |o.key| < Two31
    && (o.op == PutOp ==>
         o.handle.Some? && o.handle.value.index < |arena|
         && o.handle.value.size == |arena[o.handle.value.index]| < Two31)
  }

  lemma Pow2Step(s: nat)
    ensures Pow2(s + 7) == 128 * Pow2(s)
  {
    assert Pow2(s + 1) == 2 * Pow2(s);
    assert Pow2(s + 2) == 2 * Pow2(s + 1);
    assert Pow2(s + 3) == 2 * Pow2(s + 2);
    assert Pow2(s + 4) == 2 * Pow2(s + 3);
    assert Pow2(s + 5) == 2 * Pow2(s + 4);
    assert Pow2(s + 6) == 2 * Pow2(s + 5);
    assert Pow2(s + 7) == 2 * Pow2(s + 6);
  }

  lemma MulNonNegative(a: nat, b: nat)
    ensures a * b >= 0
  {
  }

  lemma SplitDigit(v: nat, p: nat)
    ensures (v % 128) * p + (v / 128) * (128 * p) == v * p
  {
    var q, r := v / 128, v % 128;
    assert v == 128 * q + r;
    assert v * p == (128 * q + r) * p == 128 * q * p + r * p;
    assert q * (128 * p) == 128 * q * p;
  }

  /** The 7-bit decoder started at `pos` with `shift` and `acc` yields `value` and stops at `next`. */
  predicate ReadsAs(bytes: seq<byte>, pos: nat, shift: nat, acc: nat, value: int, next: nat)
    requires pos <= |bytes| && shift <= 35
  {
    var r := ReadVarint(bytes, pos, shift, acc);
    r.Ok? && r.value.0 as int == value && r.value.1 == next
  }

  /** The decoder reads back an encoded value below 2^(35 - shift). */
  lemma {:induction false} VarintRoundTrip(bytes: seq<byte>, pos: nat, v: nat, shift: nat, acc: nat)
    requires shift <= 28 && shift % 7 == 0 && v < Pow2(35 - shift)
    requires pos + |VarintBytes(v)| <= |bytes| && bytes[pos..pos + |VarintBytes(v)|] == VarintBytes(v)
    ensures ReadsAs(bytes, pos, shift, acc, Int32(acc + v * Pow2(shift)), pos + |VarintBytes(v)|)
    decreases v, 1
  {
    if v < 128 {
      var p := Pow2(shift);
      assert VarintBytes(v) == [v as byte];
      assert bytes[pos] as nat == v && v % 128 == v;
      assert (v % 128) * p == v * p;
    } else {
      VarintContinued(bytes, pos, v, shift, acc);
    }
  }

  lemma {:induction false} VarintContinued(bytes: seq<byte>, pos: nat, v: nat, shift: nat, acc: nat)
    requires shift <= 28 && shift % 7 == 0 && 128 <= v < Pow2(35 - shift)
    requires pos + |VarintBytes(v)| <= |bytes| && bytes[pos..pos + |VarintBytes(v)|] == VarintBytes(v)
    ensures ReadsAs(bytes, pos, shift, acc, Int32(acc + v * Pow2(shift)), pos + |VarintBytes(v)|)
    decreases v, 0
  {
    var acc' := VarintHead(bytes, pos, v, shift, acc);
    VarintRoundTrip(bytes, pos + 1, v / 128, shift + 7, acc');
    VarintArithmetic(v, shift, acc, acc');
  }

  /** Reading the first byte of a multi-byte encoding: the rest is read from the next position on. */
  lemma VarintHead(bytes: seq<byte>, pos: nat, v: nat, shift: nat, acc: nat) returns (acc': nat)
    requires shift <= 28 && shift % 7 == 0 && 128 <= v < Pow2(35 - shift)
    requires pos + |VarintBytes(v)| <= |bytes| && bytes[pos..pos + |VarintBytes(v)|] == VarintBytes(v)
    ensures acc' == acc + (v % 128) * Pow2(shift)
    ensures shift + 7 <= 28 && (shift + 7) % 7 == 0 && v / 128 < Pow2(35 - (shift + 7))
    ensures pos + 1 + |VarintBytes(v / 128)| == pos + |VarintBytes(v)| <= |bytes|
    ensures bytes[pos + 1..pos + 1 + |VarintBytes(v / 128)|] == VarintBytes(v / 128)
    ensures ReadVarint(bytes, pos, shift, acc) == ReadVarint(bytes, pos + 1, shift + 7, acc')
  {
    VarintFirstByte(bytes, pos, v);
    VarintShiftBound(v, shift);
    MulNonNegative(v % 128, Pow2(shift));
    acc' := acc + (v % 128) * Pow2(shift);
    ReadVarintStep(bytes, pos, shift, acc, v % 128);
  }

  /** The first byte of a multi-byte encoding carries the low seven bits and the continuation bit. */
  lemma VarintFirstByte(bytes: seq<byte>, pos: nat, v: nat)
    requires 128 <= v
    requires pos + |VarintBytes(v)| <= |bytes| && bytes[pos..pos + |VarintBytes(v)|] == VarintBytes(v)
    ensures pos < |bytes| && bytes[pos] >= 128 && bytes[pos] as nat % 128 == v % 128
    ensures pos + 1 + |VarintBytes(v / 128)| == pos + |VarintBytes(v)|
    ensures bytes[pos + 1..pos + 1 + |VarintBytes(v / 128)|] == VarintBytes(v / 128)
  {
    var enc := VarintBytes(v);
    var rest := VarintBytes(v / 128);
    ContinuationDigit(v);
    var first := (v % 128 + 128) as byte;
    assert enc == [first] + rest;
    SliceHead(bytes, pos, enc, first, rest);
  }

  /** A continuation byte: the seven low bits with the high bit set. */
  lemma ContinuationDigit(v: nat)
    ensures 128 <= v % 128 + 128 < 256 && (v % 128 + 128) % 128 == v % 128
  {
  }

  /** A slice holding [first] + rest starts with first, and rest follows it. */
  lemma SliceHead(bytes: seq<byte>, pos: nat, enc: seq<byte>, first: byte, rest: seq<byte>)
    requires pos + |enc| <= |bytes| && bytes[pos..pos + |enc|] == enc && enc == [first] + rest
    ensures pos < |bytes| && bytes[pos] == first && bytes[pos + 1..pos + 1 + |rest|] == rest
  {
    assert bytes[pos + 1..pos + 1 + |rest|] == bytes[pos..pos + |enc|][1..];
    assert bytes[pos] == enc[0];
  }

  /** A value of at least seven bits below 2^(35 - shift) leaves room for another group. */
  lemma VarintShiftBound(v: nat, shift: nat)
    requires shift <= 28 && shift % 7 == 0 && 128 <= v < Pow2(35 - shift)
    ensures shift + 7 <= 28 && (shift + 7) % 7 == 0 && v / 128 < Pow2(35 - (shift + 7))
  {
    Pow2Step(28 - shift);
    Pow2Step(0);
    assert shift != 28;
  }

  lemma VarintArithmetic(v: nat, shift: nat, acc: nat, acc': nat)
    requires acc' == acc + (v % 128) * Pow2(shift)
    ensures acc' + (v / 128) * Pow2(shift + 7) == acc + v * Pow2(shift)
  {
    Pow2Step(shift);
    SplitDigit(v, Pow2(shift));
  }

  /** The key length read at `pos` is n, and the key follows at `next`. */
  predicate LengthAt(bytes: seq<byte>, pos: nat, n: nat, next: nat)
    requires pos <= |bytes|
  {
    var r := ReadVarint(bytes, pos, 0, 0);
    r.Ok? && r.value.0 as int == n && r.value.1 == next
  }

  /** A key length below 2^31 is read back as itself. */
  lemma VarintReadBack(bytes: seq<byte>, pos: nat, v: nat)
    requires v < Two31
    requires pos + |VarintBytes(v)| <= |bytes| && bytes[pos..pos + |VarintBytes(v)|] == VarintBytes(v)
    ensures pos < |bytes| && LengthAt(bytes, pos, v, pos + |VarintBytes(v)|)
  {
    Pow2Bound();
    VarintRoundTrip(bytes, pos, v, 0, 0);
    UnshiftedValue(v);
  }

  lemma UnshiftedValue(v: nat)
    requires v < Two31
    ensures Int32(0 + v * Pow2(0)) == v
  {
    assert Pow2(0) == 1;
  }

  /** One continuation byte read. */
  lemma ReadVarintStep(bytes: seq<byte>, pos: nat, shift: nat, acc: nat, digit: nat)
    requires pos < |bytes| && shift + 7 <= 35 && bytes[pos] >= 128 && bytes[pos] as nat % 128 == digit
    ensures ReadVarint(bytes, pos, shift, acc) == ReadVarint(bytes, pos + 1, shift + 7, acc + digit * Pow2(shift))
  {
  }

  /** A full read of n bytes. */
  lemma FillFull(bytes: seq<byte>, pos: nat, buf: seq<byte>, n: nat)
    requires pos + n <= |bytes| && n <= |buf|
    ensures Fill(bytes, pos, buf, n) == (pos + n, bytes[pos..pos + n] + buf[n..])
  {
  }

  /** The four zero bytes the high half of the read buffer holds while the sequence is below 2^32. */
  predicate HighHalfZero(buf: seq<byte>) {
    |buf| == 8 && buf[4..] == [0, 0, 0, 0]
  }

  /** A slice holding a + b holds a, then b. */
  lemma SliceSplit(bytes: seq<byte>, pos: nat, a: seq<byte>, b: seq<byte>)
    requires pos + |a| + |b| <= |bytes| && bytes[pos..pos + |a| + |b|] == a + b
    ensures bytes[pos..pos + |a|] == a
    ensures bytes[pos + |a|..pos + |a| + |b|] == b
  {
    assert bytes[pos..pos + |a|] == bytes[pos..pos + |a| + |b|][..|a|];
    assert bytes[pos + |a|..pos + |a| + |b|] == bytes[pos..pos + |a| + |b|][|a|..];
  }

  /** The key length of an encoded operation reads back as the key's length. */
  lemma VarintInHead(bytes: seq<byte>, pos: nat, code: byte, key: seq<byte>, tail: seq<byte>)
    requires |key| < Two31
    requires var head := [code] + VarintBytes(|key|) + key;
      pos + |head| + |tail| <= |bytes| && bytes[pos..pos + |head| + |tail|] == head + tail
    ensures pos + 1 < |bytes| && LengthAt(bytes, pos + 1, |key|, pos + 1 + |VarintBytes(|key|)|)
  {
    var vb := VarintBytes(|key|);
    SliceSplit(bytes, pos, [code] + vb + key, tail);
    SliceSplit(bytes, pos, [code] + vb, key);
    SliceSplit(bytes, pos, [code], vb);
    VarintReadBack(bytes, pos + 1, |key|);
  }

  /** Where the type byte, the key and what follows the key lie in an encoded operation. */
  lemma HeadSlices(bytes: seq<byte>, pos: nat, code: byte, vb: seq<byte>, key: seq<byte>, tail: seq<byte>)
    requires pos + 1 + |vb| + |key| + |tail| <= |bytes| && bytes[pos..pos + 1 + |vb| + |key| + |tail|] == [code] + vb + key + tail
    ensures bytes[pos] == code
    ensures bytes[pos + 1 + |vb|..pos + 1 + |vb| + |key|] == key
    ensures bytes[pos + 1 + |vb| + |key|..pos + 1 + |vb| + |key| + |tail|] == tail
  {
    SliceSplit(bytes, pos, [code] + vb + key, tail);
    SliceSplit(bytes, pos, [code] + vb, key);
    assert bytes[pos] == ([code] + vb + key + tail)[0];
  }

  /** The decoder's steps over a type byte, a key length read back as the key's length, and the key, ending at p3 with buffer b1. */
  lemma DecodeOpSteps(bytes: seq<byte>, pos: nat, buf: seq<byte>, code: byte, key: seq<byte>, p2: nat, p3: nat, b1: seq<byte>)
    requires |buf| == 8 && pos < |bytes| && bytes[pos] == code && |key| < Two31
    requires pos + 1 <= |bytes| && LengthAt(bytes, pos + 1, |key|, p2)
    requires p2 + |key| <= |bytes| && bytes[p2..p2 + |key|] == key
    requires p3 == p2 + |key| && b1 == [code] + buf[1..]
    ensures DecodeOp(bytes, pos, buf) == DecodeBody(bytes, code, key, p3, b1)
  {
    assert bytes[pos..pos + 1] == [code];
    assert Fill(bytes, pos, buf, 1) == (pos + 1, b1);
    FillKey(bytes, p2, key);
  }

  /** A put's value is the m bytes after its size field when that field, over the buffer's upper half, reads as m. */
  lemma DecodePutValue(bytes: seq<byte>, pos: nat, buf: seq<byte>, key: seq<byte>, sizeBytes: seq<byte>, high: seq<byte>, m: nat)
    requires |buf| == 8 && pos + 4 + m <= |bytes|
    requires bytes[pos..pos + 4] == sizeBytes && buf[4..] == high
    requires Int64(FromLittleEndian(sizeBytes + high)) == m
    ensures DecodeBody(bytes, 0, key, pos, buf)
      == Ok(OpRead(Operation(PutOp, key, Some(bytes[pos + 4..pos + 4 + m]), None), pos + 4 + m, sizeBytes + high))
  {
    FillFull(bytes, pos, buf, 4);
    assert Fill(bytes, pos, buf, 4) == (pos + 4, sizeBytes + high);
  }

  /** Reading the size field and the value of an encoded put, when the field reads as the value's length. */
  lemma DecodePutBody(bytes: seq<byte>, pos: nat, buf: seq<byte>, key: seq<byte>, sizeBytes: seq<byte>, high: seq<byte>, value: seq<byte>, next: nat)
    requires |buf| == 8 && |sizeBytes| == 4 && buf[4..] == high
    requires Int64(FromLittleEndian(sizeBytes + high)) == |value|
    requires pos + 4 + |value| <= |bytes| && bytes[pos..pos + 4 + |value|] == sizeBytes + value
    requires next == pos + 4 + |value|
    ensures DecodeBody(bytes, 0, key, pos, buf)
      == Ok(OpRead(Operation(PutOp, key, Some(value), None), next, sizeBytes + high))
  {
    SliceSplit(bytes, pos, sizeBytes, value);
    DecodePutValue(bytes, pos, buf, key, sizeBytes, high, |value|);
  }

  /** How a loggable operation is laid out: type byte, key length, key, then for a put the size and the value. */
  lemma OpLayout(o: Operation, arena: seq<seq<byte>>) returns (vb: seq<byte>, tail: seq<byte>)
    requires Loggable(o, arena)
    ensures vb == VarintBytes(|o.key|)
    ensures o.op == DeleteOp ==> tail == []
    ensures o.op == PutOp ==> tail == LittleEndian(|arena[o.handle.value.index]|, 4) + arena[o.handle.value.index]
    ensures EncodeOp(o, arena) == Ok([OpCode(o.op)] + vb + o.key + tail)
  {
    assert |o.key| % Two32 == |o.key|;
    vb := VarintBytes(|o.key|);
    if o.op == DeleteOp {
      tail := [];
      assert [OpCode(o.op)] + vb + o.key + tail == [OpCode(o.op)] + vb + o.key;
    } else {
      var value := arena[o.handle.value.index];
      tail := LittleEndian(|value|, 4) + value;
      assert o.handle.value.size == |value|;
      assert EncodeOp(o, arena) == Ok([OpCode(o.op)] + vb + o.key + LittleEndian(|value|, 4) + value);
      assert [OpCode(o.op)] + vb + o.key + LittleEndian(|value|, 4) + value == [OpCode(o.op)] + vb + o.key + tail;
    }
  }

  /** Decoding a delete laid out at `pos`, given that its key length reads back. */
  lemma DecodeDeleteAt(bytes: seq<byte>, pos: nat, buf: seq<byte>, vb: seq<byte>, key: seq<byte>)
    requires |buf| == 8 && |key| < Two31
    requires pos + 1 + |vb| + |key| <= |bytes| && bytes[pos..pos + 1 + |vb| + |key|] == [1 as byte] + vb + key + []
    requires pos + 1 <= |bytes| && LengthAt(bytes, pos + 1, |key|, pos + 1 + |vb|)
    ensures DecodeOp(bytes, pos, buf) == Ok(OpRead(Operation(DeleteOp, key, None, None), pos + 1 + |vb| + |key|, [1 as byte] + buf[1..]))
  {
    HeadSlices(bytes, pos, 1, vb, key, []);
    DecodeOpSteps(bytes, pos, buf, 1, key, pos + 1 + |vb|, pos + 1 + |vb| + |key|, [1 as byte] + buf[1..]);
  }

  /** Decoding a put laid out at `pos`, given that its key length and its size field read back. */
  lemma DecodePutAt(bytes: seq<byte>, pos: nat, buf: seq<byte>, vb: seq<byte>, key: seq<byte>, sizeBytes: seq<byte>, high: seq<byte>, value: seq<byte>)
    requires |buf| == 8 && |key| < Two31 && |sizeBytes| == 4 && buf[4..] == high
    requires Int64(FromLittleEndian(sizeBytes + high)) == |value|
    requires var n := 1 + |vb| + |key| + |sizeBytes + value|;
      pos + n <= |bytes| && bytes[pos..pos + n] == [0 as byte] + vb + key + (sizeBytes + value)
    requires pos + 1 <= |bytes| && LengthAt(bytes, pos + 1, |key|, pos + 1 + |vb|)
    ensures DecodeOp(bytes, pos, buf)
      == Ok(OpRead(Operation(PutOp, key, Some(value), None), pos + 1 + |vb| + |key| + 4 + |value|, sizeBytes + high))
  {
    HeadSlices(bytes, pos, 0, vb, key, sizeBytes + value);
    var p3 := pos + 1 + |vb| + |key|;
    var b1 := [0 as byte] + buf[1..];
    DecodeOpSteps(bytes, pos, buf, 0, key, pos + 1 + |vb|, p3, b1);
    assert b1[4..] == high;
    DecodePutBody(bytes, p3, b1, key, sizeBytes, high, value, pos + 1 + |vb| + |key| + 4 + |value|);
  }

  /** Decoding the encoding of one loggable operation. */
  lemma DecodeEncodedOp(bytes: seq<byte>, pos: nat, buf: seq<byte>, o: Operation, arena: seq<seq<byte>>)
    requires HighHalfZero(buf) && Loggable(o, arena)
    requires EncodeOp(o, arena).Ok?
    requires pos + |EncodeOp(o, arena).value| <= |bytes|
    requires bytes[pos..pos + |EncodeOp(o, arena).value|] == EncodeOp(o, arena).value
    ensures DecodeOp(bytes, pos, buf).Ok?
    ensures var r := DecodeOp(bytes, pos, buf).value;
      r.op == Logged(o, arena) && r.next == pos + |EncodeOp(o, arena).value| && HighHalfZero(r.buf)
  {
    var vb, tail := OpLayout(o, arena);
    VarintInHead(bytes, pos, OpCode(o.op), o.key, tail);
    if o.op == DeleteOp {
      DecodeDeleteAt(bytes, pos, buf, vb, o.key);
    } else {
      var value := arena[o.handle.value.index];
      var sizeBytes := LittleEndian(|value|, 4);
      SizeReadBack(sizeBytes, buf[4..], |value|);
      DecodePutAt(bytes, pos, buf, vb, o.key, sizeBytes, buf[4..], value);
    }
  }

  /** Reading a key into a fresh array of its length. */
  lemma FillKey(bytes: seq<byte>, pos: nat, key: seq<byte>)
    requires pos + |key| <= |bytes| && bytes[pos..pos + |key|] == key
    ensures Fill(bytes, pos, seq(|key|, _ => 0 as byte), |key|) == (pos + |key|, key)
  {
    assert seq(|key|, _ => 0 as byte)[|key|..] == [];
    assert key + [] == key;
  }

  /** Four size bytes followed by four zero bytes read as the size. */
  lemma SizeReadBack(sizeBytes: seq<byte>, high: seq<byte>, size: nat)
    requires size < Two31 && sizeBytes == LittleEndian(size, 4) && high == [0, 0, 0, 0]
    ensures Int64(FromLittleEndian(sizeBytes + high)) == size
  {
    FromLittleEndianAppend(sizeBytes, high);
    LittleEndianZero(4);
    assert seq(4, _ => 0 as byte) == high;
    assert Pow256(4) == Two32;
    LittleEndianRoundTrip(size, 4);
  }

  /** The encoding of a non-empty list is its first operation's bytes, then the rest's. */
  lemma EncodeOpsFront(ops: seq<Operation>, arena: seq<seq<byte>>)
    requires ops != [] && EncodeOps(ops, arena).Ok?
    ensures EncodeOp(ops[0], arena).Ok? && EncodeOps(ops[1..], arena).Ok?
    ensures EncodeOps(ops, arena).value == EncodeOp(ops[0], arena).value + EncodeOps(ops[1..], arena).value
  {
  }

  /** Decoding a list goes on after its first operation. */
  lemma DecodeOpsStep(bytes: seq<byte>, pos: nat, buf: seq<byte>, remaining: nat, acc: seq<Operation>, r: OpRead, rest: nat, acc': seq<Operation>)
    requires pos <= |bytes| && |buf| == 8 && remaining > 0
    requires DecodeOp(bytes, pos, buf) == Ok(r)
    requires rest == remaining - 1 && acc' == acc + [r.op]
    ensures r.next <= |bytes| && |r.buf| == 8
    ensures DecodeOps(bytes, pos, buf, remaining, acc) == DecodeOps(bytes, r.next, r.buf, rest, acc')
  {
  }

  /** Nothing left to decode: the operations read so far. */
  lemma DecodeOpsDone(bytes: seq<byte>, pos: nat, buf: seq<byte>, acc: seq<Operation>)
    requires pos <= |bytes| && |buf| == 8
    ensures DecodeOps(bytes, pos, buf, 0, acc) == Ok(acc)
  {
  }

  /** Decoding a list stops at an operation that cannot be decoded. */
  lemma DecodeOpsFail(bytes: seq<byte>, pos: nat, buf: seq<byte>, remaining: nat, acc: seq<Operation>, e: DecodeError)
    requires pos <= |bytes| && |buf| == 8 && remaining > 0
    requires DecodeOp(bytes, pos, buf) == Err(e)
    ensures DecodeOps(bytes, pos, buf, remaining, acc) == Err(e)
  {
  }

  /** A decoded operation is what `Put` or `Delete` appends for its key (and value). */
  lemma Replayed(o: Operation)
    requires o.handle.None? && (o.value.Some? <==> o.op == PutOp)
    ensures o.op == DeleteOp ==> o == Operation(DeleteOp, o.key, None, None)
    ensures o.op != DeleteOp ==> o.value.Some? && o == Operation(PutOp, o.key, Some(o.value.value), None)
  {
  }

  /** A suffix that starts with a + b holds a, and then a suffix holding b. */
  lemma SuffixSplit(bytes: seq<byte>, pos: nat, a: seq<byte>, b: seq<byte>)
    requires pos <= |bytes| && bytes[pos..] == a + b
    ensures pos + |a| <= |bytes| && bytes[pos..pos + |a|] == a && bytes[pos + |a|..] == b
  {
    assert bytes[pos..pos + |a|] == bytes[pos..][..|a|];
    assert bytes[pos + |a|..] == bytes[pos..][|a|..];
  }

  /**
   * Decoding the encoding of loggable operations, with the upper four bytes
   * of the read buffer zero, yields the logged operations.
   */
  lemma {:induction false} DecodeEncodedOps(bytes: seq<byte>, pos: nat, buf: seq<byte>, ops: seq<Operation>, arena: seq<seq<byte>>, acc: seq<Operation>)
    requires HighHalfZero(buf)
    requires forall i :: 0 <= i < |ops| ==> Loggable(ops[i], arena)
    requires EncodeOps(ops, arena).Ok?
    requires pos <= |bytes| && bytes[pos..] == EncodeOps(ops, arena).value
    ensures DecodeOps(bytes, pos, buf, |ops|, acc) == Ok(acc + LoggedAll(ops, arena))
    decreases |ops|
  {
    if ops == [] {
      assert acc + LoggedAll(ops, arena) == acc;
    } else {
      var r := DecodeFirstEncoded(bytes, pos, buf, ops, arena);
      var acc' := acc + [r.op];
      DecodeOpsStep(bytes, pos, buf, |ops|, acc, r, |ops[1..]|, acc');
      DecodeEncodedOps(bytes, r.next, r.buf, ops[1..], arena, acc');
      AppendLogged(acc, ops, arena, r.op, acc');
    }
  }

  /** Appending the first logged operation, then the rest. */
  lemma AppendLogged(acc: seq<Operation>, ops: seq<Operation>, arena: seq<seq<byte>>, x: Operation, acc': seq<Operation>)
    requires ops != [] && x == Logged(ops[0], arena) && acc' == acc + [x]
    ensures acc' + LoggedAll(ops[1..], arena) == acc + LoggedAll(ops, arena)
  {
    var rest := LoggedAll(ops[1..], arena);
    assert LoggedAll(ops, arena) == [x] + rest;
    ConcatAssoc(acc, [x], rest);
  }

  lemma ConcatAssoc<T>(a: seq<T>, b: seq<T>, c: seq<T>)
    ensures (a + b) + c == a + (b + c)
  {
  }

  /** Decoding the first of a list of encoded operations leaves the encoding of the rest. */
  lemma DecodeFirstEncoded(bytes: seq<byte>, pos: nat, buf: seq<byte>, ops: seq<Operation>, arena: seq<seq<byte>>) returns (r: OpRead)
    requires HighHalfZero(buf) && ops != [] && Loggable(ops[0], arena)
    requires EncodeOps(ops, arena).Ok?
    requires pos <= |bytes| && bytes[pos..] == EncodeOps(ops, arena).value
    ensures DecodeOp(bytes, pos, buf) == Ok(r)
    ensures r.op == Logged(ops[0], arena) && HighHalfZero(r.buf) && r.next <= |bytes|
    ensures EncodeOps(ops[1..], arena).Ok? && bytes[r.next..] == EncodeOps(ops[1..], arena).value
  {
    EncodeOpsFront(ops, arena);
    var first := EncodeOp(ops[0], arena).value;
    var rest := EncodeOps(ops[1..], arena).value;
    SuffixSplit(bytes, pos, first, rest);
    DecodeEncodedOp(bytes, pos, buf, ops[0], arena);
    r := DecodeOp(bytes, pos, buf).value;
  }

  lemma Pow2Bound()
    ensures Pow2(35) > Two31
  {
    assert Pow2(5) == 32;
    assert Pow2(10) == 1024 by { assert Pow2(10) == 32 * Pow2(5); }
    assert Pow2(20) == 1024 * 1024 by { assert Pow2(20) == 1024 * Pow2(10); }
    assert Pow2(30) == 1024 * 1024 * 1024 by { assert Pow2(30) == 1024 * Pow2(20); }
    assert Pow2(35) == 32 * Pow2(30);
  }

  /**
   * A group logged at a sequence below 2^32 decodes to that sequence and to
   * the group's operations with the values the memtable holds for them.
   */
  lemma RecordRoundTrip(sequence: nat, ops: seq<Operation>, arena: seq<seq<byte>>)
    requires sequence < Two32 && |ops| < Two31
    requires forall i :: 0 <= i < |ops| ==> Loggable(ops[i], arena)
    ensures EncodeRecord(sequence, ops, arena).Ok?
    ensures DecodeRecord(EncodeRecord(sequence, ops, arena).value) == Ok((sequence, LoggedAll(ops, arena)))
  {
    EncodeOpsOk(ops, arena);
    var body := EncodeOps(ops, arena).value;
    var countBytes := LittleEndian(|ops|, 4);
    var bytes := LittleEndian(sequence, 8) + countBytes + body;
    assert EncodeRecord(sequence, ops, arena) == Ok(bytes);
    HeaderOfRecord(sequence, countBytes, body);
    var b1 := countBytes + [0, 0, 0, 0];
    assert b1[..4] == countBytes;
    assert ToInt32(b1[..4]) == |ops| by {
      LittleEndianRoundTrip(|ops|, 4);
      assert Pow256(4) == Two32;
    }
    assert bytes[12..] == body;
    DecodeEncodedOps(bytes, 12, b1, ops, arena, []);
    assert [] + LoggedAll(ops, arena) == LoggedAll(ops, arena);
  }

  /** The header of a record whose sequence is below 2^32: the sequence, and the count bytes over four zero bytes. */
  lemma HeaderOfRecord(sequence: nat, countBytes: seq<byte>, body: seq<byte>)
    requires sequence < Two32 && |countBytes| == 4
    ensures Header(LittleEndian(sequence, 8) + countBytes + body) == (sequence, 12, countBytes + [0, 0, 0, 0])
  {
    var seqBytes := LittleEndian(sequence, 8);
    var bytes := seqBytes + countBytes + body;
    SequenceBytes(sequence);
    assert bytes[0..8] == seqBytes;
    assert [0, 0, 0, 0, 0, 0, 0, 0][8..] == [];
    assert seqBytes + [] == seqBytes;
    assert Fill(bytes, 0, [0, 0, 0, 0, 0, 0, 0, 0], 8) == (8, seqBytes);
    assert bytes[8..12] == countBytes;
    assert Fill(bytes, 8, seqBytes, 4) == (12, countBytes + seqBytes[4..]);
  }

  /** A sequence below 2^32 takes eight bytes whose upper four are zero, and reads back as itself. */
  lemma SequenceBytes(sequence: nat)
    requires sequence < Two32
    ensures LittleEndian(sequence, 8)[4..] == [0, 0, 0, 0]
    ensures FromLittleEndian(LittleEndian(sequence, 8)) == sequence
  {
    assert Pow256(8) == Two64;
    LittleEndianRoundTrip(sequence, 8);
    LittleEndianSplit(sequence, 4, 4);
    assert Pow256(4) == Two32;
    ShiftBytesPastValue(sequence, 4);
    LittleEndianZero(4);
    assert seq(4, _ => 0 as byte) == [0, 0, 0, 0];
  }

  lemma {:induction false} EncodeOpsOk(ops: seq<Operation>, arena: seq<seq<byte>>)
    requires forall i :: 0 <= i < |ops| ==> Loggable(ops[i], arena)
    ensures EncodeOps(ops, arena).Ok?
  {
    if ops != [] {
      EncodeOpsOk(ops[1..], arena);
    }
  }

  /**
   * At sequence 2^32 the round trip fails: the size of a put is read into
   * the buffer still holding the sequence's upper bytes, so it reads as
   * 2^32 + size and the put's value swallows the following operation.
   */
  lemma HighSequenceBreaksRoundTrip()
    ensures var ops := [Operation(PutOp, [], None, Some(MemoryHandle(0, 0))), Operation(DeleteOp, [5], None, None)];
      var arena: seq<seq<byte>> := [[]];
      && (forall i :: 0 <= i < |ops| ==> Loggable(ops[i], arena))
      && EncodeRecord(Two32, ops, arena).Ok?
      && DecodeRecord(EncodeRecord(Two32, ops, arena).value) != Ok((Two32, LoggedAll(ops, arena)))
  {
    var ops := [Operation(PutOp, [], None, Some(MemoryHandle(0, 0))), Operation(DeleteOp, [5], None, None)];
    var arena: seq<seq<byte>> := [[]];
    var enc := HighSequenceEncoding();
    HighSequenceDecoding(enc);
  }

  /** The encoding of the counterexample group: header, the empty put with its zero size, then the delete. */
  lemma HighSequenceEncoding() returns (enc: seq<byte>)
    ensures enc == [0, 0, 0, 0, 1, 0, 0, 0, 2, 0, 0, 0, 0, 0, 0, 0, 0, 0, 1, 1, 5]
    ensures EncodeRecord(Two32, [Operation(PutOp, [], None, Some(MemoryHandle(0, 0))), Operation(DeleteOp, [5], None, None)], [[]]) == Ok(enc)
  {
    var body := HighSequenceBody();
    var header := HighSequenceHeader();
    enc := [0, 0, 0, 0, 1, 0, 0, 0, 2, 0, 0, 0, 0, 0, 0, 0, 0, 0, 1, 1, 5];
    assert header + body == enc;
  }

  /** The operations of the counterexample group: the put's six bytes, then the delete's three. */
  lemma HighSequenceBody() returns (body: seq<byte>)
    ensures body == [0, 0, 0, 0, 0, 0, 1, 1, 5]
    ensures EncodeOps([Operation(PutOp, [], None, Some(MemoryHandle(0, 0))), Operation(DeleteOp, [5], None, None)], [[]]) == Ok(body)
  {
    var ops := [Operation(PutOp, [], None, Some(MemoryHandle(0, 0))), Operation(DeleteOp, [5], None, None)];
    var arena: seq<seq<byte>> := [[]];
    var put := EmptyPutEncoding();
    var del := DeleteFiveEncoding();
    assert ops[1..][1..] == [];
    assert EncodeOps(ops[1..], arena) == Ok(del + []);
    body := [0, 0, 0, 0, 0, 0, 1, 1, 5];
    assert put + (del + []) == body;
  }

  /** A put of an empty key and an empty value: type 0, length 0, size 0. */
  lemma EmptyPutEncoding() returns (put: seq<byte>)
    ensures put == [0, 0, 0, 0, 0, 0]
    ensures EncodeOp(Operation(PutOp, [], None, Some(MemoryHandle(0, 0))), [[]]) == Ok(put)
  {
    assert VarintBytes(0) == [0];
    assert LittleEndian(0, 4) == [0, 0, 0, 0];
    put := [0, 0, 0, 0, 0, 0];
    assert [0 as byte] + [0] + [] + [0, 0, 0, 0] + [] == put;
  }

  /** A delete of the one-byte key 5: type 1, length 1, the key. */
  lemma DeleteFiveEncoding() returns (del: seq<byte>)
    ensures del == [1, 1, 5]
    ensures EncodeOp(Operation(DeleteOp, [5], None, None), [[]]) == Ok(del)
  {
    assert VarintBytes(1) == [1];
    del := [1, 1, 5];
    assert [1 as byte] + [1] + [5] == del;
  }

  /** The header of a two-operation record at sequence 2^32. */
  lemma HighSequenceHeader() returns (header: seq<byte>)
    ensures header == [0, 0, 0, 0, 1, 0, 0, 0, 2, 0, 0, 0]
    ensures LittleEndian(Two32, 8) + LittleEndian(2, 4) == header
  {
    assert LittleEndian(0, 3) == [0, 0, 0];
    assert LittleEndian(1, 4) == [1] + LittleEndian(0, 3);
    assert LittleEndian(0x100, 5) == [0] + LittleEndian(1, 4);
    assert LittleEndian(0x1_0000, 6) == [0] + LittleEndian(0x100, 5);
    assert LittleEndian(0x100_0000, 7) == [0] + LittleEndian(0x1_0000, 6);
    assert LittleEndian(Two32, 8) == [0] + LittleEndian(0x100_0000, 7);
    assert LittleEndian(2, 4) == [2] + LittleEndian(0, 3);
    header := [0, 0, 0, 0, 1, 0, 0, 0, 2, 0, 0, 0];
  }

  /** The decoder reads the counterexample's put size as 2^32, so the put takes the delete's bytes and the second read finds none. */
  lemma HighSequenceDecoding(enc: seq<byte>)
    requires enc == [0, 0, 0, 0, 1, 0, 0, 0, 2, 0, 0, 0, 0, 0, 0, 0, 0, 0, 1, 1, 5]
    ensures DecodeRecord(enc) == Err(EndOfStream)
  {
    var b0: seq<byte> := [0, 0, 0, 0, 1, 0, 0, 0];
    var b1: seq<byte> := [2, 0, 0, 0, 1, 0, 0, 0];
    var b: seq<byte> := [0, 0, 0, 0, 1, 0, 0, 0];
    HighSequenceHeaderRead(enc, b0, b1);
    assert ToInt32(b1[..4]) == 2 by {
      assert b1[..4] == [2, 0, 0, 0];
      assert FromLittleEndian([2, 0, 0, 0]) == 2;
    }
    HighSequenceFirstOp(enc);
    HighSequenceSecondOp(enc);
    assert DecodeOps(enc, 12, b1, 2, []) == Err(EndOfStream);
  }

  /** The counterexample's header: sequence 2^32, and the count bytes read over the sequence's upper half. */
  lemma HighSequenceHeaderRead(enc: seq<byte>, b0: seq<byte>, b1: seq<byte>)
    requires enc == [0, 0, 0, 0, 1, 0, 0, 0, 2, 0, 0, 0, 0, 0, 0, 0, 0, 0, 1, 1, 5]
    requires b0 == [0, 0, 0, 0, 1, 0, 0, 0] && b1 == [2, 0, 0, 0, 1, 0, 0, 0]
    ensures Header(enc) == (Two32, 12, b1)
  {
    assert enc[0..8] == b0;
    assert [0, 0, 0, 0, 0, 0, 0, 0][8..] == [];
    assert b0 + [] == b0;
    assert Fill(enc, 0, [0, 0, 0, 0, 0, 0, 0, 0], 8) == (8, b0);
    assert enc[8..12] == [2, 0, 0, 0];
    assert [2, 0, 0, 0] + b0[4..] == b1;
    assert Fill(enc, 8, b0, 4) == (12, b1);
    HighWordValue(b0);
  }

  /** Eight bytes with only byte 4 set to one read as 2^32. */
  lemma HighWordValue(b: seq<byte>)
    requires b == [0, 0, 0, 0, 1, 0, 0, 0]
    ensures FromLittleEndian(b) == Two32
  {
    var one: seq<byte> := [1, 0, 0, 0];
    assert FromLittleEndian(one) == 1 by {
      assert FromLittleEndian([0 as byte]) == 0;
      assert FromLittleEndian([0 as byte, 0]) == 0 by { assert [0 as byte, 0][1..] == [0]; }
      assert FromLittleEndian([0 as byte, 0, 0]) == 0 by { assert [0 as byte, 0, 0][1..] == [0, 0]; }
      assert one[1..] == [0, 0, 0];
    }
    var x1 := [0 as byte] + one;
    var x2 := [0 as byte] + x1;
    var x3 := [0 as byte] + x2;
    LowZeroByte(one);
    LowZeroByte(x1);
    LowZeroByte(x2);
    LowZeroByte(x3);
    assert [0 as byte] + x3 == b;
  }

  /** The put's size reads as 2^32 and its value is clamped to the three bytes of the delete. */
  lemma HighSequenceFirstOp(enc: seq<byte>)
    requires enc == [0, 0, 0, 0, 1, 0, 0, 0, 2, 0, 0, 0, 0, 0, 0, 0, 0, 0, 1, 1, 5]
    ensures DecodeOp(enc, 12, [2, 0, 0, 0, 1, 0, 0, 0])
      == Ok(OpRead(Operation(PutOp, [], Some([1, 1, 5]), None), 21, [0, 0, 0, 0, 1, 0, 0, 0]))
  {
    var b1: seq<byte> := [2, 0, 0, 0, 1, 0, 0, 0];
    var b: seq<byte> := [0, 0, 0, 0, 1, 0, 0, 0];
    assert enc[12] == 0 && enc[14..14] == [];
    HighSequenceKeyLength(enc);
    assert [0 as byte] + b1[1..] == b;
    DecodeOpSteps(enc, 12, b1, 0, [], 14, 14, b);
    HighSequenceFirstValue(enc, b);
  }

  /** The put's key length is the single byte 0. */
  lemma HighSequenceKeyLength(enc: seq<byte>)
    requires enc == [0, 0, 0, 0, 1, 0, 0, 0, 2, 0, 0, 0, 0, 0, 0, 0, 0, 0, 1, 1, 5]
    ensures LengthAt(enc, 13, 0, 14)
  {
    assert enc[13] == 0 && Pow2(0) == 1;
  }

  /** After the empty key, the size over the sequence's upper bytes reads as 2^32 and the copy is clamped to what is left. */
  lemma HighSequenceFirstValue(enc: seq<byte>, b: seq<byte>)
    requires enc == [0, 0, 0, 0, 1, 0, 0, 0, 2, 0, 0, 0, 0, 0, 0, 0, 0, 0, 1, 1, 5]
    requires b == [0, 0, 0, 0, 1, 0, 0, 0]
    ensures DecodeBody(enc, 0, [], 14, b) == Ok(OpRead(Operation(PutOp, [], Some([1, 1, 5]), None), 21, b))
  {
    assert enc[14..18] == [0, 0, 0, 0];
    assert [0, 0, 0, 0] + b[4..] == b;
    assert Fill(enc, 14, b, 4) == (18, b);
    HighWordValue(b);
    assert enc[18..21] == [1, 1, 5];
  }

  /** A zero low byte multiplies the value of the rest by 256. */
  lemma LowZeroByte(x: seq<byte>)
    ensures FromLittleEndian([0 as byte] + x) == 256 * FromLittleEndian(x)
  {
    assert ([0 as byte] + x)[1..] == x;
  }

  /** At the end of the record the next type byte and key length cannot be read. */
  lemma HighSequenceSecondOp(enc: seq<byte>)
    requires enc == [0, 0, 0, 0, 1, 0, 0, 0, 2, 0, 0, 0, 0, 0, 0, 0, 0, 0, 1, 1, 5]
    ensures DecodeOp(enc, 21, [0, 0, 0, 0, 1, 0, 0, 0]) == Err(EndOfStream)
  {
    var b: seq<byte> := [0, 0, 0, 0, 1, 0, 0, 0];
    assert enc[21..21] + b[0..] == b;
    assert Fill(enc, 21, b, 1) == (21, b);
    assert ReadVarint(enc, 21, 0, 0) == Err(EndOfStream);
  }

  // ---------------------------------------------------------------------
  // Writing and reading the log.

  /**
   * `WriteToLogAsync`: the record of a write group, written field by field.
   * The operations of all batches are taken batch after batch; the record
   * holds their total count.
   */
  method WriteToLog(writes: seq<WriteBatch>, sequence: nat, mem: MemTable) returns (r: Result<seq<byte>, EncodeError>)
    ensures r == EncodeRecord(sequence, AllOps(writes), mem.arena)
  {
    var all: seq<Operation> := [];
    var b := 0;
    while b < |writes|
      invariant 0 <= b <= |writes| && all == AllOps(writes[..b])
    {
      assert writes[..b + 1][..b] == writes[..b];
      all := all + writes[b].ops;
      b := b + 1;
    }
    assert writes[..b] == writes;
    var out := LittleEndian(sequence, 8) + LittleEndian(|all|, 4);
    var i := 0;
    while i < |all|
      invariant 0 <= i <= |all|
      invariant Prepend(out, EncodeOps(all[i..], mem.arena)) == EncodeRecord(sequence, all, mem.arena)
    {
      assert all[i..][1..] == all[i + 1..];
      match EncodeOp(all[i], mem.arena)
      case Err(e) =>
        return Err(e);
      case Ok(bytes) =>
        PrependTwice(out, bytes, EncodeOps(all[i + 1..], mem.arena));
        out := out + bytes;
      i := i + 1;
    }
    assert all[i..] == [] && out + [] == out;
    return Ok(out);
  }

  lemma PrependTwice(a: seq<byte>, b: seq<byte>, r: Result<seq<byte>, EncodeError>)
    ensures Prepend(a, Prepend(b, r)) == Prepend(a + b, r)
  {
    if r.Ok? {
      ConcatAssoc(a, b, r.value);
    }
  }

  /** One record read back: its sequence and a batch holding all of its operations. */
  datatype LogReadResult = LogReadResult(writeSequence: nat, writeBatch: WriteBatch)

  /** The records of a log decoded in order, or the error of the first record that cannot be decoded. */
  function DecodeLog(records: seq<seq<byte>>): (r: Result<seq<(nat, seq<Operation>)>, DecodeError>)
    ensures r.Ok? ==> |r.value| == |records|
  {
    Collect(DecodeRecords(records))
  }

  /** Each record decoded on its own. */
  function DecodeRecords(records: seq<seq<byte>>): (r: seq<Result<(nat, seq<Operation>), DecodeError>>)
    ensures |r| == |records|
  {
    MapSeq(DecodeRecord, records)
  }

  /** f applied to every element, in order. */
  function MapSeq<A, B>(f: A -> B, xs: seq<A>): (r: seq<B>)
    ensures |r| == |xs|
  {
    if xs == [] then [] else MapSeq(f, xs[..|xs| - 1]) + [f(xs[|xs| - 1])]
  }

  /** The i-th element of the mapped sequence is f of the i-th element. */
  lemma {:induction false} MapSeqAt<A, B>(f: A -> B, xs: seq<A>, i: nat)
    requires i < |xs|
    ensures MapSeq(f, xs)[i] == f(xs[i])
  {
    if i < |xs| - 1 {
      var shorter := xs[..|xs| - 1];
      MapSeqAt(f, shorter, i);
      assert shorter[i] == xs[i];
    }
  }

  /** All the values of `rs` in order, or the first error among them. */
  function Collect<T>(rs: seq<Result<T, DecodeError>>): (r: Result<seq<T>, DecodeError>)
    ensures r.Ok? ==> |r.value| == |rs|
  {
    if rs == [] then Ok([])
    else
      match Collect(rs[..|rs| - 1])
      case Err(e) => Err(e)
      case Ok(prefix) =>
        match rs[|rs| - 1]
        case Err(e) => Err(e)
        case Ok(last) => Ok(prefix + [last])
  }

  /**
   * `ReadFromLog`: the records of a log, each rebuilt as a fresh batch
   * through `Put` and `Delete`. An operation of unknown type, a malformed
   * key length or a record cut short fails the whole read.
   */
  method ReadFromLog(records: seq<seq<byte>>) returns (r: Result<seq<LogReadResult>, DecodeError>)
    ensures r.Err? <==> DecodeLog(records).Err?
    ensures r.Err? ==> r.error == DecodeLog(records).error
    ensures r.Ok? ==> |r.value| == |records| && forall k :: 0 <= k < |records| ==>
      && fresh(r.value[k].writeBatch)
      && r.value[k].writeSequence == DecodeLog(records).value[k].0
      && r.value[k].writeBatch.ops == DecodeLog(records).value[k].1
  {
    var results: seq<LogReadResult> := [];
    ghost var rs := DecodeRecords(records);
    ghost var decoded: seq<(nat, seq<Operation>)> := [];
    var k := 0;
    while k < |records|
      invariant 0 <= k <= |records| && |results| == k
      invariant Collect(rs[..k]) == Ok(decoded)
      invariant forall j :: 0 <= j < k ==>
        && fresh(results[j].writeBatch)
        && results[j].writeSequence == decoded[j].0
        && results[j].writeBatch.ops == decoded[j].1
    {
      var rec := ReadRecord(records, k);
      if rec.Err? {
        CollectStops(rs, k + 1, rec.error);
        return Err(rec.error);
      }
      CollectStep(rs, k, decoded, (rec.value.writeSequence, rec.value.writeBatch.ops));
      decoded := decoded + [(rec.value.writeSequence, rec.value.writeBatch.ops)];
      results := results + [rec.value];
      k := k + 1;
    }
    assert rs[..k] == rs;
    return Ok(results);
  }

  /** A value extends the collected prefix by one. */
  lemma CollectStep<T>(rs: seq<Result<T, DecodeError>>, k: nat, decoded: seq<T>, last: T)
    requires k < |rs| && Collect(rs[..k]) == Ok(decoded) && rs[k] == Ok(last)
    ensures Collect(rs[..k + 1]) == Ok(decoded + [last])
  {
    assert rs[..k + 1][..k] == rs[..k];
  }

  /** An error after a collected prefix is the error of the whole collection. */
  lemma {:induction false} CollectStops<T>(rs: seq<Result<T, DecodeError>>, n: nat, e: DecodeError)
    requires 0 < n <= |rs| && Collect(rs[..n - 1]).Ok? && rs[n - 1] == Err(e)
    ensures Collect(rs) == Err(e)
    decreases |rs|
  {
    assert rs[..n][..n - 1] == rs[..n - 1];
    if n < |rs| {
      var shorter := rs[..|rs| - 1];
      assert shorter[..n] == rs[..n] && shorter[..n - 1] == rs[..n - 1];
      CollectStops(shorter, n, e);
    } else {
      assert rs[..n - 1] == rs[..|rs| - 1];
    }
  }

  /** Record k: the header, then `opCount` operations replayed into a fresh batch. */
  method ReadRecord(records: seq<seq<byte>>, k: nat) returns (r: Result<LogReadResult, DecodeError>)
    requires k < |records|
    ensures r.Err? <==> DecodeRecords(records)[k].Err?
    ensures r.Err? ==> DecodeRecords(records)[k] == Err(r.error)
    ensures r.Ok? ==> fresh(r.value.writeBatch)
    ensures r.Ok? ==> DecodeRecords(records)[k] == Ok((r.value.writeSequence, r.value.writeBatch.ops))
  {
    MapSeqAt(DecodeRecord, records, k);
    var bytes := records[k];
    var (p0, b0) := Fill(bytes, 0, [0, 0, 0, 0, 0, 0, 0, 0], 8);
    var sequence := FromLittleEndian(b0);
    var (p1, b1) := Fill(bytes, p0, b0, 4);
    assert Header(bytes) == (sequence, p1, b1);
    var opCount := ToInt32(b1[..4]);
    var batch := new WriteBatch();
    var e := ReadOps(bytes, p1, b1, if opCount < 0 then 0 else opCount, batch);
    if e.Some? {
      return Err(e.value);
    }
    return Ok(LogReadResult(sequence, batch));
  }

  /** The loop over the operations of a record: each decoded operation is added to `batch` with `Put` or `Delete`. */
  method ReadOps(bytes: seq<byte>, pos0: nat, buf0: seq<byte>, count: nat, batch: WriteBatch) returns (e: Option<DecodeError>)
    requires pos0 <= |bytes| && |buf0| == 8
    modifies batch
    ensures e.None? <==> DecodeOps(bytes, pos0, buf0, count, old(batch.ops)).Ok?
    ensures e.Some? ==> DecodeOps(bytes, pos0, buf0, count, old(batch.ops)) == Err(e.value)
    ensures e.None? ==> DecodeOps(bytes, pos0, buf0, count, old(batch.ops)) == Ok(batch.ops)
  {
    var pos: nat, buf := pos0, buf0;
    var remaining: nat := count;
    ghost var target := DecodeOps(bytes, pos0, buf0, count, batch.ops);
    while remaining > 0
      invariant pos <= |bytes| && |buf| == 8
      invariant target == DecodeOps(bytes, pos, buf, remaining, batch.ops)
    {
      var err, next, buf', left := ReadOp(bytes, pos, buf, remaining, batch);
      if err.Some? {
        return err;
      }
      pos, buf, remaining := next, buf', left;
    }
    DecodeOpsDone(bytes, pos, buf, batch.ops);
    return None;
  }

  /**
   * One operation of a record: its type byte, key length and key, and for
   * a put its value, added to `batch`; decoding goes on at `next` with the
   * read buffer `buf'`.
   */
  method ReadOp(bytes: seq<byte>, pos: nat, buf: seq<byte>, remaining: nat, batch: WriteBatch)
    returns (err: Option<DecodeError>, next: nat, buf': seq<byte>, left: nat)
    requires pos <= |bytes| && |buf| == 8 && remaining > 0
    modifies batch
    ensures left == remaining - 1
    ensures err.Some? ==> DecodeOps(bytes, pos, buf, remaining, old(batch.ops)) == Err(err.value)
    ensures err.None? ==> next <= |bytes| && |buf'| == 8
    ensures err.None? ==> DecodeOps(bytes, pos, buf, remaining, old(batch.ops)) == DecodeOps(bytes, next, buf', left, batch.ops)
  {
    var d := DecodeOp(bytes, pos, buf);
    if d.Err? {
      DecodeOpsFail(bytes, pos, buf, remaining, batch.ops, d.error);
      return Some(d.error), pos, buf, remaining - 1;
    }
    var o := d.value;
    DecodeOpsStep(bytes, pos, buf, remaining, batch.ops, o, remaining - 1, batch.ops + [o.op]);
    Replayed(o.op);
    if o.op.op == DeleteOp {
      batch.Delete(o.op.key);
    } else {
      batch.Put(o.op.key, o.op.value.value);
    }
    return None, o.next, o.buf, remaining - 1;
  }
}
