/**
 * Keys: user keys are byte strings ordered by the default bytewise
 * comparator; internal keys add a sequence number and an item type and sort
 * by user key ascending, then sequence number descending (newest first),
 * then type descending.
 *
 * The proofs about key ranges elsewhere only use the total-order lemmas
 * proved here, never the bytewise definition itself.
 */
module Keys {

  newtype byte = x: int | 0 <= x < 256

  type Key = seq<byte>

  /** Three-way bytewise comparison: negative, zero or positive. */
  function Compare(a: Key, b: Key): (r: int)
    ensures -1 <= r <= 1
    ensures r == 0 <==> a == b
    decreases |a|
  {
    if a == [] then (if b == [] then 0 else -1)
    else if b == [] then 1
    else if a[0] < b[0] then -1
    else if a[0] > b[0] then 1
    else
      assert a == [a[0]] + a[1..] && b == [b[0]] + b[1..];
      Compare(a[1..], b[1..])
  }

  lemma {:induction false} CompareAntisymmetric(a: Key, b: Key)
    ensures Compare(a, b) == -Compare(b, a)
    decreases |a|
  {
    if a != [] && b != [] && a[0] == b[0] {
      CompareAntisymmetric(a[1..], b[1..]);
    }
  }

  lemma {:induction false} CompareTransitive(a: Key, b: Key, c: Key)
    requires Compare(a, b) <= 0 && Compare(b, c) <= 0
    ensures Compare(a, c) <= 0
    ensures Compare(a, b) < 0 || Compare(b, c) < 0 ==> Compare(a, c) < 0
    decreases |a|
  {
    if a != [] && b != [] && c != [] && a[0] == b[0] && b[0] == c[0] {
      CompareTransitive(a[1..], b[1..], c[1..]);
    }
    CompareAntisymmetric(a, b);
  }

  /** The item type of an internal key, with the tag it is encoded with. */
  datatype ItemType = Deletion | Value

  function Tag(t: ItemType): nat {
    match t
    case Deletion => 0
    case Value => 1
  }

  /** The type a seek key is built with: it sorts before every other type. */
  const ValueForSeek: ItemType := Value

  /** The largest sequence number, 2^56 - 1. */
  const MaxSequenceNumber: nat := 0xFF_FFFF_FFFF_FFFF

  datatype InternalKey = InternalKey(userKey: Key, sequence: nat, itemType: ItemType)

  /** The key the parameterless `InternalKey` constructor yields. */
  const EmptyInternalKey: InternalKey := InternalKey([], 0, Deletion)

  /** The internal-key comparator. */
  function CompareInternal(a: InternalKey, b: InternalKey): (r: int)
    ensures -1 <= r <= 1
    ensures r == 0 <==> a == b
  {
    var c := Compare(a.userKey, b.userKey);
    if c != 0 then c
    else if a.sequence > b.sequence then -1
    else if a.sequence < b.sequence then 1
    else if Tag(a.itemType) > Tag(b.itemType) then -1
    else if Tag(a.itemType) < Tag(b.itemType) then 1
    else 0
  }

  lemma CompareInternalAntisymmetric(a: InternalKey, b: InternalKey)
    ensures CompareInternal(a, b) == -CompareInternal(b, a)
  {
    CompareAntisymmetric(a.userKey, b.userKey);
  }

  lemma CompareInternalTransitive(a: InternalKey, b: InternalKey, c: InternalKey)
    requires CompareInternal(a, b) <= 0 && CompareInternal(b, c) <= 0
    ensures CompareInternal(a, c) <= 0
    ensures CompareInternal(a, b) < 0 || CompareInternal(b, c) < 0 ==> CompareInternal(a, c) < 0
  {
    CompareInternalAntisymmetric(a, b);
    CompareAntisymmetric(a.userKey, b.userKey);
    CompareAntisymmetric(b.userKey, c.userKey);
    CompareAntisymmetric(a.userKey, c.userKey);
    if Compare(a.userKey, b.userKey) <= 0 && Compare(b.userKey, c.userKey) <= 0 {
      CompareTransitive(a.userKey, b.userKey, c.userKey);
    }
  }

  /**
   * For one user key, a larger sequence number sorts first, and a seek key
   * built with the maximal sequence number sorts before every entry of that
   * user key.
   */
  lemma NewestFirst(k: Key, s1: nat, t1: ItemType, s2: nat, t2: ItemType)
    requires s1 > s2
    ensures CompareInternal(InternalKey(k, s1, t1), InternalKey(k, s2, t2)) < 0
  {
  }
}
