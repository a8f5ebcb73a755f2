/** Where the host pointer lives inside a guest synchronisation object on LP64. */
module Payload {
  import opened Bits

  /** Pointers have 64 bits. */
  const POINTER_BITS: nat := 64

  /** The header, the static initialiser word, stays untouched. */
  const HEADER_SIZE: nat := 4
  const POINTER_SIZE: nat := 8

  /** Sizes of the guest objects in bytes. */
  const MUTEX_SIZE: nat := 40
  const COND_SIZE: nat := 48
  const RWLOCK_SIZE: nat := 56

  /** Adds the largest header an alignment of 2^k can need, then masks down. */
  function Slot(bits: nat, v: nat, header: nat, k: nat): nat {
    BitAnd(Wrap(v + header + Pow2(k) - 1, bits), Wrap(0 - Pow2(k), bits))
  }

  function PayloadPointer(v: nat): nat {
    Slot(POINTER_BITS, v, HEADER_SIZE, 3)
  }

  /** Without address overflow, add-and-mask gives the least aligned address
      that leaves the header free, for every power-of-two alignment. */
  lemma SlotIsLeastAligned(bits: nat, v: nat, header: nat, k: nat, u: nat)
    requires k <= bits && v + header + Pow2(k) <= Pow2(bits)
    ensures Aligned(Slot(bits, v, header, k), k)
    ensures v + header <= Slot(bits, v, header, k) < v + header + Pow2(k)
    ensures Aligned(u, k) && v + header <= u ==> Slot(bits, v, header, k) <= u
  {
    var w := v + header + Pow2(k) - 1;
    WrapOnce(w, bits);
    Pow2Grows(k, bits);
    WrapOnce(0 - Pow2(k), bits);
    AndNegatedPower(w, bits, k);
    RoundDownIsGreatest(w, k, u);
    if Aligned(u, k) && v + header <= u < RoundDown(w, k) {
      AlignedApart(u, RoundDown(w, k), k);
    }
  }

  lemma {:induction false} AlignedApart(u: nat, v: nat, k: nat)
    requires Aligned(u, k) && Aligned(v, k) && u < v
    ensures u + Pow2(k) <= v
  {
    if k > 0 {
      AlignedApart(u / 2, v / 2, k - 1);
    }
  }

  /** The pointer slot of a 4-aligned guest object is the first 8-aligned address
      behind the header, and ends inside the object. */
  lemma PayloadInside(v: nat, size: nat)
    requires Aligned(v, 2)
    requires size in {MUTEX_SIZE, COND_SIZE, RWLOCK_SIZE}
    requires v + size <= Pow2(POINTER_BITS)
    ensures Aligned(PayloadPointer(v), 3)
    ensures v + HEADER_SIZE <= PayloadPointer(v)
    ensures PayloadPointer(v) + 8 <= v + size
    ensures v + 4 <= PayloadPointer(v) < v + 12
  {
    assert Pow2(3) == 8;
    SlotIsLeastAligned(POINTER_BITS, v, HEADER_SIZE, 3, v);
  }
}
