/**
 Circular rings of the MHI host: byte pointers `rp` and `wp` that move by the element size
 and wrap at `base + len`. The ghost indices give each pointer its slot number.
*/
module Rings {
  import opened Arith

  /** Slot number after moving k slots past another one, for k at most one lap. */
  function Wrap(k: nat, n: nat): (r: nat)
    requires k < 2 * n
  {
    if k < n then k else k - n
  }

  /** How many slots lie from `from` up to `to`, walking forwards. */
  function Distance(from: nat, to: nat, n: nat): (d: nat)
    requires from < n && to < n
    ensures d < n && Wrap(from + d, n) == to
  {
    if from <= to then to - from else to + n - from
  }

  lemma DistanceUnique(from: nat, d: nat, n: nat)
    requires from < n && d < n
    ensures Distance(from, Wrap(from + d, n), n) == d
  {
  }

  lemma DistanceOfSuccessor(from: nat, slot: nat, n: nat)
    requires from < n && slot < n
    ensures var d := Distance(from, slot, n);
            Distance(from, Wrap(slot + 1, n), n) == if d == n - 1 then 0 else d + 1
  {
  }

  /** A walk up to and including `slot` with `left` slots to go reaches `slot` on its last turn. */
  lemma LastTurn(from: nat, slot: nat, n: nat, left: nat)
    requires from < n && slot < n && left > 0
    requires Distance(from, Wrap(slot + 1, n), n) == left
    ensures from == slot <==> left == 1
  {
  }

  lemma WalkStep(from: nat, next: nat, slot: nat, n: nat, left: nat, rest: nat)
    requires from < n && slot < n && next == Wrap(from + 1, n) && rest + 1 == left
    requires Distance(from, Wrap(slot + 1, n), n) == left
    ensures Distance(next, Wrap(slot + 1, n), n) == rest
  {
  }

  /** Byte offset of slot k, counted up one element at a time. */
  ghost function Offset(k: nat, size: nat): (o: nat) {
    if k == 0 then 0 else Offset(k - 1, size) + size
  }

  lemma {:induction false} OffsetOrder(j: nat, k: nat, size: nat)
    requires j < k
    ensures Offset(j, size) + size <= Offset(k, size)
  {
    if j < k - 1 {
      OffsetOrder(j, k - 1, size);
    }
  }

  lemma {:induction false} OffsetDifference(j: nat, k: nat, size: nat)
    requires j <= k
    ensures Offset(k, size) - Offset(j, size) == Offset(k - j, size)
  {
    if j < k {
      OffsetDifference(j, k - 1, size);
    }
  }

  /** Dividing a slot's offset by the element size gives the slot number back. */
  lemma {:induction false} OffsetIndex(k: nat, size: nat)
    requires size > 0
    ensures Offset(k, size) == k * size
    ensures Offset(k, size) / size == k
  {
    if k > 0 {
      OffsetIndex(k - 1, size);
    }
    MultipleOf(size, k);
  }

  /** One `struct mhi_ring`. `ctxtWp` is the 64-bit word of the device context it points to. */
  class Ring {
    const base: nat
    const iommuBase: nat
    const elSize: nat
    const len: nat
    const elements: nat
    var rp: nat
    var wp: nat
    var ctxtWp: nat
    ghost var rpIx: nat
    ghost var wpIx: nat

    /** The pointers are slot addresses inside the ring. */
    ghost predicate Valid()
      reads `rp, `wp, `rpIx, `wpIx
    {
      && elSize > 0
      && elements > 0
      && len == Offset(elements, elSize)
      && rpIx < elements
      && wpIx < elements
      && rp == SlotAddr(rpIx)
      && wp == SlotAddr(wpIx)
    }

    ghost function SlotAddr(k: nat): (a: nat)
    {
      base + Offset(k, elSize)
    }

    /** Elements between `rp` and `wp`. */
    ghost function Occupancy(): (d: nat)
      requires Valid()
      reads `rp, `wp, `rpIx, `wpIx
    {
      Distance(rpIx, wpIx, elements)
    }

    constructor (base: nat, iommuBase: nat, elSize: nat, elements: nat)
      requires elSize > 0 && elements > 0
      ensures Valid()
      ensures this.base == base && this.iommuBase == iommuBase
      ensures this.elSize == elSize && this.elements == elements
      ensures rpIx == 0 && wpIx == 0 && ctxtWp == iommuBase
    {
      this.base, this.iommuBase, this.elSize, this.elements := base, iommuBase, elSize, elements;
      len := elements * elSize;
      OffsetIndex(elements, elSize);
      rp, wp, ctxtWp := base, base, iommuBase;
      rpIx, wpIx := 0, 0;
    }

    lemma SlotIndex(p: nat, k: nat)
      requires Valid() && p == SlotAddr(k)
      ensures p >= base && (p - base) / elSize == k
    {
      OffsetIndex(k, elSize);
    }

    /** Slots lie in slot order, at least one element apart, and the ring ends after the last one. */
    lemma SlotOrder(j: nat, k: nat)
      requires Valid() && j < k
      ensures SlotAddr(j) + elSize <= SlotAddr(k)
      ensures k == elements ==> SlotAddr(k) == base + len
    {
      OffsetOrder(j, k, elSize);
    }

    /** `mhi_add_ring_element`: the write pointer moves one slot and wraps at the end. */
    method AddElement()
      requires Valid()
      modifies this`wp, this`wpIx
      ensures Valid() && wpIx == Wrap(old(wpIx) + 1, elements)
      ensures old(Occupancy()) < elements - 1 ==> Occupancy() == old(Occupancy()) + 1
    {
      SlotOrder(wpIx, elements);
      if wpIx + 1 < elements {
        SlotOrder(wpIx + 1, elements);
      }
      assert SlotAddr(wpIx + 1) == SlotAddr(wpIx) + elSize;
      wp := wp + elSize;
      wpIx := Wrap(wpIx + 1, elements);
      if wp >= base + len {
        wp := base;
      }
    }

    /** `mhi_del_ring_element`: the read pointer moves one slot and wraps at the end. */
    method DelElement()
      requires Valid()
      modifies this`rp, this`rpIx
      ensures Valid() && rpIx == Wrap(old(rpIx) + 1, elements)
      ensures old(Occupancy()) > 0 ==> Occupancy() == old(Occupancy()) - 1
    {
      SlotOrder(rpIx, elements);
      if rpIx + 1 < elements {
        SlotOrder(rpIx + 1, elements);
      }
      assert SlotAddr(rpIx + 1) == SlotAddr(rpIx) + elSize;
      rp := rp + elSize;
      rpIx := Wrap(rpIx + 1, elements);
      if rp >= base + len {
        rp := base;
      }
    }

    /** `mhi_is_ring_full`: one slot always stays free, so full means elements - 1 outstanding. */
    method IsFull() returns (full: bool)
      requires Valid()
      ensures full <==> Occupancy() == elements - 1
    {
      SlotOrder(wpIx, elements);
      assert SlotAddr(wpIx + 1) == SlotAddr(wpIx) + elSize;
      if wpIx + 1 < elements {
        SlotOrder(wpIx + 1, elements);
      }
      ghost var next := Wrap(wpIx + 1, elements);
      if rpIx < next {
        SlotOrder(rpIx, next);
      } else if next < rpIx {
        SlotOrder(next, rpIx);
      }
      var tmp := wp + elSize;
      if tmp >= base + len {
        tmp := base;
      }
      full := tmp == rp;
    }

    /** `rp != wp` at the pointer level is non-emptiness. */
    lemma EmptyIffSame()
      requires Valid()
      ensures rp == wp <==> Occupancy() == 0
    {
      if rpIx < wpIx {
        SlotOrder(rpIx, wpIx);
      } else if wpIx < rpIx {
        SlotOrder(wpIx, rpIx);
      }
    }

    /** `get_nr_avail_ring_elements`: free slots, counted by pointer differences. */
    method AvailElements() returns (nr: nat)
      requires Valid()
      ensures nr == elements - 1 - Occupancy()
    {
      EmptyIffSame();
      if wp < rp {
        assert wpIx < rpIx by {
          if rpIx < wpIx { SlotOrder(rpIx, wpIx); }
        }
        OffsetDifference(wpIx, rpIx, elSize);
        OffsetIndex(rpIx - wpIx, elSize);
        nr := (rp - wp) / elSize - 1;
      } else {
        assert rpIx <= wpIx by {
          if wpIx < rpIx { SlotOrder(wpIx, rpIx); }
        }
        SlotIndex(rp, rpIx);
        OffsetDifference(wpIx, elements, elSize);
        OffsetIndex(elements - wpIx, elSize);
        nr := (rp - base) / elSize;
        nr := nr + ((base + len - wp) / elSize - 1);
      }
    }

    /** `mhi_recycle_ev_ring_element`: both pointers move one slot, and the context word follows `wp`. */
    method RecycleElement()
      requires Valid()
      modifies this`rp, this`rpIx, this`wp, this`wpIx, this`ctxtWp
      ensures Valid()
      ensures rpIx == Wrap(old(rpIx) + 1, elements) && wpIx == Wrap(old(wpIx) + 1, elements)
      ensures Occupancy() == old(Occupancy())
      ensures old(ctxtWp == iommuBase + (wp - base)) ==> ctxtWp == iommuBase + (wp - base)
    {
      SlotOrder(wpIx, elements);
      assert SlotAddr(wpIx + 1) == SlotAddr(wpIx) + elSize;
      if wpIx + 1 < elements {
        SlotOrder(wpIx + 1, elements);
      }
      wp := wp + elSize;
      var next := ctxtWp + elSize;
      wpIx := Wrap(wpIx + 1, elements);
      if wp >= base + len {
        wp := base;
        next := iommuBase;
      }
      ctxtWp := next;
      DelElement();
    }
  }
}
