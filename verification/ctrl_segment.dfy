/**
 `mhi_alloc_dev_ctxt`: one coherent segment holding the three context tables and every channel,
 event and command ring, laid out by an aligning bump allocator and then relocated.
*/
module CtrlSegment {
  import opened Arith

  const TRE_SIZE: nat := 16        // sizeof(struct mhi_tre)
  const CTXT_SIZE: nat := 44       // each of mhi_chan_ctxt, mhi_event_ctxt, mhi_cmd_ctxt
  const CMD_EL_PER_RING: nat := 128

  /** `used` is false for unnamed and offloaded channels and for offloaded event rings. */
  datatype RingDesc = RingDesc(used: bool, elements: nat, len: nat, iommuBase: nat, base: nat)

  // ---- ALIGN ----

  /** Bitwise and of two numbers. */
  function And(x: nat, y: nat): (r: nat)
    decreases x
  {
    if x == 0 then 0 else (if x % 2 == 1 && y % 2 == 1 then 1 else 0) + 2 * And(x / 2, y / 2)
  }

  /** The kernel's `ALIGN(x, a)`, (x + a - 1) & ~(a - 1), whose mask is 0 when a is 0. */
  function Align(x: nat, a: nat): (r: nat) {
    if a == 0 then 0 else AlignMasked(x + (a - 1), a - 1)
  }

  function AlignMasked(y: nat, mask: nat): (r: nat)
  {
    AndBound(y, mask);
    y - And(y, mask)
  }

  lemma {:induction false} AndBound(x: nat, y: nat)
    ensures And(x, y) <= x && And(x, y) <= y
    decreases x
  {
    if x > 0 {
      AndBound(x / 2, y / 2);
    }
  }

  predicate IsPow2(n: nat) {
    n == 1 || (n > 1 && n % 2 == 0 && IsPow2(n / 2))
  }

  /** q times a power of two, by doubling. */
  ghost function Scaled(q: nat, a: nat): nat
    requires IsPow2(a)
  {
    if a == 1 then q else 2 * Scaled(q, a / 2)
  }

  lemma {:induction false} ScaledIsProduct(q: nat, a: nat)
    requires IsPow2(a)
    ensures Scaled(q, a) == a * q
  {
    if a > 1 {
      var h := a / 2;
      ScaledIsProduct(q, h);
      Doubled(h, q, a);
    }
  }

  lemma Doubled(h: nat, q: nat, a: nat)
    requires a == 2 * h
    ensures a * q == 2 * (h * q)
  {
  }

  /** Masking with one less than a power of two leaves the remainder: y is that plus a multiple. */
  lemma {:induction false} AndMask(y: nat, a: nat, mask: nat) returns (q: nat)
    requires IsPow2(a) && mask == a - 1
    ensures And(y, mask) < a && y == Scaled(q, a) + And(y, mask)
    decreases a
  {
    if a == 1 {
      AndBound(y, 0);
      q := y;
    } else {
      q := AndMask(y / 2, a / 2, mask / 2);
      assert mask % 2 == 1;
    }
  }

  /** ALIGN never moves down and moves up by less than the alignment; for powers of two the result is a multiple. */
  lemma AlignSpec(x: nat, a: nat)
    requires a > 0
    ensures x <= Align(x, a) <= x + (a - 1)
    ensures IsPow2(a) ==> Align(x, a) % a == 0
  {
    AndBound(x + (a - 1), a - 1);
    if IsPow2(a) {
      MaskedIsMultiple(x + (a - 1), a, a - 1, Align(x, a));
    }
  }

  lemma MaskedIsMultiple(y: nat, a: nat, mask: nat, r: nat)
    requires IsPow2(a) && mask == a - 1 && r == y - And(y, mask)
    ensures r % a == 0
  {
    var q := AndMask(y, a, mask);
    ScaledIsProduct(q, a);
    ProductIsMultiple(a, q, r);
  }

  lemma ProductIsMultiple(a: nat, q: nat, r: nat)
    requires a > 0 && r == a * q
    ensures r % a == 0
  {
    MultipleOf(a, q);
  }

  // ---- The bump allocator ----

  function RingLen(r: RingDesc): nat {
    TRE_SIZE * r.elements
  }

  /** `ctrl_seg_len` after the first k rings, from a start value. */
  function Cursor(at: nat, rings: seq<RingDesc>, k: nat): (c: nat)
    requires k <= |rings|
  {
    if k == 0 then at
    else if !rings[k - 1].used then Cursor(at, rings, k - 1)
    else Align(Cursor(at, rings, k - 1), RingLen(rings[k - 1])) + RingLen(rings[k - 1])
  }

  /** Where ring k begins within the segment. */
  function RingOffset(at: nat, rings: seq<RingDesc>, k: nat): (o: nat)
    requires k < |rings|
  {
    Align(Cursor(at, rings, k), RingLen(rings[k]))
  }

  predicate AllNonEmpty(rings: seq<RingDesc>) {
    forall k :: 0 <= k < |rings| && rings[k].used ==> rings[k].elements > 0
  }

  lemma {:induction false} CursorGrows(at: nat, rings: seq<RingDesc>, j: nat, k: nat)
    requires j <= k <= |rings| && AllNonEmpty(rings)
    ensures Cursor(at, rings, j) <= Cursor(at, rings, k)
  {
    if j < k {
      CursorGrows(at, rings, j, k - 1);
      if rings[k - 1].used {
        AlignSpec(Cursor(at, rings, k - 1), RingLen(rings[k - 1]));
      }
    }
  }

  /** The segment is well laid out: rings lie past the tables, within the segment, and do not overlap. */
  ghost predicate WellLaidOut(at: nat, rings: seq<RingDesc>) {
    && (forall k :: 0 <= k < |rings| && rings[k].used ==>
          at <= RingOffset(at, rings, k) && RingOffset(at, rings, k) + RingLen(rings[k]) <= Cursor(at, rings, |rings|))
    && (forall j, k :: 0 <= j < k < |rings| && rings[j].used && rings[k].used ==>
          RingOffset(at, rings, j) + RingLen(rings[j]) <= RingOffset(at, rings, k))
  }

  lemma NonEmptyLaidOut(at: nat, rings: seq<RingDesc>)
    requires AllNonEmpty(rings)
    ensures WellLaidOut(at, rings)
  {
    forall k | 0 <= k < |rings| && rings[k].used
      ensures at <= RingOffset(at, rings, k)
              && RingOffset(at, rings, k) + RingLen(rings[k]) <= Cursor(at, rings, |rings|)
    {
      CursorGrows(at, rings, 0, k);
      CursorGrows(at, rings, k + 1, |rings|);
      AlignSpec(Cursor(at, rings, k), RingLen(rings[k]));
    }
    forall j, k | 0 <= j < k < |rings| && rings[j].used && rings[k].used
      ensures RingOffset(at, rings, j) + RingLen(rings[j]) <= RingOffset(at, rings, k)
    {
      CursorGrows(at, rings, j + 1, k);
      AlignSpec(Cursor(at, rings, k), RingLen(rings[k]));
    }
  }

  /** An empty ring is aligned to nothing and sends the allocator back to the start of the segment. */
  lemma EmptyRingResets(at: nat, rings: seq<RingDesc>, k: nat)
    requires k < |rings| && rings[k].used && rings[k].elements == 0
    ensures RingOffset(at, rings, k) == 0 && Cursor(at, rings, k + 1) == 0
  {
  }

  /**
   The layout is correct exactly when no ring in use is empty. (Channels with no elements are refused
   when the configuration is parsed, event rings are not.) `at` is the length of the context tables.
  */
  lemma LaidOutIffNonEmpty(at: nat, rings: seq<RingDesc>)
    requires at > 0
    ensures WellLaidOut(at, rings) <==> AllNonEmpty(rings)
  {
    if AllNonEmpty(rings) {
      NonEmptyLaidOut(at, rings);
    } else {
      var k :| 0 <= k < |rings| && rings[k].used && rings[k].elements == 0;
      EmptyRingResets(at, rings, k);
    }
  }

  // ---- Relocation ----

  /** A ring's final addresses, the segment being at `virt` for the host and at `dma` for the device. */
  function Placed(at: nat, rings: seq<RingDesc>, k: nat, virt: nat, dma: nat): (r: RingDesc)
    requires k < |rings|
  {
    if !rings[k].used then rings[k]
    else
      var off := RingOffset(at, rings, k);
      rings[k].(len := RingLen(rings[k]), base := virt + off, iommuBase := off + dma)
  }

  /** What `mhi_alloc_dev_ctxt` promises for every ring in use. */
  ghost predicate GoodRing(at: nat, rings: seq<RingDesc>, k: nat, virt: nat, dma: nat, r: RingDesc)
    requires k < |rings|
  {
    && r.len == 16 * r.elements && r.elements == rings[k].elements
    && r.base - virt == r.iommuBase - dma
    && virt + at <= r.base && r.base + r.len <= virt + Cursor(at, rings, |rings|)
    && (forall j :: 0 <= j < |rings| && j != k && rings[j].used ==>
          var s := Placed(at, rings, j, virt, dma); s.base + s.len <= r.base || r.base + r.len <= s.base)
    && (IsPow2(r.len) && dma % r.len == 0 ==> r.iommuBase % r.len == 0)
  }

  /**
   Every ring in use lies between the tables and the end of the segment, overlaps no other, has the
   same offset for host and device, and, for a power-of-two length that divides the segment's DMA
   address, starts at a multiple of its length.
  */
  lemma PlacedIsGood(at: nat, rings: seq<RingDesc>, k: nat, virt: nat, dma: nat)
    requires AllNonEmpty(rings) && k < |rings| && rings[k].used
    ensures GoodRing(at, rings, k, virt, dma, Placed(at, rings, k, virt, dma))
  {
    NonEmptyLaidOut(at, rings);
    var r := Placed(at, rings, k, virt, dma);
    forall j | 0 <= j < |rings| && j != k && rings[j].used
      ensures var s := Placed(at, rings, j, virt, dma); s.base + s.len <= r.base || r.base + r.len <= s.base
    {
      if j < k {
        assert RingOffset(at, rings, j) + RingLen(rings[j]) <= RingOffset(at, rings, k);
      } else {
        assert RingOffset(at, rings, k) + RingLen(rings[k]) <= RingOffset(at, rings, j);
      }
    }
    if IsPow2(r.len) && dma % r.len == 0 {
      var off := RingOffset(at, rings, k);
      AlignSpec(Cursor(at, rings, k), RingLen(rings[k]));
      ModAdd(off, dma, r.len, off + dma);
    }
  }

  // ---- The allocator itself ----

  /** `struct mhi_ctxt`: table addresses for the device, table pointers for the host, and the segment. */
  datatype Ctxt = Ctxt(chanCtxtAddr: nat, erCtxtAddr: nat, cmdCtxtAddr: nat,
                       chanCtxt: nat, erCtxt: nat, cmdCtxt: nat,
                       ctrlSeg: nat, ctrlSegAddr: nat, ctrlSegLen: nat)

  /** What `mhi_alloc_coherent` returned: nothing, or the segment's two addresses. */
  datatype Coherent = NoMemory | Segment(virt: nat, dma: nat)

  /** After the first pass: each ring in use knows its length and its offset in the segment. */
  ghost predicate HasOffsets(rings: seq<RingDesc>, at: nat, all: seq<RingDesc>, first: nat)
    requires first + |rings| <= |all|
  {
    forall k :: 0 <= k < |rings| ==>
      rings[k] == if all[first + k].used
                  then all[first + k].(len := RingLen(all[first + k]), iommuBase := RingOffset(at, all, first + k))
                  else all[first + k]
  }

  /** After the second pass: each ring in use has its final addresses. */
  ghost predicate IsPlaced(rings: seq<RingDesc>, at: nat, all: seq<RingDesc>, first: nat, virt: nat, dma: nat)
    requires first + |rings| <= |all|
  {
    forall k :: 0 <= k < |rings| ==> rings[k] == Placed(at, all, first + k, virt, dma)
  }

  /** The first loop of `mhi_alloc_dev_ctxt` over one group of rings, the ones at `first` among all. */
  method PlaceGroup(rings: array<RingDesc>, segLen: nat, ghost at: nat, ghost all: seq<RingDesc>,
                    ghost first: nat, ghost last: nat)
    returns (end: nat)
    requires first + rings.Length == last <= |all| && rings[..] == all[first..last]
    requires segLen == Cursor(at, all, first)
    modifies rings
    ensures end == Cursor(at, all, last)
    ensures HasOffsets(rings[..], at, all, first)
  {
    end := segLen;
    var i := 0;
    while i < rings.Length
      invariant i <= rings.Length && end == Cursor(at, all, first + i)
      invariant HasOffsets(rings[..i], at, all, first)
      invariant forall k :: i <= k < rings.Length ==> rings[k] == all[first + k]
    {
      assert rings[i] == all[first + i];
      if rings[i].used {
        var len := TRE_SIZE * rings[i].elements;
        end := Align(end, len);
        rings[i] := rings[i].(len := len, iommuBase := end);
        end := end + len;
      }
      i := i + 1;
    }
  }

  /** The second loop over one group: offsets become addresses. */
  method RelocateGroup(rings: array<RingDesc>, virt: nat, dma: nat, ghost at: nat, ghost all: seq<RingDesc>,
                       ghost first: nat)
    requires first + rings.Length <= |all| && HasOffsets(rings[..], at, all, first)
    modifies rings
    ensures IsPlaced(rings[..], at, all, first, virt, dma)
  {
    var i := 0;
    while i < rings.Length
      invariant i <= rings.Length
      invariant IsPlaced(rings[..i], at, all, first, virt, dma)
      invariant forall k :: i <= k < rings.Length ==> rings[k] == old(rings[..])[k]
    {
      if rings[i].used {
        rings[i] := rings[i].(base := virt + rings[i].iommuBase, iommuBase := rings[i].iommuBase + dma);
      }
      i := i + 1;
    }
  }

  /** The command rings as the allocator fixes them. */
  function CmdRings(cmds: seq<RingDesc>): (r: seq<RingDesc>)
    ensures |r| == |cmds| && forall i :: 0 <= i < |r| ==> r[i] == cmds[i].(used := true, elements := 128)
  {
    seq(|cmds|, i requires 0 <= i < |cmds| => cmds[i].(used := true, elements := CMD_EL_PER_RING))
  }

  lemma ThreeGroups(a: seq<RingDesc>, b: seq<RingDesc>, c: seq<RingDesc>, all: seq<RingDesc>, nc: nat, ne: nat)
    requires all == a + b + c && nc == |a| && ne == nc + |b|
    ensures all[0..nc] == a && all[nc..ne] == b && all[ne..|all|] == c && |all| == ne + |c|
  {
  }

  /** The number of command ring elements is fixed by the driver. */
  method FixCmdRings(cmds: array<RingDesc>)
    modifies cmds
    ensures cmds[..] == CmdRings(old(cmds[..]))
  {
    forall i | 0 <= i < cmds.Length {
      cmds[i] := cmds[i].(used := true, elements := CMD_EL_PER_RING);
    }
  }

  method PlaceAll(chans: array<RingDesc>, events: array<RingDesc>, cmds: array<RingDesc>, segLen: nat,
                  ghost at: nat, ghost all: seq<RingDesc>, ghost nc: nat, ghost ne: nat)
    returns (end: nat)
    requires chans != events && chans != cmds && events != cmds
    requires nc == chans.Length && ne == nc + events.Length && segLen == at
    requires all == chans[..] + events[..] + CmdRings(cmds[..])
    modifies chans, events, cmds
    ensures end == Cursor(at, all, |all|)
    ensures |all| == ne + cmds.Length
    ensures HasOffsets(chans[..], at, all, 0) && HasOffsets(events[..], at, all, nc)
            && HasOffsets(cmds[..], at, all, ne)
  {
    ThreeGroups(chans[..], events[..], CmdRings(cmds[..]), all, nc, ne);
    FixCmdRings(cmds);
    end := PlaceGroup(chans, segLen, at, all, 0, nc);
    end := PlaceGroup(events, end, at, all, nc, ne);
    end := PlaceGroup(cmds, end, at, all, ne, |all|);
  }

  /** The relocation pass over all groups. */
  method RelocateAll(chans: array<RingDesc>, events: array<RingDesc>, cmds: array<RingDesc>, virt: nat, dma: nat,
                     ghost at: nat, ghost all: seq<RingDesc>, ghost nc: nat, ghost ne: nat)
    requires chans != events && chans != cmds && events != cmds
    requires nc == chans.Length && ne == nc + events.Length && |all| == ne + cmds.Length
    requires HasOffsets(chans[..], at, all, 0) && HasOffsets(events[..], at, all, nc)
             && HasOffsets(cmds[..], at, all, ne)
    modifies chans, events, cmds
    ensures IsPlaced(chans[..], at, all, 0, virt, dma)
    ensures IsPlaced(events[..], at, all, nc, virt, dma)
    ensures IsPlaced(cmds[..], at, all, ne, virt, dma)
  {
    RelocateGroup(chans, virt, dma, at, all, 0);
    RelocateGroup(events, virt, dma, at, all, nc);
    RelocateGroup(cmds, virt, dma, at, all, ne);
  }

  /** The outcome of a successful allocation, from the three groups of rings before it. */
  ghost predicate Allocated(all: seq<RingDesc>, nc: nat, ne: nat, at: nat, virt: nat, dma: nat,
                            chans: seq<RingDesc>, events: seq<RingDesc>, cmds: seq<RingDesc>, ctxt: Ctxt)
  {
    && |chans| == nc && nc + |events| == ne && |all| == ne + |cmds|
    && IsPlaced(chans, at, all, 0, virt, dma)
    && IsPlaced(events, at, all, nc, virt, dma)
    && IsPlaced(cmds, at, all, ne, virt, dma)
    && ctxt == Ctxt(dma, dma + CTXT_SIZE * nc, dma + CTXT_SIZE * ne,
                    virt, virt + CTXT_SIZE * nc, virt + CTXT_SIZE * ne,
                    virt, dma, Cursor(at, all, |all|))
  }

  /** `mhi_alloc_dev_ctxt`; `memory` is the outcome of the one coherent allocation, of the length computed before it. */
  method AllocDevCtxt(chans: array<RingDesc>, events: array<RingDesc>, cmds: array<RingDesc>, memory: Coherent)
    returns (ok: bool, ctxt: Ctxt, ghost all: seq<RingDesc>, ghost nc: nat, ghost ne: nat, ghost at: nat)
    requires chans != events && chans != cmds && events != cmds
    modifies chans, events, cmds
    ensures ok <==> memory.Segment?
    ensures all == old(chans[..]) + old(events[..]) + CmdRings(old(cmds[..]))
    ensures nc == chans.Length && ne == nc + events.Length && at == CTXT_SIZE * (ne + cmds.Length)
    ensures ok ==> Allocated(all, nc, ne, at, memory.virt, memory.dma, chans[..], events[..], cmds[..], ctxt)
  {
    nc, ne := chans.Length, chans.Length + events.Length;
    at := CTXT_SIZE * (ne + cmds.Length);
    all := chans[..] + events[..] + CmdRings(cmds[..]);
    var segLen := 0;
    var chanOff := segLen;
    segLen := segLen + CTXT_SIZE * chans.Length;
    var erOff := segLen;
    segLen := segLen + CTXT_SIZE * events.Length;
    var cmdOff := segLen;
    segLen := segLen + CTXT_SIZE * cmds.Length;

    segLen := PlaceAll(chans, events, cmds, segLen, at, all, nc, ne);
    match memory
    case NoMemory =>
      ok, ctxt := false, Ctxt(0, 0, 0, 0, 0, 0, 0, 0, 0);
    case Segment(virt, dma) =>
      ctxt := Ctxt(chanOff + dma, erOff + dma, cmdOff + dma, virt + chanOff, virt + erOff, virt + cmdOff, virt, dma,
          segLen);
      RelocateAll(chans, events, cmds, virt, dma, at, all, nc, ne);
      ok := true;
  }

  /**
   The three context tables, of 44 bytes an entry, lie one behind the other in front of the rings, at equal
   offsets for host and device.
  */
  ghost predicate GoodTables(chans: nat, events: nat, cmds: nat, at: nat, virt: nat, dma: nat, ctxt: Ctxt) {
    && ctxt.ctrlSeg == virt && ctxt.ctrlSegAddr == dma
    && ctxt.chanCtxt - virt == ctxt.chanCtxtAddr - dma
    && ctxt.erCtxt - virt == ctxt.erCtxtAddr - dma
    && ctxt.cmdCtxt - virt == ctxt.cmdCtxtAddr - dma
    && virt <= ctxt.chanCtxt && ctxt.chanCtxt + 44 * chans <= ctxt.erCtxt
    && ctxt.erCtxt + 44 * events <= ctxt.cmdCtxt && ctxt.cmdCtxt + 44 * cmds <= virt + at
  }

  /** The tables of a successful allocation, in front of which nothing lies and behind which the rings begin. */
  lemma TablesAreGood(all: seq<RingDesc>, nc: nat, ne: nat, at: nat, virt: nat, dma: nat,
                      chans: seq<RingDesc>, events: seq<RingDesc>, cmds: seq<RingDesc>, ctxt: Ctxt)
    requires Allocated(all, nc, ne, at, virt, dma, chans, events, cmds, ctxt) && at == 44 * |all|
    ensures GoodTables(|chans|, |events|, |cmds|, at, virt, dma, ctxt)
  {
  }

  /** After a successful allocation every ring in use is good, unless one of them was configured empty. */
  lemma AllocatedIsGood(all: seq<RingDesc>, nc: nat, ne: nat, at: nat, virt: nat, dma: nat,
                        chans: seq<RingDesc>, events: seq<RingDesc>, cmds: seq<RingDesc>, ctxt: Ctxt)
    requires Allocated(all, nc, ne, at, virt, dma, chans, events, cmds, ctxt) && AllNonEmpty(all)
    ensures ctxt.ctrlSegLen == Cursor(at, all, |all|)
    ensures forall k :: 0 <= k < |chans| && all[k].used ==> GoodRing(at, all, k, virt, dma, chans[k])
    ensures forall k :: 0 <= k < |events| && all[nc + k].used ==> GoodRing(at, all, nc + k, virt, dma, events[k])
    ensures forall k :: 0 <= k < |cmds| && all[ne + k].used ==> GoodRing(at, all, ne + k, virt, dma, cmds[k])
  {
    forall k | 0 <= k < |all| && all[k].used ensures GoodRing(at, all, k, virt, dma, Placed(at, all, k, virt, dma)) {
      PlacedIsGood(at, all, k, virt, dma);
    }
  }
}
