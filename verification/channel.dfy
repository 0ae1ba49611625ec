/**
 A transfer channel as the host keeps it: the device-visible `tre_ring` and the host-only
 `buf_ring`, advanced in lockstep although their element sizes and lengths differ.
*/
module Channels {
  import opened Rings
  import opened ChannelSpec

  const TRE_SIZE: nat := 16       // sizeof(struct mhi_tre)
  const BUF_INFO_SIZE: nat := 56  // sizeof(struct mhi_buf_info)
  const MHI_MAX_MTU: nat := 0xffff  // and the mask of the TRE's length field

  datatype Tre = Tre(ptr: nat, dword0: nat, dword1: nat)

  datatype Flags = Flags(eob: bool, eot: bool, chain: bool)

  /** `struct mhi_buf_info`: `wp` is the address of the TRE that announces the buffer. */
  datatype BufInfo = BufInfo(vAddr: nat, pAddr: nat, cbBuf: int, wp: nat, len: nat, preMapped: bool, used: bool)

  const ZERO_BUF_INFO := BufInfo(0, 0, 0, 0, 0, false, false)

  datatype Error = ENOMEM | EIO

  /** MHI_TRE_DATA_DWORD0: the length, masked. */
  function DataDword0(len: nat): nat {
    len % (MHI_MAX_MTU + 1)
  }

  /** MHI_TRE_DATA_DWORD1. */
  function DataDword1(bei: bool, f: Flags): nat {
    2 * 0x10000 + (if bei then 0x400 else 0) + (if f.eot then 0x200 else 0)
    + (if f.eob then 0x100 else 0) + (if f.chain then 1 else 0)
  }

  /** Read back bit by bit: a transfer element with its interrupt and chain flags. */
  lemma Dword1Fields(bei: bool, f: Flags)
    ensures var d := DataDword1(bei, f);
            && d / 0x10000 == 2
            && (d / 0x400 % 2 == 1 <==> bei) && (d / 0x200 % 2 == 1 <==> f.eot)
            && (d / 0x100 % 2 == 1 <==> f.eob) && (d % 2 == 1 <==> f.chain)
  {
  }

  /** What the two rings hold: TRE base address, read slots and memories. */
  datatype Lanes = Lanes(treBase: nat, treRp: nat, treMem: seq<Tre>, bufRp: nat, bufMem: seq<BufInfo>)

  /** The buffer record of the i-th outstanding element. */
  ghost function InfoAt(l: Lanes, i: nat): (info: BufInfo)
    requires l.bufRp < |l.bufMem| && i < |l.bufMem|
  {
    l.bufMem[Wrap(l.bufRp + i, |l.bufMem|)]
  }

  ghost function TreAt(l: Lanes, i: nat): (t: Tre)
    requires l.treRp < |l.treMem| && i < |l.treMem|
  {
    l.treMem[Wrap(l.treRp + i, |l.treMem|)]
  }

  /** The i-th outstanding record and TRE describe buffer `b`, and the record points at that TRE. */
  ghost predicate DescribesAt(l: Lanes, i: nat, b: Buf)
    requires l.treRp < |l.treMem| && l.bufRp < |l.bufMem| && i < |l.treMem| && i < |l.bufMem|
  {
    var info := InfoAt(l, i);
    && info.cbBuf == b.cb
    && info.len == b.len
    && info.wp == l.treBase + Offset(Wrap(l.treRp + i, |l.treMem|), TRE_SIZE)
    && TreAt(l, i).ptr == info.pAddr
    && TreAt(l, i).dword0 == DataDword0(b.len)
  }

  ghost predicate Describes(l: Lanes, bufs: seq<Buf>)
  {
    && l.treRp < |l.treMem| <= |l.bufMem| && l.bufRp < |l.bufMem|
    && |bufs| < |l.treMem|
    && forall i :: 0 <= i < |bufs| ==> DescribesAt(l, i, bufs[i])
  }

  /** Releasing the front element of both rings keeps them describing the rest. */
  lemma DescribesRest(l: Lanes, l': Lanes, bufs: seq<Buf>)
    requires Describes(l, bufs) && |bufs| > 0
    requires l' == l.(treRp := Wrap(l.treRp + 1, |l.treMem|), bufRp := Wrap(l.bufRp + 1, |l.bufMem|))
    ensures Describes(l', bufs[1..])
  {
    forall i | 0 <= i < |bufs[1..]| ensures DescribesAt(l', i, bufs[1..][i]) {
      assert DescribesAt(l, i + 1, bufs[i + 1]);
    }
  }

  /** Writing the TRE for the record in the free buffer slot extends what the rings describe. */
  lemma DescribesMore(l: Lanes, l': Lanes, bufs: seq<Buf>, bufs': seq<Buf>, slot: nat, info: BufInfo, t: Tre)
    requires Describes(l, bufs) && |bufs| + 1 < |l.treMem|
    requires info == l.bufMem[Wrap(l.bufRp + |bufs|, |l.bufMem|)]
    requires slot == Wrap(l.treRp + |bufs|, |l.treMem|) && l' == l.(treMem := l.treMem[slot := t])
    requires info.wp == l.treBase + Offset(slot, TRE_SIZE)
    requires t.ptr == info.pAddr && t.dword0 == DataDword0(info.len)
    requires bufs' == bufs + [Buf(info.cbBuf, info.len)]
    ensures Describes(l', bufs')
  {
    forall i | 0 <= i < |bufs'| ensures DescribesAt(l', i, bufs'[i]) {
      if i < |bufs| {
        assert DescribesAt(l, i, bufs[i]);
      }
    }
  }

  lemma DescribesPrefix(l: Lanes, bufs: seq<Buf>, b: Buf)
    requires Describes(l, bufs + [b])
    ensures Describes(l, bufs)
  {
    forall i | 0 <= i < |bufs| ensures DescribesAt(l, i, bufs[i]) {
      assert DescribesAt(l, i, (bufs + [b])[i]);
    }
  }

  /** A write to the free slot of the buffer ring alone disturbs nothing outstanding. */
  lemma DescribesScratch(l: Lanes, l': Lanes, bufs: seq<Buf>, info: BufInfo)
    requires Describes(l, bufs)
    requires l' == l.(bufMem := l.bufMem[Wrap(l.bufRp + |bufs|, |l.bufMem|) := info])
    ensures Describes(l', bufs)
  {
    forall i | 0 <= i < |bufs| ensures DescribesAt(l', i, bufs[i]) {
      assert DescribesAt(l, i, bufs[i]);
    }
  }

  /** The controller-wide `pending_pkts` counter. */
  class PendingPkts {
    var value: int
    constructor ()
      ensures value == 0
    {
      value := 0;
    }
  }

  class Channel {
    const outbound: bool
    const burst: bool
    const intmod: bool
    const tre: Ring
    var buf: Ring
    const treMem: array<Tre>
    var bufMem: array<BufInfo>
    var chState: ChState
    var dbMode: bool
    var dbReg: nat
    var results: seq<Result>     // the calls made to xfer_cb
    ghost var accepted: seq<Buf>
    ghost var ctxtIx: nat
    ghost var dbIx: nat
    ghost var start: nat

    ghost function Repr(): set<object>
      reads this
    {
      {this, tre, buf, treMem, bufMem}
    }

    ghost predicate Shape()
      reads this, tre, buf
    {
      && tre != buf
      && tre.Valid() && buf.Valid()
      && tre.elSize == TRE_SIZE && buf.elSize == BUF_INFO_SIZE
      && treMem.Length == tre.elements && bufMem.Length == buf.elements
      && tre.elements <= buf.elements
    }

    ghost function Content(): (l: Lanes)
      reads this, tre, buf, treMem, bufMem
    {
      Lanes(tre.base, tre.rpIx, treMem[..], buf.rpIx, bufMem[..])
    }

    /** Lockstep: equal occupancies, and both rings describe the buffers not yet delivered. */
    ghost predicate Valid()
      reads Repr()
    {
      && Shape()
      && |results| <= |accepted|
      && tre.Occupancy() == |accepted| - |results|
      && buf.Occupancy() == |accepted| - |results|
      && Describes(Content(), accepted[|results|..])
      && ctxtIx < tre.elements && tre.ctxtWp == tre.iommuBase + Offset(ctxtIx, TRE_SIZE)
      && dbReg == tre.iommuBase + Offset(dbIx, TRE_SIZE)
    }

    ghost function View(): (c: Chan)
      requires Valid()
      reads Repr()
      ensures c.WellFormed(tre.elements)
    {
      Chan(chState, tre.rpIx, tre.wpIx, ctxtIx, dbMode, dbIx, start, accepted, results)
    }

    constructor (outbound: bool, burst: bool, intmod: bool, treBase: nat, iommuBase: nat,
                 elements: nat, localElements: nat)
      requires 0 < elements <= localElements
      ensures Valid() && fresh(Repr())
      ensures tre.elements == elements && buf.elements == localElements
      ensures this.outbound == outbound && this.burst == burst
      ensures View() == Chan(Disabled, 0, 0, 0, true, 0, 0, [], [])
    {
      this.outbound, this.burst, this.intmod := outbound, burst, intmod;
      tre := new Ring(treBase, iommuBase, TRE_SIZE, elements);
      buf := new Ring(0, 0, BUF_INFO_SIZE, localElements);
      treMem := new Tre[elements](_ => Tre(0, 0, 0));
      bufMem := new BufInfo[localElements](_ => ZERO_BUF_INFO);
      chState, dbMode, dbReg := Disabled, true, iommuBase;
      results, accepted := [], [];
      ctxtIx, dbIx, start := 0, 0, 0;
    }

    /** Free transfer-ring space implies free buffer-ring space, so only the former is checked. */
    lemma BufRingHasSpace()
      requires Valid() && tre.Occupancy() < tre.elements - 1
      ensures buf.Occupancy() < buf.elements - 1
    {
    }

    /** Fill the free record under `buf_ring->wp`; nothing outstanding is touched. */
    method FillBufInfo(info: BufInfo)
      requires Valid()
      modifies bufMem
      ensures Valid() && View() == old(View())
      ensures bufMem[buf.wpIx] == info
    {
      ghost var l, bufs := Content(), accepted[|results|..];
      buf.SlotIndex(buf.wp, buf.wpIx);
      bufMem[(buf.wp - buf.base) / buf.elSize] := info;
      assert Content() == l.(bufMem := l.bufMem[buf.wpIx := info]);
      DescribesScratch(l, Content(), bufs, info);
    }

    /** Write the TRE for the record under `buf_ring->wp`; the two write slots now describe one buffer. */
    method WriteTre(dword1: nat) returns (ghost b: Buf)
      requires Valid() && tre.Occupancy() < tre.elements - 1
      requires bufMem[buf.wpIx].wp == tre.wp
      modifies treMem
      ensures Valid() && View() == old(View())
      ensures b == Buf(bufMem[buf.wpIx].cbBuf, bufMem[buf.wpIx].len)
      ensures Describes(Content(), accepted[|results|..] + [b])
      ensures treMem[tre.wpIx] == Tre(bufMem[buf.wpIx].pAddr, bufMem[buf.wpIx].len % 0x10000, dword1)
    {
      ghost var l, bufs := Content(), accepted[|results|..];
      buf.SlotIndex(buf.wp, buf.wpIx);
      tre.SlotIndex(tre.wp, tre.wpIx);
      var info := bufMem[(buf.wp - buf.base) / buf.elSize];
      b := Buf(info.cbBuf, info.len);
      var t := Tre(info.pAddr, DataDword0(info.len), dword1);
      treMem[(tre.wp - tre.base) / tre.elSize] := t;
      assert Content() == l.(treMem := l.treMem[tre.wpIx := t]);
      DescribesMore(l, Content(), bufs, bufs + [b], tre.wpIx, info, t);
      DescribesPrefix(Content(), bufs, b);
    }

    /** Advance both write pointers over the buffer the write slots describe. */
    method Advance(ghost b: Buf)
      requires Valid() && tre.Occupancy() < tre.elements - 1
      requires Describes(Content(), accepted[|results|..] + [b])
      modifies this`accepted, tre`wp, tre`wpIx, buf`wp, buf`wpIx
      ensures Valid() && View() == old(View()).Queue(tre.elements, b)
    {
      ghost var l, bufs := Content(), accepted[|results|..] + [b];
      tre.AddElement();
      buf.AddElement();
      accepted := accepted + [b];
      assert accepted[|results|..] == bufs;
      assert Content() == l;
    }

    /** `mhi_gen_tre`; `dma` is what `map_single` returned for a buffer the client has not mapped. */
    method GenTre(info: BufInfo, flags: Flags, dma: nat, mapOk: bool) returns (ok: bool)
      requires Valid() && tre.Occupancy() < tre.elements - 1
      modifies this`accepted, tre`wp, tre`wpIx, buf`wp, buf`wpIx, treMem, bufMem
      ensures Valid()
      ensures ok == (info.preMapped || mapOk)
      ensures View() == if ok then old(View()).Queue(tre.elements, Buf(info.cbBuf, info.len)) else old(View())
      ensures accepted == old(accepted) + if ok then [Buf(info.cbBuf, info.len)] else []
      ensures ok ==> treMem[old(tre.wpIx)] ==
                     Tre(if info.preMapped then info.pAddr else dma, info.len % 0x10000, DataDword1(intmod, flags))
    {
      ok := FillNext(info, dma, mapOk);
      if ok {
        ghost var b := WriteTre(DataDword1(intmod, flags));
        Advance(b);
      }
    }

    /** The record of the next buffer: filled in, mapped unless the client did, and pointing at its TRE. */
    method FillNext(info: BufInfo, dma: nat, mapOk: bool) returns (ok: bool)
      requires Valid()
      modifies bufMem
      ensures Valid() && View() == old(View()) && ok == (info.preMapped || mapOk)
      ensures bufMem[buf.wpIx].cbBuf == info.cbBuf && bufMem[buf.wpIx].len == info.len && bufMem[buf.wpIx].wp == tre.wp
      ensures ok ==> bufMem[buf.wpIx].pAddr == if info.preMapped then info.pAddr else dma
    {
      buf.SlotIndex(buf.wp, buf.wpIx);
      var prev := bufMem[(buf.wp - buf.base) / buf.elSize];
      var bufInfo := BufInfo(if info.preMapped then prev.vAddr else info.vAddr,
                             if info.preMapped then info.pAddr else prev.pAddr,
                             info.cbBuf, tre.wp, info.len, info.preMapped, prev.used);
      FillBufInfo(bufInfo);
      ok := info.preMapped;
      if !info.preMapped && mapOk {
        FillBufInfo(bufInfo.(pAddr := dma));
        ok := true;
      }
    }

    /** `mhi_ring_chan_db` with the channel's burst-mode setting. */
    method RingDb()
      requires Valid()
      modifies tre`ctxtWp, this`dbReg, this`dbMode, this`ctxtIx, this`dbIx
      ensures Valid() && View() == old(View()).RingDb(burst)
      ensures tre.ctxtWp == tre.iommuBase + (tre.wp - tre.base)
      ensures !burst || old(dbMode) ==> dbReg == tre.iommuBase + (tre.wp - tre.base)
      ensures burst && !old(dbMode) ==> dbReg == old(dbReg)
      ensures dbMode == (old(dbMode) && !burst)
    {
      var db := tre.iommuBase + (tre.wp - tre.base);
      tre.ctxtWp := db;
      ctxtIx := tre.wpIx;
      if burst {
        if dbMode {
          dbReg, dbIx := db, tre.wpIx;
          dbMode := false;
        }
      } else {
        dbReg, dbIx := db, tre.wpIx;
      }
      assert Content() == old(Content());
    }

    /** Release the front element of both rings and report it to the client. */
    method ReturnFront(bytes: nat, status: Status)
      requires Valid() && |results| < |accepted|
      modifies this`results, tre`rp, tre`rpIx, buf`rp, buf`rpIx
      ensures Valid() && View() == old(View()).Pop(tre.elements, bytes, status)
    {
      ghost var l, bufs := Content(), accepted[|results|..];
      var info := FrontInfo();
      buf.DelElement();
      tre.DelElement();
      ghost var l' := l.(treRp := tre.rpIx, bufRp := buf.rpIx);
      DescribesRest(l, l', bufs);
      results := results + [Result(info.cbBuf, bytes, status)];
      assert accepted[|results|..] == bufs[1..] && Content() == l';
    }

    /** The record under `buf_ring->rp` is that of the oldest outstanding buffer. */
    method FrontInfo() returns (info: BufInfo)
      requires Valid() && |results| < |accepted|
      ensures info.cbBuf == accepted[|results|].cb && info.len == accepted[|results|].len
      ensures info.wp == tre.rp
    {
      buf.SlotIndex(buf.rp, buf.rpIx);
      info := bufMem[(buf.rp - buf.base) / buf.elSize];
      assert DescribesAt(Content(), 0, accepted[|results|..][0]);
    }

    /** The element an event points at, and the slot after it where the completion loop stops. */
    method EventBounds(ptr: nat, ghost slot: nat) returns (evTre: nat, devRp: nat)
      requires Valid() && slot < tre.elements && ptr == tre.iommuBase + Offset(slot, TRE_SIZE)
      ensures evTre == tre.SlotAddr(slot)
      ensures devRp == tre.SlotAddr(Wrap(slot + 1, tre.elements))
    {
      evTre := (ptr - tre.iommuBase) + tre.base;
      tre.SlotOrder(slot, tre.elements);
      assert tre.SlotAddr(slot + 1) == tre.SlotAddr(slot) + TRE_SIZE;
      if slot + 1 < tre.elements {
        tre.SlotOrder(slot + 1, tre.elements);
      }
      devRp := evTre + TRE_SIZE;
      if devRp >= tre.base + tre.len {
        devRp := tre.base;
      }
    }

    /** One turn of the completion loop, with `left` elements still to go. */
    method CompleteNext(evTre: nat, evLen: nat, status: Status, pending: PendingPkts, ghost slot: nat,
                        ghost left: nat, ghost rest: nat)
      requires Valid() && slot < tre.elements && evTre == tre.SlotAddr(slot)
      requires 0 < left <= View().Outstanding() && rest == left - 1
      requires Distance(tre.rpIx, Wrap(slot + 1, tre.elements), tre.elements) == left
      modifies this`results, tre`rp, tre`rpIx, buf`rp, buf`rpIx, pending
      ensures Valid() && View().Outstanding() == old(View().Outstanding()) - 1
      ensures View().CompleteN(tre.elements, rest, evLen, status)
           == old(View()).CompleteN(tre.elements, left, evLen, status)
      ensures Distance(tre.rpIx, Wrap(slot + 1, tre.elements), tre.elements) == rest
      ensures pending.value == old(pending.value) - if outbound then |results| - |old(results)| else 0
    {
      if outbound {
        pending.value := pending.value - 1;
      }
      SameSlot(evTre, slot);
      LastTurn(tre.rpIx, slot, tre.elements, left);
      var info := FrontInfo();
      var xferLen := if tre.rp == evTre then evLen else info.len;
      ghost var c := View();
      var bytes := BytesTransferred(xferLen, info.len);
      ReturnFront(bytes, status);
      WalkStep(c.rp, tre.rpIx, slot, tre.elements, left, rest);
      CompleteStep(c, tre.elements, left, rest, evLen, status, bytes, View());
    }

    /**
     The completion loop of `parse_xfer_event`. `slot` is the ring slot the event's pointer names;
     the device only names outstanding elements, or the one released last.
    */
    method CompleteTransfers(ptr: nat, evLen: nat, status: Status, pending: PendingPkts, ghost slot: nat)
      requires Valid() && slot < tre.elements && ptr == tre.iommuBase + Offset(slot, TRE_SIZE)
      requires View().Completed(tre.elements, slot) <= View().Outstanding()
      modifies this`results, tre`rp, tre`rpIx, buf`rp, buf`rpIx, pending
      ensures Valid()
      ensures View() == old(View()).Complete(tre.elements, slot, evLen, status)
      ensures pending.value == old(pending.value) - if outbound then |results| - |old(results)| else 0
    {
      ghost var final := View().Complete(tre.elements, slot, evLen, status);
      ghost var devIx := Wrap(slot + 1, tre.elements);
      ghost var left: nat := View().Completed(tre.elements, slot);
      var evTre, devRp := EventBounds(ptr, slot);
      DistanceOfSuccessor(tre.rpIx, slot, tre.elements);
      SameSlot(devRp, devIx);
      while tre.rp != devRp
        invariant Valid() && left <= View().Outstanding()
        invariant View().CompleteN(tre.elements, left, evLen, status) == final
        invariant Distance(tre.rpIx, devIx, tre.elements) == left
        invariant tre.rp == devRp <==> tre.rpIx == devIx
        invariant pending.value == old(pending.value) - if outbound then |results| - |old(results)| else 0
        decreases left
      {
        ghost var rest: nat := left - 1;
        CompleteNext(evTre, evLen, status, pending, slot, left, rest);
        left := rest;
        SameSlot(devRp, devIx);
      }
    }

    lemma SameSlot(p: nat, slot: nat)
      requires Shape() && slot < tre.elements && p == tre.SlotAddr(slot)
      ensures tre.rp == p <==> tre.rpIx == slot
    {
      if tre.rpIx < slot {
        tre.SlotOrder(tre.rpIx, slot);
      } else if slot < tre.rpIx {
        tre.SlotOrder(slot, tre.rpIx);
      }
    }

    /** The doorbell-mode branch of `parse_xfer_event`. */
    method SwitchToDoorbells(dbAccess: bool)
      requires Valid()
      modifies tre`ctxtWp, this`dbReg, this`dbMode, this`ctxtIx, this`dbIx
      ensures Valid() && View() == old(View()).DbEvent(burst, dbAccess)
      ensures if |results| < |accepted| && dbAccess then
                var db := tre.iommuBase + (tre.wp - tre.base);
                tre.ctxtWp == db && dbReg == db && dbMode == !burst
              else tre.ctxtWp == old(tre.ctxtWp) && dbReg == old(dbReg) && dbMode
    {
      tre.EmptyIffSame();
      dbMode := true;
      if tre.wp != tre.rp && dbAccess {
        RingDb();
      }
    }

    /** `parse_xfer_event`: completion, doorbell-mode and ignored events, on an enabled channel only. */
    method ParseXferEvent(code: EvCode, ptr: nat, evLen: nat, dbAccess: bool, pending: PendingPkts, ghost slot: nat)
      requires Valid() && View().EventOk(tre.elements, code, slot)
      requires CompletesBuffers(code) ==> ptr == tre.iommuBase + Offset(slot, TRE_SIZE)
      modifies this`results, this`dbReg, this`dbMode, this`ctxtIx, this`dbIx
      modifies tre`rp, tre`rpIx, tre`ctxtWp, buf`rp, buf`rpIx, pending
      ensures Valid()
      ensures View() == old(View()).OnEvent(tre.elements, code, slot, evLen, burst, dbAccess)
      ensures pending.value == old(pending.value) - if outbound then |results| - |old(results)| else 0
    {
      if !chState.Enabled? {
        return;
      }
      match code
      case Overflow | Eob | Eot =>
        CompleteTransfers(ptr, evLen, EventStatus(code), pending, slot);
      case Oob | DbMode =>
        SwitchToDoorbells(dbAccess);
      case OtherCode =>
    }

    /** `mhi_reset_data_chan` for a channel whose buffers belong to the client. */
    method ResetDataChan(pending: PendingPkts)
      requires Valid()
      modifies this`results, tre`rp, tre`rpIx, buf`rp, buf`rpIx, pending
      ensures Valid() && View() == old(View()).Flush(tre.elements)
      ensures pending.value == old(pending.value) - if outbound then |results| - |old(results)| else 0
    {
      ghost var final := View().Flush(tre.elements);
      tre.EmptyIffSame();
      while tre.rp != tre.wp
        invariant Valid() && View().Flush(tre.elements) == final
        invariant tre.rp == tre.wp <==> View().Outstanding() == 0
        invariant pending.value == old(pending.value) - if outbound then |results| - |old(results)| else 0
        decreases View().Outstanding()
      {
        FlushOne(pending);
      }
    }

    /** One turn of the reset loop: the front element comes back, and the packet count follows. */
    method FlushOne(pending: PendingPkts)
      requires Valid() && View().Outstanding() > 0
      modifies this`results, tre`rp, tre`rpIx, buf`rp, buf`rpIx, pending
      ensures Valid() && View() == old(View()).Pop(tre.elements, 0, StatusNotConn)
      ensures View().Flush(tre.elements) == old(View()).Flush(tre.elements)
      ensures tre.rp == tre.wp <==> View().Outstanding() == 0
      ensures pending.value == old(pending.value) - (if outbound then 1 else 0) && |results| == |old(results)| + 1
    {
      if outbound {
        pending.value := pending.value - 1;
      }
      ReturnFront(0, StatusNotConn);
      tre.EmptyIffSame();
    }

    /** A freshly allocated buffer ring. */
    method NewBufRing(newBase: nat)
      requires Valid() && View().Outstanding() == 0
      modifies this`bufMem, this`buf
      ensures Valid() && View() == old(View())
      ensures fresh(buf) && fresh(bufMem) && buf.elements == old(buf.elements)
      ensures buf.rp == buf.wp == buf.base
    {
      bufMem := new BufInfo[buf.elements](_ => ZERO_BUF_INFO);
      buf := new Ring(newBase, 0, BUF_INFO_SIZE, buf.elements);
    }

    /** `mhi_init_chan_ctxt`: a fresh buffer ring at `newBase`, or -ENOMEM. */
    method InitChanCtxt(newBase: nat, allocOk: bool) returns (ok: bool)
      requires Valid() && View().Outstanding() == 0
      modifies this`bufMem, this`buf, this`dbMode, this`ctxtIx, this`start, tre
      ensures Valid() && ok == allocOk
      ensures View() == if ok then old(View()).Init() else old(View())
      ensures ok ==> fresh(buf) && fresh(bufMem) && dbMode
      ensures ok ==> tre.rp == tre.wp == tre.base && buf.rp == buf.wp == buf.base && tre.ctxtWp == tre.iommuBase
    {
      if !allocOk {
        return false;
      }
      NewBufRing(newBase);
      start := |accepted|;
      tre.ctxtWp, ctxtIx := tre.iommuBase, 0;
      tre.rp, tre.wp := tre.base, tre.base;
      tre.rpIx, tre.wpIx := 0, 0;
      dbMode := true;
      ok := true;
    }
  }
}
