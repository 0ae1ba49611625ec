/**
 Software event rings: the device writes events up to the host's write pointer, which trails the
 read pointer by one slot, and the host consumes and recycles them one at a time.
*/
module EventRings {
  import opened Rings
  import opened PmStates

  const EVENT_SIZE: nat := 16  // sizeof(struct mhi_tre)

  const TYPE_TX: nat := 0x22
  const TYPE_RSC_TX: nat := 0x28
  const TYPE_STALE: nat := 0x51

  datatype EvTre = EvTre(ptr: nat, dword0: nat, dword1: nat)

  // ---- MHI_TRE_GET_EV_* and MHI_TRE_EV_DWORD1 ----

  function EvCode(t: EvTre): nat { (t.dword0 / 0x1000000) % 0x100 }
  function EvLen(t: EvTre): nat { t.dword0 % 0x10000 }
  function EvChid(t: EvTre): nat { (t.dword1 / 0x1000000) % 0x100 }
  function EvType(t: EvTre): nat { (t.dword1 / 0x10000) % 0x100 }
  function EvDword1(chid: nat, ty: nat): nat { chid * 0x1000000 + ty * 0x10000 }

  lemma Dword1RoundTrip(t: EvTre, chid: nat, ty: nat)
    requires chid < 0x100 && ty < 0x100
    ensures var s := t.(dword1 := EvDword1(chid, ty));
            EvChid(s) == chid && EvType(s) == ty && EvCode(s) == EvCode(t) && EvLen(s) == EvLen(t)
  {
    var d := EvDword1(chid, ty);
    assert d == (chid * 0x100 + ty) * 0x10000;
    assert d / 0x10000 == chid * 0x100 + ty;
    assert d / 0x1000000 == chid;
  }

  /** The first word the device writes: completion code and length. */
  function EvDword0(code: nat, len: nat): nat { code * 0x1000000 + len }

  /** An event as the device writes it reads back field by field. */
  lemma EventRoundTrip(ptr: nat, code: nat, len: nat, chid: nat, ty: nat)
    requires code < 0x100 && len < 0x10000 && chid < 0x100 && ty < 0x100
    ensures var t := EvTre(ptr, EvDword0(code, len), EvDword1(chid, ty));
            EvCode(t) == code && EvLen(t) == len && EvChid(t) == chid && EvType(t) == ty
  {
    var t := EvTre(ptr, EvDword0(code, len), EvDword1(chid, ty));
    Dword1RoundTrip(t, chid, ty);
    assert t.dword0 == (code * 0x100) * 0x10000 + len;
    assert t.dword0 / 0x1000000 == code;
  }

  /** The event `mhi_mark_stale_events` leaves behind. */
  function Staled(t: EvTre, chan: nat): (s: EvTre) {
    if EvType(t) == TYPE_TX && EvChid(t) == chan then t.(dword1 := EvDword1(chan, TYPE_STALE)) else t
  }

  function StaledAll(es: seq<EvTre>, chan: nat): (r: seq<EvTre>)
    ensures |r| == |es| && forall i :: 0 <= i < |es| ==> r[i] == Staled(es[i], chan)
  {
    seq(|es|, i requires 0 <= i < |es| => Staled(es[i], chan))
  }

  /** A stale event is never dispatched, still carries its channel and completion, and marking is idempotent. */
  lemma StaledIsInert(t: EvTre, chan: nat, maxChan: nat)
    requires chan < 0x100 && EvType(t) == TYPE_TX && EvChid(t) == chan
    ensures !IsTransfer(Staled(t, chan), maxChan)
    ensures EvChid(Staled(t, chan)) == chan && EvCode(Staled(t, chan)) == EvCode(t)
    ensures Staled(Staled(t, chan), chan) == Staled(t, chan)
  {
    Dword1RoundTrip(t, chan, TYPE_STALE);
  }

  // ---- What one call to a data event ring consumes ----

  /** Events that are dispatched to a channel and count against the quota. */
  predicate IsTransfer(t: EvTre, maxChan: nat) {
    EvChid(t) < maxChan && (EvType(t) == TYPE_TX || EvType(t) == TYPE_RSC_TX)
  }

  /** By its words: an event for a channel there is, of type 0x22 or 0x28. */
  lemma TransferWords(ptr: nat, code: nat, len: nat, chid: nat, ty: nat, maxChan: nat)
    requires code < 0x100 && len < 0x10000 && chid < 0x100 && ty < 0x100
    ensures IsTransfer(EvTre(ptr, EvDword0(code, len), EvDword1(chid, ty)), maxChan) <==>
            chid < maxChan && (ty == 0x22 || ty == 0x28)
  {
    EventRoundTrip(ptr, code, len, chid, ty);
  }

  /** A marked event is one of type 0x51, and only events of type 0x22 for the channel are marked. */
  lemma StaledWords(t: EvTre, chan: nat, chid: nat, ty: nat)
    requires chan < 0x100 && chid < 0x100 && ty < 0x100 && t.dword1 == EvDword1(chid, ty)
    ensures Staled(t, chan) == if ty == 0x22 && chid == chan then t.(dword1 := EvDword1(chan, 0x51)) else t
  {
    Dword1RoundTrip(t, chid, ty);
    assert t.(dword1 := EvDword1(chid, ty)) == t;
  }

  function Transfers(es: seq<EvTre>, maxChan: nat): (r: seq<EvTre>)
    ensures |r| <= |es|
  {
    if es == [] then []
    else (if IsTransfer(es[0], maxChan) then [es[0]] else []) + Transfers(es[1..], maxChan)
  }

  /** How many events a call with this quota takes off the ring. */
  function Consumed(es: seq<EvTre>, quota: nat, maxChan: nat): (k: nat)
    ensures k <= |es|
  {
    if es == [] || quota == 0 then 0
    else 1 + Consumed(es[1..], if IsTransfer(es[0], maxChan) then quota - 1 else quota, maxChan)
  }

  /** A call stops only when the ring is drained or exactly `quota` transfers were dispatched, and not before. */
  lemma {:induction false} ConsumedStops(es: seq<EvTre>, quota: nat, maxChan: nat)
    ensures var k := Consumed(es, quota, maxChan);
            && |Transfers(es[..k], maxChan)| <= quota
            && (k == |es| || |Transfers(es[..k], maxChan)| == quota)
            && (forall j :: 0 <= j < k ==> |Transfers(es[..j], maxChan)| < quota)
  {
    var k := Consumed(es, quota, maxChan);
    if es != [] && quota > 0 {
      var t := IsTransfer(es[0], maxChan);
      ConsumedStops(es[1..], if t then quota - 1 else quota, maxChan);
      assert es[..k][1..] == es[1..][..k - 1];
      forall j | 0 <= j < k ensures |Transfers(es[..j], maxChan)| < quota {
        if j > 0 {
          assert es[..j][1..] == es[1..][..j - 1];
        }
      }
    }
  }

  /** What is dispatched is what the ring holds, event by event: transfers yes, all others no. */
  lemma {:induction false} TransfersAre(es: seq<EvTre>, t: EvTre, maxChan: nat)
    ensures multiset(Transfers(es, maxChan))[t] == if IsTransfer(t, maxChan) then multiset(es)[t] else 0
  {
    if es != [] {
      var rest := Transfers(es[1..], maxChan);
      TransfersAre(es[1..], t, maxChan);
      assert es == [es[0]] + es[1..];
      assert Transfers(es, maxChan) == (if IsTransfer(es[0], maxChan) then [es[0]] else []) + rest;
      assert [] + rest == rest;
    }
  }

  predicate AllTransfers(es: seq<EvTre>, maxChan: nat) {
    forall i :: 0 <= i < |es| ==> IsTransfer(es[i], maxChan)
  }

  lemma {:induction false} TransfersMiss(es: seq<EvTre>, i: nat, maxChan: nat)
    requires i < |es| && !IsTransfer(es[i], maxChan)
    ensures |Transfers(es, maxChan)| < |es|
  {
    if i > 0 {
      TransfersMiss(es[1..], i - 1, maxChan);
    }
  }

  lemma {:induction false} TransfersAll(es: seq<EvTre>, maxChan: nat)
    requires AllTransfers(es, maxChan)
    ensures Transfers(es, maxChan) == es
  {
    if es != [] {
      TransfersAll(es[1..], maxChan);
    }
  }

  /**
   `mhi_poll` returns the number of events taken off the ring. It exceeds the budget exactly when
   more events than that are pending and some of the first `budget` of them is no transfer event.
  */
  lemma PollOverrunsBudget(es: seq<EvTre>, budget: nat, maxChan: nat)
    ensures Consumed(es, budget, maxChan) > budget <==>
            budget > 0 && |es| > budget && !AllTransfers(es[..budget], maxChan)
  {
    var k := Consumed(es, budget, maxChan);
    ConsumedStops(es, budget, maxChan);
    if |es| > budget && budget > 0 {
      if AllTransfers(es[..budget], maxChan) {
        TransfersAll(es[..budget], maxChan);
      } else {
        var i :| 0 <= i < budget && !IsTransfer(es[..budget][i], maxChan);
        TransfersMiss(es[..budget], i, maxChan);
      }
    }
  }

  lemma PollOverrunExample()
    ensures var stale, tx := EvTre(0, 0, EvDword1(5, TYPE_STALE)), EvTre(0, 0, EvDword1(5, TYPE_TX));
            Consumed([stale, tx], 1, 128) == 2
  {
    var stale, tx := EvTre(0, 0, EvDword1(5, TYPE_STALE)), EvTre(0, 0, EvDword1(5, TYPE_TX));
    assert [stale, tx][1..] == [tx];
    assert Consumed([tx], 1, 128) == 1;
  }

  // ---- The ring ----

  /** The k events from slot `from` on. */
  function Window(mem: seq<EvTre>, from: nat, k: nat): (es: seq<EvTre>)
    requires from < |mem| && k <= |mem|
    ensures |es| == k && forall i :: 0 <= i < k ==> es[i] == mem[Wrap(from + i, |mem|)]
  {
    seq(k, i requires 0 <= i < k => mem[Wrap(from + i, |mem|)])
  }

  class EventRing {
    const ring: Ring
    const mem: array<EvTre>
    const burst: bool
    var devRp: nat       // er_ctxt->rp, written by the device
    var dbMode: bool
    var dbReg: nat
    ghost var devIx: nat

    ghost predicate Shape()
      reads this, ring
    {
      && ring.Valid() && ring.elSize == EVENT_SIZE
      && mem.Length == ring.elements
      && devIx < ring.elements && devRp == ring.iommuBase + Offset(devIx, EVENT_SIZE)
    }

    /** The write pointer trails the read pointer by one slot and the context word mirrors it. */
    ghost predicate Valid()
      reads this, ring
    {
      && Shape()
      && Wrap(ring.wpIx + 1, ring.elements) == ring.rpIx
      && ring.ctxtWp == ring.iommuBase + (ring.wp - ring.base)
    }

    /** Events posted and not yet consumed. */
    ghost function Unread(): (es: seq<EvTre>)
      requires Shape()
      reads this, ring, mem
    {
      Window(mem[..], ring.rpIx, Distance(ring.rpIx, devIx, ring.elements))
    }

    /** As `mhi_init_dev_ctxt` leaves it: all pointers at the base. */
    constructor (base: nat, iommuBase: nat, elements: nat, burst: bool)
      requires elements > 0
      ensures Shape() && Unread() == []
    {
      ring := new Ring(base, iommuBase, EVENT_SIZE, elements);
      mem := new EvTre[elements](_ => EvTre(0, 0, 0));
      this.burst := burst;
      devRp, devIx := iommuBase, 0;
      dbMode, dbReg := true, iommuBase;
    }

    /** `mhi_ring_er_db`. */
    method RingErDb()
      requires Shape()
      modifies this`dbMode, this`dbReg
      ensures Shape() && (!burst || old(dbMode) ==> dbReg == ring.ctxtWp)
      ensures (burst && !old(dbMode) ==> dbReg == old(dbReg)) && (dbMode <==> old(dbMode) && !burst)
    {
      if !burst {
        dbReg := ring.ctxtWp;
      } else if dbMode {
        dbReg := ring.ctxtWp;
        dbMode := false;
      }
    }

    /**
     `mhi_ready_state_transition` puts the write pointer on the last element, wherever the read pointer
     is: one slot behind it, as it should be, exactly if no event was consumed since the last reset.
    */
    method AddElements()
      requires Shape()
      modifies ring`wp, ring`wpIx, ring`ctxtWp, this`dbMode, this`dbReg
      ensures Shape() && Unread() == old(Unread()) && ring.wpIx == ring.elements - 1
      ensures ring.ctxtWp == ring.iommuBase + (ring.wp - ring.base)
      ensures Valid() <==> old(ring.rpIx) == 0
      ensures !burst || old(dbMode) ==> dbReg == ring.ctxtWp
    {
      ghost var last := ring.elements - 1;
      assert Offset(ring.elements, EVENT_SIZE) == Offset(last, EVENT_SIZE) + EVENT_SIZE;
      ring.wp := ring.base + ring.len - ring.elSize;
      ring.ctxtWp := ring.iommuBase + ring.len - ring.elSize;
      ring.wpIx := last;
      RingErDb();
    }

    /** The event-ring part of `mhi_pm_disable_transition`. */
    method Reset()
      requires Shape()
      modifies this`devRp, this`devIx, ring`rp, ring`wp, ring`rpIx, ring`wpIx, ring`ctxtWp
      ensures Shape() && ring.rpIx == 0 && Unread() == []
      ensures ring.rp == ring.wp == ring.base && ring.ctxtWp == devRp == ring.iommuBase
    {
      ring.rp, ring.wp := ring.base, ring.base;
      ring.rpIx, ring.wpIx := 0, 0;
      devRp, devIx := ring.iommuBase, 0;
      ring.ctxtWp := ring.iommuBase;
    }

    /** The device posts at its read pointer unless that is the host's write pointer: no unread event is lost. */
    method DevicePost(t: EvTre)
      requires Valid() && devIx != ring.wpIx
      modifies this`devRp, this`devIx, mem
      ensures Valid() && Unread() == old(Unread()) + [t]
    {
      ring.SlotOrder(devIx, ring.elements);
      OffsetIndex(devIx, EVENT_SIZE);
      if devIx + 1 < ring.elements {
        ring.SlotOrder(devIx + 1, ring.elements);
      }
      mem[(devRp - ring.iommuBase) / EVENT_SIZE] := t;
      devRp := if devRp + EVENT_SIZE >= ring.iommuBase + ring.len then ring.iommuBase else devRp + EVENT_SIZE;
      devIx := Wrap(devIx + 1, ring.elements);
    }

    lemma DrainedIffSame(devVirt: nat)
      requires Shape() && devVirt == (devRp - ring.iommuBase) + ring.base
      ensures devVirt == ring.rp <==> Unread() == []
    {
      if ring.rpIx < devIx {
        ring.SlotOrder(ring.rpIx, devIx);
      } else if devIx < ring.rpIx {
        ring.SlotOrder(devIx, ring.rpIx);
      }
    }

    /** Recycling the element under `rp` drops it from the unread events and keeps the one-slot gap. */
    method Recycle()
      requires Valid() && Unread() != []
      modifies ring`rp, ring`rpIx, ring`wp, ring`wpIx, ring`ctxtWp
      ensures Valid() && Unread() == old(Unread())[1..]
    {
      ring.RecycleElement();
      assert Unread() == old(Unread())[1..];
    }

    method Head() returns (t: EvTre)
      requires Valid() && Unread() != []
      ensures t == Unread()[0]
    {
      ring.SlotIndex(ring.rp, ring.rpIx);
      t := mem[(ring.rp - ring.base) / ring.elSize];
    }

    /** The device has caught up with the host's write pointer exactly if the two device addresses are the same. */
    lemma DeviceFull()
      requires Valid()
      ensures devRp == ring.ctxtWp <==> devIx == ring.wpIx
    {
      if devIx < ring.wpIx {
        ring.SlotOrder(devIx, ring.wpIx);
      } else if ring.wpIx < devIx {
        ring.SlotOrder(ring.wpIx, devIx);
      }
    }

    /** The device posts events as long as there is room. */
    method DeviceBurst(es: seq<EvTre>) returns (ghost posted: seq<EvTre>)
      requires Valid()
      modifies this`devRp, this`devIx, mem
      ensures Valid() && posted <= es && Unread() == old(Unread()) + posted
    {
      posted := [];
      var i := 0;
      DeviceFull();
      while i < |es| && devRp != ring.ctxtWp
        invariant Valid() && i <= |es| && posted == es[..i] && Unread() == old(Unread()) + posted
        invariant devRp == ring.ctxtWp <==> devIx == ring.wpIx
      {
        DevicePost(es[i]);
        DeviceFull();
        posted, i := posted + [es[i]], i + 1;
      }
    }

    /**
     `mhi_process_data_event_ring`, while the device goes on posting: `bursts` is what it posts in each
     turn of the loop. `handled` are the events given to the transfer parsers, in order, `posted` those
     that arrived meanwhile.
    */
    method ProcessData(pm: Pm, quota: nat, maxChan: nat, dbAccess: bool, bursts: seq<seq<EvTre>>)
      returns (ok: bool, count: nat, handled: seq<EvTre>, ghost posted: seq<EvTre>)
      requires Valid()
      modifies ring`rp, ring`rpIx, ring`wp, ring`wpIx, ring`ctxtWp
      modifies this`dbMode, this`dbReg, this`devRp, this`devIx, mem
      ensures Valid() && (ok <==> pm.Por? || pm.M0? || pm.M2? || pm.M3Enter? || pm.M3? || pm.M3Exit?)
      ensures !ok ==> count == 0 && handled == [] && posted == [] && Unread() == old(Unread())
      ensures var all := old(Unread()) + posted;
              ok ==>
                && count == Consumed(all, quota, maxChan)
                && handled == Transfers(all[..count], maxChan)
                && Unread() == all[count..]
      ensures ok && dbAccess && (!burst || old(dbMode)) ==> dbReg == ring.ctxtWp
      ensures !ok || !dbAccess || (burst && !old(dbMode)) ==> dbReg == old(dbReg)
      ensures dbMode <==> old(dbMode) && !(ok && dbAccess && burst)
    {
      ok, count, handled, posted := !EventAccessInvalid(pm), 0, [], [];
      if ok {
        count, handled, posted := Drain(quota, maxChan, bursts);
        if dbAccess {
          RingErDb();
        }
      }
    }

    /** The loop of `mhi_process_data_event_ring`. */
    method Drain(quota: nat, maxChan: nat, bursts: seq<seq<EvTre>>)
      returns (count: nat, handled: seq<EvTre>, ghost posted: seq<EvTre>)
      requires Valid()
      modifies ring`rp, ring`rpIx, ring`wp, ring`wpIx, ring`ctxtWp, this`devRp, this`devIx, mem
      ensures Valid()
      ensures var all := old(Unread()) + posted;
              && count == Consumed(all, quota, maxChan)
              && handled == Transfers(all[..count], maxChan)
              && Unread() == all[count..]
    {
      ghost var start := Unread();
      var left, rest := quota, bursts;
      count, handled, posted := 0, [], [];
      assert start + [] == start && start[..0] == [] && start[0..] == start;
      DrainedIffSame((devRp - ring.iommuBase) + ring.base);
      while (devRp - ring.iommuBase) + ring.base != ring.rp && left > 0
        invariant Mid(start + posted, count, quota, left, handled, maxChan)
        invariant (devRp - ring.iommuBase) + ring.base == ring.rp <==> Unread() == []
        decreases |rest|, |Unread()|
      {
        var next, burst := count + 1, if rest == [] then [] else rest[0];
        left, handled, posted := ConsumeTurn(start, posted, count, next, quota, left, handled, maxChan, burst);
        rest := if rest == [] then [] else rest[1..];
        count := next;
      }
      SoFarStops(start + posted, count, quota, left, handled, maxChan);
    }

    /** In the middle of a call: of the events there were and came, the first `count` are consumed. */
    ghost predicate Mid(all: seq<EvTre>, count: nat, quota: nat, left: nat, handled: seq<EvTre>, maxChan: nat)
      reads this, ring, mem
    {
      Valid() && count <= |all| && Unread() == all[count..] && SoFar(all[..count], quota, left, handled, maxChan)
    }

    /** One turn of the data-ring loop, and what the device posts before the next. */
    method ConsumeTurn(ghost start: seq<EvTre>, ghost before: seq<EvTre>, ghost count: nat, ghost next: nat,
                       ghost quota: nat, left: nat, handled: seq<EvTre>, maxChan: nat, burst: seq<EvTre>)
      returns (left': nat, handled': seq<EvTre>, ghost posted: seq<EvTre>)
      requires next == count + 1 && Mid(start + before, count, quota, left, handled, maxChan)
      requires Unread() != [] && left > 0
      modifies ring`rp, ring`rpIx, ring`wp, ring`wpIx, ring`ctxtWp, this`devRp, this`devIx, mem
      ensures Mid(start + posted, next, quota, left', handled', maxChan)
      ensures burst == [] ==> |Unread()| < |old(Unread())|
      ensures (devRp - ring.iommuBase) + ring.base == ring.rp <==> Unread() == []
    {
      ghost var all := start + before;
      var transfer, t;
      transfer, t, left' := ConsumeOne(left, maxChan);
      SoFarNext(all[..count], t, quota, left', handled, transfer, maxChan);
      handled' := if transfer then handled + [t] else handled;
      ghost var more := PostMore(all, count, next, t, quota, left', handled', maxChan, burst);
      posted := before + more;
      Joined(start, before, more);
    }

    /** What the device posts between two turns joins the events still to be consumed. */
    method PostMore(ghost all: seq<EvTre>, ghost count: nat, ghost next: nat, ghost t: EvTre, ghost quota: nat,
                    ghost left: nat, ghost handled: seq<EvTre>, ghost maxChan: nat, burst: seq<EvTre>)
      returns (ghost more: seq<EvTre>)
      requires Valid() && next == count + 1 && count < |all| && t == all[count..][0] && Unread() == all[count..][1..]
      requires SoFar(all[..count] + [t], quota, left, handled, maxChan)
      modifies this`devRp, this`devIx, mem
      ensures Mid(all + more, next, quota, left, handled, maxChan) && more <= burst
      ensures Unread() == old(Unread()) + more
      ensures (devRp - ring.iommuBase) + ring.base == ring.rp <==> Unread() == []
    {
      more := DeviceBurst(burst);
      TurnSplits(all, count, next, t, more);
      DrainedIffSame((devRp - ring.iommuBase) + ring.base);
    }

    /** One turn of the data-ring loop: look at the head, recycle it, and say whether it is a transfer. */
    method ConsumeOne(left: nat, maxChan: nat) returns (transfer: bool, t: EvTre, rest: nat)
      requires Valid() && Unread() != [] && left > 0
      modifies ring`rp, ring`rpIx, ring`wp, ring`wpIx, ring`ctxtWp
      ensures Valid() && t == old(Unread())[0] && Unread() == old(Unread())[1..]
      ensures transfer == IsTransfer(t, maxChan) && rest == if transfer then left - 1 else left
    {
      t := Head();
      transfer := EvChid(t) < maxChan && (EvType(t) == TYPE_TX || EvType(t) == TYPE_RSC_TX);
      rest := if transfer then left - 1 else left;
      Recycle();
    }

    /** Neutralise the i-th unread event, at slot `ix`, if it is a transfer event of this channel. */
    method MarkOne(localRp: nat, chan: nat, ghost i: nat, ghost ix: nat)
      requires Valid() && chan < 0x100 && i < |Unread()|
      requires ix == Wrap(ring.rpIx + i, ring.elements) && localRp == ring.SlotAddr(ix)
      modifies mem
      ensures Valid() && Unread() == old(Unread())[i := Staled(old(Unread())[i], chan)]
    {
      ring.SlotIndex(localRp, ix);
      var k := (localRp - ring.base) / ring.elSize;
      assert mem[k] == Unread()[i];
      if EvType(mem[k]) == TYPE_TX && chan == EvChid(mem[k]) {
        WindowUpdate(mem[..], ring.rpIx, |Unread()|, i, Staled(mem[k], chan));
        mem[k] := mem[k].(dword1 := EvDword1(chan, TYPE_STALE));
      }
    }

    /** The slot after `localRp`, by pointer increment and the end-of-ring test. */
    method NextSlot(localRp: nat, ghost ix: nat) returns (next: nat)
      requires Shape() && ix < ring.elements && localRp == ring.SlotAddr(ix)
      ensures next == ring.SlotAddr(Wrap(ix + 1, ring.elements))
    {
      next := localRp + EVENT_SIZE;
      ring.SlotOrder(ix, ring.elements);
      assert ring.SlotAddr(ix + 1) == ring.SlotAddr(ix) + EVENT_SIZE;
      if ix + 1 < ring.elements {
        ring.SlotOrder(ix + 1, ring.elements);
      }
      if next == ring.base + ring.len {
        next := ring.base;
      }
    }

    lemma AtDevice(p: nat, ix: nat)
      requires Shape() && ix < ring.elements && p == ring.SlotAddr(ix)
      ensures p == (devRp - ring.iommuBase) + ring.base <==> ix == devIx
    {
      if ix < devIx {
        ring.SlotOrder(ix, devIx);
      } else if devIx < ix {
        ring.SlotOrder(devIx, ix);
      }
    }

    /** One turn of the marking loop. */
    method MarkNext(localRp: nat, chan: nat, ghost all: seq<EvTre>, ghost i: nat, ghost ix: nat) returns (next: nat)
      requires Valid() && chan < 0x100 && i < |all| && Unread() == StaledTo(all, chan, i)
      requires ix == Wrap(ring.rpIx + i, ring.elements) && localRp == ring.SlotAddr(ix)
      modifies mem
      ensures Valid() && Unread() == StaledTo(all, chan, i)[i := Staled(all[i], chan)]
      ensures next == ring.SlotAddr(Wrap(ix + 1, ring.elements))
      ensures next == (devRp - ring.iommuBase) + ring.base <==> Wrap(ix + 1, ring.elements) == devIx
    {
      MarkOne(localRp, chan, i, ix);
      next := NextSlot(localRp, ix);
      AtDevice(next, Wrap(ix + 1, ring.elements));
    }

    /** `mhi_mark_stale_events`: the channel's unread transfer events become stale, all else stays. */
    method MarkStale(chan: nat)
      requires Valid() && chan < 0x100
      modifies mem
      ensures Valid() && Unread() == StaledAll(old(Unread()), chan)
    {
      ghost var all := Unread();
      ghost var i: nat, ix: nat := 0, ring.rpIx;
      var localRp := ring.rp;
      var dev := (devRp - ring.iommuBase) + ring.base;
      AtDevice(localRp, ix);
      while localRp != dev
        invariant Marking(all, chan, i, ix, localRp)
        invariant localRp == dev <==> i == |all|
        decreases |all| - i
      {
        ghost var next: nat, nextIx: nat := i + 1, Wrap(ix + 1, ring.elements);
        localRp := MarkTurn(localRp, chan, all, i, next, ix, nextIx);
        i, ix := next, nextIx;
      }
    }

    /** In the middle of marking: the first i events are marked, and `localRp` is at the slot of the next. */
    ghost predicate Marking(all: seq<EvTre>, chan: nat, i: nat, ix: nat, localRp: nat)
      reads this, ring, mem
    {
      && Valid() && ix < ring.elements && localRp == ring.SlotAddr(ix)
      && i <= |all| && |all| == |Unread()| && ix == Wrap(ring.rpIx + i, ring.elements)
      && Unread() == StaledTo(all, chan, i)
    }

    method MarkTurn(localRp: nat, chan: nat, ghost all: seq<EvTre>, ghost i: nat, ghost next: nat, ghost ix: nat,
                    ghost nextIx: nat)
      returns (nextRp: nat)
      requires chan < 0x100 && Marking(all, chan, i, ix, localRp) && i < |all|
      requires next == i + 1 && nextIx == Wrap(ix + 1, ring.elements)
      modifies mem
      ensures Marking(all, chan, next, nextIx, nextRp)
      ensures nextRp == (devRp - ring.iommuBase) + ring.base <==> next == |all|
    {
      nextRp := MarkNext(localRp, chan, all, i, ix);
      StaledNext(all, chan, i, next);
      DistanceUnique(ring.rpIx, next, ring.elements);
    }
  }

  /** The first i events marked. */
  ghost function StaledTo(es: seq<EvTre>, chan: nat, i: nat): (r: seq<EvTre>)
    requires i <= |es|
    ensures |r| == |es| && forall j :: 0 <= j < |es| ==> r[j] == if j < i then Staled(es[j], chan) else es[j]
  {
    StaledAll(es[..i], chan) + es[i..]
  }

  lemma StaledNext(es: seq<EvTre>, chan: nat, i: nat, next: nat)
    requires i < |es| && next == i + 1
    ensures StaledTo(es, chan, i)[i := Staled(es[i], chan)] == StaledTo(es, chan, next)
  {
  }

  lemma WindowUpdate(mem: seq<EvTre>, from: nat, k: nat, i: nat, t: EvTre)
    requires from < |mem| && i < k <= |mem|
    ensures Window(mem[Wrap(from + i, |mem|) := t], from, k) == Window(mem, from, k)[i := t]
  {
  }

  /** The loop has taken exactly the events `done` off the ring, dispatched `handled`, and has `left` of its quota. */
  ghost predicate SoFar(done: seq<EvTre>, quota: nat, left: nat, handled: seq<EvTre>, maxChan: nat) {
    && handled == Transfers(done, maxChan) && |handled| + left == quota
    && Consumed(done, quota, maxChan) == |done|
  }

  lemma {:induction false} TransfersAppend(a: seq<EvTre>, b: seq<EvTre>, ab: seq<EvTre>, maxChan: nat)
    requires ab == a + b
    ensures Transfers(ab, maxChan) == Transfers(a, maxChan) + Transfers(b, maxChan)
    decreases |a|
  {
    if a == [] {
      assert ab == b;
    } else {
      assert ab[1..] == a[1..] + b;
      TransfersAppend(a[1..], b, ab[1..], maxChan);
      var first := if IsTransfer(a[0], maxChan) then [a[0]] else [];
      var ta, tb := Transfers(a[1..], maxChan), Transfers(b, maxChan);
      assert first + (ta + tb) == (first + ta) + tb;
    }
  }

  /** Events behind a part that is consumed whole are consumed with what is left of the quota. */
  lemma {:induction false} ConsumedAppend(a: seq<EvTre>, b: seq<EvTre>, ab: seq<EvTre>, quota: nat, left: nat,
                                          maxChan: nat)
    requires ab == a + b && Consumed(a, quota, maxChan) == |a| && |Transfers(a, maxChan)| + left == quota
    ensures Consumed(ab, quota, maxChan) == |a| + Consumed(b, left, maxChan)
    decreases |a|
  {
    if a == [] {
      assert ab == b;
    } else {
      assert ab[1..] == a[1..] + b;
      ConsumedAppend(a[1..], b, ab[1..], if IsTransfer(a[0], maxChan) then quota - 1 else quota, left, maxChan);
    }
  }

  lemma SoFarNext(done: seq<EvTre>, t: EvTre, quota: nat, left: nat, handled: seq<EvTre>, transfer: bool, maxChan: nat)
    requires transfer == IsTransfer(t, maxChan)
    requires SoFar(done, quota, if transfer then left + 1 else left, handled, maxChan) && (transfer || left > 0)
    ensures SoFar(done + [t], quota, left, if transfer then handled + [t] else handled, maxChan)
  {
    TransfersAppend(done, [t], done + [t], maxChan);
    ConsumedAppend(done, [t], done + [t], quota, if transfer then left + 1 else left, maxChan);
  }

  lemma TurnSplits(all: seq<EvTre>, count: nat, next: nat, t: EvTre, more: seq<EvTre>)
    requires next == count + 1 && count < |all| && t == all[count..][0]
    ensures (all + more)[..next] == all[..count] + [t] && (all + more)[next..] == all[count..][1..] + more
  {
  }

  lemma Joined(a: seq<EvTre>, b: seq<EvTre>, c: seq<EvTre>)
    ensures a + (b + c) == (a + b) + c
  {
  }

  lemma SoFarStops(all: seq<EvTre>, count: nat, quota: nat, left: nat, handled: seq<EvTre>, maxChan: nat)
    requires count <= |all| && SoFar(all[..count], quota, left, handled, maxChan)
    requires all[count..] == [] || left == 0
    ensures Consumed(all, quota, maxChan) == count
  {
    ConsumedAppend(all[..count], all[count..], all, quota, left, maxChan);
  }
}
