/**
 The character device over a pair of MHI channels: `mhi_uci_write` cuts what user space writes into
 chunks for the uplink ring, `mhi_uci_read` hands out what the downlink ring received, packet by
 packet, and gives each used-up buffer back to the ring.
*/
module Uci {
  import opened Bytes
  import opened UciSpec

  // ---- Writing ----

  /**
   One uplink buffer: its bytes, whether it was flagged MHI_CHAIN rather than MHI_EOT, whether the
   writer had to wait for a free descriptor to queue it, and how many were free afterwards.
  */
  datatype Chunk = Chunk(data: seq<Byte>, chain: bool, waited: bool, free: nat)

  /** What the world does in one turn of the write loop. */
  datatype Wakeup = Signal | Removed | Freed(more: nat)
  datatype Turn = Turn(freed: nat, wakeup: Wakeup, allocOk: bool, copyOk: bool, queueOk: bool)

  datatype WriteResult = Written(n: nat) | WriteErr(error: Errno)

  function Datas(cs: seq<Chunk>): (ds: seq<seq<Byte>>)
    ensures |ds| == |cs|
  {
    if cs == [] then [] else Datas(cs[..|cs| - 1]) + [cs[|cs| - 1].data]
  }

  /** All the bytes of a list of chunks. */
  function BytesOf(cs: seq<Chunk>): (s: seq<Byte>) {
    Concat(Datas(cs))
  }

  lemma BytesAppend(cs: seq<Chunk>, c: Chunk)
    ensures BytesOf(cs + [c]) == BytesOf(cs) + c.data
  {
    assert (cs + [c])[..|cs|] == cs;
    ConcatAppend(Datas(cs), c.data);
  }

  /**
   Chunks are never empty, and full up to the last; one with another behind it is chained to it
   exactly if a descriptor is free for that one, which then need not wait.
  */
  predicate ChunkOk(cs: seq<Chunk>, k: nat, mtu: nat)
    requires k < |cs|
  {
    && 0 < |cs[k].data| <= mtu
    && (k + 1 < |cs| ==> |cs[k].data| == mtu && (cs[k].chain <==> cs[k].free > 0))
    && (cs[k].chain ==> cs[k].free > 0 && (k + 1 < |cs| ==> !cs[k + 1].waited))
  }

  predicate ChunksOk(cs: seq<Chunk>, mtu: nat) {
    forall k: nat | k < |cs| :: ChunkOk(cs, k, mtu)
  }

  /** Descriptors free when turn k of a write begins, and `free` of them when the write does. */
  function FreeBefore(cs: seq<Chunk>, k: nat, free: nat): (n: nat)
    requires k <= |cs|
  {
    if k == 0 then free else cs[k - 1].free
  }

  /**
   Turn t of a write that may wait or not, with `free` descriptors before it, goes wrong with this error: the
   first thing that fails decides.
  */
  predicate FailsWith(error: Errno, enabled: bool, nonblock: bool, free: nat, t: Turn) {
    var none := free + t.freed == 0;
    var goesOn := enabled && (!none || (!nonblock && t.wakeup.Freed?));
    match error
    case EAGAIN => enabled && none && nonblock
    case ERESTARTSYS => enabled && none && !nonblock && t.wakeup.Signal?
    case ENODEV => !enabled || (none && !nonblock && t.wakeup.Removed?)
    case ENOMEM => goesOn && !t.allocOk
    case EFAULT => goesOn && t.allocOk && !t.copyOk
    case EQUEUE => goesOn && t.allocOk && t.copyOk && !t.queueOk
    case _ => false
  }

  /** Turn t goes well and leaves chunk c: whether it waited, and what is free behind it, on a ring of n elements. */
  predicate GoesWell(enabled: bool, nonblock: bool, free: nat, t: Turn, c: Chunk, n: nat)
    requires n > 1
  {
    && enabled && t.allocOk && t.copyOk && t.queueOk
    && (c.waited <==> free + t.freed == 0)
    && (c.waited ==> !nonblock && t.wakeup.Freed?)
    && c.free + 1 == Min(if c.waited && t.wakeup.Freed? then t.wakeup.more + 1 else free + t.freed, n - 1)
  }

  /** A turn goes wrong, with one error, or well. */
  lemma TurnOutcomes(enabled: bool, nonblock: bool, free: nat, t: Turn, n: nat)
    requires n > 1
    ensures forall e, f: Errno ::
            FailsWith(e, enabled, nonblock, free, t) && FailsWith(f, enabled, nonblock, free, t) ==> e == f
    ensures (exists e: Errno :: FailsWith(e, enabled, nonblock, free, t)) <==>
            forall c :: !GoesWell(enabled, nonblock, free, t, c, n)
  {
    var none := free + t.freed == 0;
    var left: nat := Min(if none && t.wakeup.Freed? then t.wakeup.more + 1 else free + t.freed, n - 1);
    if FailsWith(EAGAIN, enabled, nonblock, free, t) || FailsWith(ERESTARTSYS, enabled, nonblock, free, t)
        || FailsWith(ENODEV, enabled, nonblock, free, t) || FailsWith(ENOMEM, enabled, nonblock, free, t)
        || FailsWith(EFAULT, enabled, nonblock, free, t) || FailsWith(EQUEUE, enabled, nonblock, free, t) {
    } else {
      assert left > 0;
      assert GoesWell(enabled, nonblock, free, t, Chunk([], false, none, left - 1), n);
    }
  }

  predicate OpenChain(cs: seq<Chunk>) {
    cs != [] && cs[|cs| - 1].chain
  }

  lemma ChunksAppend(cs: seq<Chunk>, c: Chunk, mtu: nat)
    requires ChunksOk(cs, mtu) && 0 < |c.data| <= mtu && (c.chain ==> c.free > 0)
    requires cs != [] ==> |cs[|cs| - 1].data| == mtu && (cs[|cs| - 1].chain <==> cs[|cs| - 1].free > 0)
    requires cs != [] && cs[|cs| - 1].chain ==> !c.waited
    ensures ChunksOk(cs + [c], mtu)
  {
    forall k: nat | k < |cs + [c]| ensures ChunkOk(cs + [c], k, mtu) {
      if k < |cs| {
        assert ChunkOk(cs, k, mtu);
      }
    }
  }

  // ---- Reading ----

  /** The packets that reads, grouped by the packet they were served from, add up to. */
  function Packets(groups: seq<seq<seq<Byte>>>): (ps: seq<seq<Byte>>)
    ensures |ps| == |groups|
  {
    if groups == [] then [] else Packets(groups[..|groups| - 1]) + [Concat(groups[|groups| - 1])]
  }

  lemma PacketsAppend(groups: seq<seq<seq<Byte>>>, g: seq<seq<Byte>>)
    ensures Packets(groups + [g]) == Packets(groups) + [Concat(g)]
  {
    assert (groups + [g])[..|groups|] == groups;
  }

  lemma PacketsJoined(ps: seq<seq<Byte>>, cur: seq<Byte>, a: seq<Byte>, b: seq<Byte>, rest: seq<seq<Byte>>)
    requires cur == a + b
    ensures Concat(ps + [cur] + rest) == (Concat(ps) + a) + (b + Concat(rest))
  {
    ConcatAll(ps + [cur], rest);
    ConcatAppend(ps, cur);
  }

  /** A packet's reads joined to those of the packets before it. */
  lemma Closed(groups: seq<seq<seq<Byte>>>, g: seq<seq<Byte>>, next: seq<seq<seq<Byte>>>, cur: seq<Byte>)
    requires next == groups + [g] && Concat(g) == cur
    ensures Packets(next) == Packets(groups) + [cur]
    ensures Concat(Packets(next)) + Concat([]) == Concat(Packets(groups)) + Concat(g)
  {
    PacketsAppend(groups, g);
    ConcatAppend(Packets(groups), Concat(g));
  }

  class UciChan {
    const mtu: nat
    const dlElements: nat
    const ulElements: nat

    var enabled: bool
    var ulFree: nat                 // free descriptors of the uplink ring
    var dlRing: seq<nat>            // lengths of the buffers queued on the downlink ring, oldest first
    var dlPending: seq<seq<Byte>>   // packets waiting to be read
    var curBuf: Current
    var dlSize: nat                 // unread bytes of the current packet

    ghost var received: seq<seq<Byte>>       // every packet kept, in order of arrival
    ghost var done: seq<seq<seq<Byte>>>      // for every packet used up, what the reads copied from it
    ghost var part: seq<seq<Byte>>           // what the reads copied from the current packet

    function Current(): (ps: seq<seq<Byte>>)
      reads this
    {
      if curBuf.Cur? then [curBuf.data] else []
    }

    function View(): (d: Dl)
      reads this
    {
      Dl(mtu, enabled, dlRing, dlPending, curBuf, dlSize)
    }

    /** Buffers of the downlink side: queued, waiting to be read, or being read. */
    function Buffers(): (n: nat)
      reads this
    {
      |dlRing| + |dlPending| + |Current()|
    }

    /** Bytes received and not yet copied. */
    function Unread(): (s: seq<Byte>)
      reads this
    {
      (if curBuf.Cur? && dlSize <= |curBuf.data| then curBuf.data[|curBuf.data| - dlSize..] else []) + Concat(dlPending)
    }

    ghost predicate RingOk()
      reads this
    {
      Buffers() < dlElements && forall k | 0 <= k < |dlRing| :: dlRing[k] <= mtu
    }

    /** Reads never cross a packet: grouped, they add up to the packets, one by one. */
    ghost predicate StreamOk()
      reads this
    {
      && received == Packets(done) + Current() + dlPending
      && (curBuf.Cur? ==> dlSize <= |curBuf.data| && Concat(part) == curBuf.data[..|curBuf.data| - dlSize])
      && (curBuf.NoBuf? ==> part == [])
    }

    ghost function Copied(): (s: seq<Byte>)
      reads this
    {
      Concat(Packets(done)) + Concat(part)
    }

    ghost predicate Valid()
      reads this
    {
      && UBUF_SIZE <= mtu && 1 < ulElements && ulFree < ulElements
      && RingOk() && StreamOk()
    }

    /** `mhi_uci_dev_start_chan` up to the queueing of buffers. */
    constructor (mtu: nat, dlElements: nat, ulElements: nat)
      requires UBUF_SIZE <= mtu && 0 < dlElements && 1 < ulElements
      ensures Valid() && dlRing == [] && received == [] && enabled
      ensures this.mtu == mtu && this.dlElements == dlElements && this.ulElements == ulElements
              && ulFree == ulElements - 1
    {
      this.mtu, this.dlElements, this.ulElements := mtu, dlElements, ulElements;
      enabled, ulFree := true, ulElements - 1;
      dlRing, dlPending, curBuf, dlSize := [], [], NoBuf, 0;
      received, done, part := [], [], [];
    }

    /** `mhi_queue_inbound`: fills the ring, as far as allocation and queueing succeed. */
    method QueueInbound(failAt: nat) returns (ok: bool)
      requires Valid() && dlPending == [] && curBuf.NoBuf?
      modifies this`dlRing
      ensures Valid()
      ensures old(dlRing) <= dlRing && forall k | old(|dlRing|) <= k < |dlRing| :: dlRing[k] == mtu
      ensures ok ==> |dlRing| == dlElements - 1
      ensures ok <==> old(|dlRing|) < dlElements - 1 && dlElements - 1 - old(|dlRing|) <= failAt
    {
      ok := false;
      var nrTrbs := dlElements - 1 - |dlRing|;
      var i := 0;
      while i < nrTrbs
        invariant 0 <= i <= nrTrbs && i <= failAt && ok == (i > 0)
        invariant |dlRing| == old(|dlRing|) + i && Valid()
        invariant old(dlRing) <= dlRing && forall k | old(|dlRing|) <= k < |dlRing| :: dlRing[k] == mtu
      {
        if i == failAt {
          return false;
        }
        dlRing := dlRing + [mtu];
        ok := true;
        i := i + 1;
      }
    }

    /** `mhi_dl_xfer_cb` for the oldest queued buffer: an error other than an overflow drops it. */
    method DlXferCb(status: Status, data: seq<Byte>)
      requires Valid() && dlRing != [] && |data| <= dlRing[0]
      modifies this`dlRing, this`dlPending, this`received
      ensures Valid() && View() == Arrive(old(View()), status, data)
      ensures dlPending == old(dlPending) + (if status.StatusOther? then [] else [data])
      ensures received == old(received) + (if status.StatusOther? then [] else [data])
    {
      dlRing := dlRing[1..];
      assert dlPending + [] == dlPending && received + [] == received;
      if status.StatusOther? {
        return;
      }
      dlPending, received := dlPending + [data], received + [data];
    }

    /** `mhi_uci_remove`, as far as readers and writers see it. */
    method Remove()
      requires Valid()
      modifies this`enabled
      ensures Valid() && View() == old(View()).(enabled := false)
    {
      enabled := false;
    }

    /** The first half of `mhi_uci_read`: wait for a packet if there is none, and make the oldest one current. */
    method TakeNext(nonblock: bool, wakeup: DlWakeup) returns (failed: bool, error: Errno)
      requires Valid() && CallOk(View(), wakeup)
      modifies this`enabled, this`dlRing, this`dlPending, this`received, this`curBuf, this`dlSize
      ensures Valid() && View() == Taken(Woken(old(View()), nonblock, wakeup))
      ensures failed <==> Woken(old(View()), nonblock, wakeup).Idle()
      ensures failed ==> error == WaitError(old(View()), nonblock, wakeup)
      ensures !failed ==> curBuf.Cur?
      ensures received == old(received) + if old(Waits(View(), nonblock)) && wakeup.Arrives? then [wakeup.data] else []
    {
      failed, error := false, EIO;
      if curBuf.NoBuf? && dlPending == [] {
        if nonblock {
          return true, EAGAIN;
        }
        if enabled {
          match wakeup
          case DlSignal => return true, ERESTARTSYS;
          case DlRemoved => Remove();
          case Arrives(status, data) => DlXferCb(status, data);
        }
        if !enabled {
          return true, ENODEV;
        }
      }
      if curBuf.NoBuf? {
        MakeCurrent();
      }
    }

    method MakeCurrent()
      requires Valid() && curBuf.NoBuf? && dlPending != []
      modifies this`dlPending, this`curBuf, this`dlSize
      ensures Valid() && View() == Taken(old(View()))
    {
      var ubuf := dlPending[0];
      assert dlPending == [ubuf] + dlPending[1..];
      dlPending, curBuf, dlSize := dlPending[1..], Cur(ubuf), |ubuf|;
      assert ubuf[..0] == [];
    }

    /** Copy the next bytes of the current packet to the user. */
    method CopyNext(toCopy: nat) returns (bytes: seq<Byte>)
      requires Valid() && curBuf.Cur? && toCopy <= dlSize
      modifies this`dlSize, this`part
      ensures Valid() && dlSize == old(dlSize) - toCopy
      ensures bytes == old(View().Rest())[..toCopy]
    {
      var ptr := |curBuf.data| - dlSize;
      bytes := curBuf.data[ptr..ptr + toCopy];
      ConcatAppend(part, bytes);
      assert curBuf.data[..ptr + toCopy] == curBuf.data[..ptr] + bytes;
      dlSize := dlSize - toCopy;
      part := part + [bytes];
    }

    /** The used-up current buffer is no longer current. */
    method DropCurrent()
      requires Valid() && curBuf.Cur? && dlSize == 0
      modifies this`curBuf, this`done, this`part
      ensures Valid() && View() == old(View()).(cur := NoBuf) && Unread() == old(Unread()) && Buffers() < dlElements - 1
    {
      assert curBuf.data[..|curBuf.data|] == curBuf.data && curBuf.data[|curBuf.data|..] == [];
      ghost var next := done + [part];
      Closed(done, part, next, curBuf.data);
      done, part, curBuf := next, [], NoBuf;
    }

    /** Queue a used-up buffer again: the ring always has room for it. */
    method Recycle(queueOk: bool) returns (ok: bool)
      requires Valid() && Buffers() < dlElements - 1
      modifies this`dlRing
      ensures Valid() && ok == queueOk
      ensures dlRing == old(dlRing) + if ok then [mtu - UBUF_SIZE] else []
    {
      ok := |dlRing| != dlElements - 1 && queueOk;
      if ok {
        dlRing := dlRing + [mtu - UBUF_SIZE];
      }
    }

    /**
     The second half of `mhi_uci_read`: copy what fits, and recycle a used-up buffer. A copy that faults
     changes nothing; recycling fails only for other reasons than a full ring, and then the call
     reports an error for bytes the user already has.
    */
    method CopyOut(count: nat, copyOk: bool, queueOk: bool) returns (r: ReadResult)
      requires Valid() && curBuf.Cur?
      modifies this`dlRing, this`curBuf, this`dlSize, this`done, this`part
      ensures Valid() && Outcome(View(), r) == UciSpec.Copied(old(View()), count, copyOk, queueOk)
    {
      var toCopy := Min(count, dlSize);
      if !copyOk {
        return ReadErr(EFAULT);
      }
      assert View().Rest()[..dlSize] == View().Rest();
      var bytes := CopyNext(toCopy);
      if dlSize > 0 {
        return Got(bytes);
      }
      var ok := Finish(queueOk);
      r := if ok then Got(bytes) else Late(bytes);
    }

    /** Done with the current buffer. */
    method Finish(queueOk: bool) returns (ok: bool)
      requires Valid() && curBuf.Cur? && dlSize == 0
      modifies this`dlRing, this`curBuf, this`done, this`part
      ensures Valid() && ok == queueOk
      ensures View() == old(View()).(cur := NoBuf, ring := old(dlRing) + if ok then [mtu - UBUF_SIZE] else [])
    {
      DropCurrent();
      ok := Recycle(queueOk);
    }

    /**
     `mhi_uci_read`: one step of the downlink side. It copies and then reports an error exactly if it
     uses up its packet and the buffer cannot be queued again.
    */
    method Read(c: Call) returns (r: ReadResult)
      requires Valid() && CallOk(View(), c.wakeup)
      modifies this`enabled, this`dlRing, this`dlPending, this`received, this`curBuf, this`dlSize
      modifies this`done, this`part
      ensures Valid() && Outcome(View(), r) == UciSpec.Read(old(View()), c)
      ensures r.Late? <==> FailsLate(old(View()), c)
      ensures !r.ReadErr? ==> |r.bytes| <= c.count
    {
      ghost var d := View();
      var failed, error := TakeNext(c.nonblock, c.wakeup);
      if failed {
        r := ReadErr(error);
        ReadNothing(d, c, View(), r);
      } else {
        ghost var taken := View();
        r := CopyOut(c.count, c.copyOk, c.queueOk);
        ReadSomething(d, c, taken, Outcome(View(), r));
      }
    }

    /** What reads copied, packet by packet, plus what is unread is what was received, at all times. */
    lemma StreamFaithful()
      requires Valid()
      ensures Copied() + Unread() == Concat(received)
    {
      var ps := Packets(done);
      if curBuf.Cur? {
        var ptr := |curBuf.data| - dlSize;
        PacketsJoined(ps, curBuf.data, curBuf.data[..ptr], curBuf.data[ptr..], dlPending);
      } else {
        assert ps + Current() + dlPending == ps + dlPending;
        ConcatAll(ps, dlPending);
      }
    }

    // ---- The uplink side ----

    /** Waiting for a free descriptor, at the top of a turn of the write loop. */
    method AwaitFree(nonblock: bool, t: Turn) returns (failed: bool, error: Errno, waited: bool)
      requires Valid()
      modifies this`enabled, this`ulFree
      ensures Valid() && old(ulFree) <= ulFree
      ensures failed ==> error.EAGAIN? || error.ERESTARTSYS? || error.ENODEV?
      ensures failed ==> FailsWith(error, old(enabled), nonblock, old(ulFree), t)
      ensures failed && !error.ENODEV? ==> ulFree == 0
      ensures enabled <==> old(enabled) && !(failed && error.ENODEV?)
      ensures !failed ==> enabled && ulFree > 0 && (waited <==> old(ulFree) + t.freed == 0) && (waited ==> !nonblock)
      ensures !failed && waited ==> t.wakeup.Freed? && ulFree == Min(t.wakeup.more + 1, ulElements - 1)
      ensures !failed && !waited ==> ulFree == Min(old(ulFree) + t.freed, ulElements - 1)
    {
      failed, error, waited := false, EIO, false;
      ulFree := Min(ulFree + t.freed, ulElements - 1);
      if enabled && nonblock && ulFree == 0 {
        return true, EAGAIN, false;
      }
      if enabled && ulFree == 0 {
        waited := true;
        match t.wakeup
        case Signal => return true, ERESTARTSYS, true;
        case Removed => Remove();
        case Freed(more) => ulFree := Min(more + 1, ulElements - 1);
      }
      if !enabled {
        return true, ENODEV, waited;
      }
    }

    /** One turn of the write loop: the next chunk of `buf`, queued, or an error. */
    method WriteChunk(buf: seq<Byte>, nonblock: bool, t: Turn) returns (failed: bool, error: Errno, c: Chunk)
      requires Valid() && buf != []
      modifies this`enabled, this`ulFree
      ensures Valid()
      ensures failed ==> FailsWith(error, old(enabled), nonblock, old(ulFree), t)
      ensures failed && (error.EAGAIN? || error.ERESTARTSYS?) ==> ulFree == 0 && old(ulFree) == 0
      ensures enabled <==> old(enabled) && !(failed && error.ENODEV?)
      ensures !failed ==> c.data == buf[..Min(|buf|, mtu)] && c.free == ulFree
      ensures !failed ==> (c.chain <==> ulFree > 0 && |buf| > mtu)
      ensures !failed ==> GoesWell(old(enabled), nonblock, old(ulFree), t, c, ulElements)
    {
      var waited;
      c := Chunk([], false, false, 0);
      failed, error, waited := AwaitFree(nonblock, t);
      if failed {
        return;
      }
      var nrAvail, xferSize := ulFree, Min(|buf|, mtu);
      if !t.allocOk {
        return true, ENOMEM, c;
      }
      if !t.copyOk {
        return true, EFAULT, c;
      }
      var chain := nrAvail > 1 && |buf| - xferSize > 0;
      if !t.queueOk {
        return true, EQUEUE, c;
      }
      ulFree := ulFree - 1;
      c := Chunk(buf[..xferSize], chain, waited, ulFree);
    }

    /**
     `mhi_uci_write`; `world` says what happens in each turn. A successful write queues the user's
     buffer whole and ends with MHI_EOT; a failed one has queued a proper prefix, and one that gives
     up for want of descriptors leaves no chain open. It succeeds exactly if the buffer is not empty and
     every turn it comes to goes well, and the error is that of the turn that did not.
    */
    method Write(buf: seq<Byte>, nonblock: bool, world: nat -> Turn) returns (r: WriteResult, chunks: seq<Chunk>)
      requires Valid()
      modifies this`enabled, this`ulFree
      ensures Valid() && ChunksOk(chunks, mtu)
      ensures r.Written? ==> r.n == |buf| && BytesOf(chunks) == buf && buf != [] && chunks != [] && !OpenChain(chunks)
      ensures r.WriteErr? ==> BytesOf(chunks) <= buf && (buf != [] ==> |BytesOf(chunks)| < |buf|)
      ensures r.WriteErr? && chunks != [] ==> (OpenChain(chunks) <==> chunks[|chunks| - 1].free > 0)
      ensures r == WriteErr(EAGAIN) || r == WriteErr(ERESTARTSYS) ==> !OpenChain(chunks)
      ensures r == WriteErr(EINVAL) <==> buf == []
      ensures WentWell(chunks, old(enabled), nonblock, old(ulFree), world, ulElements)
      ensures r.WriteErr? && buf != [] ==>
                FailsWith(r.error, old(enabled), nonblock, FreeBefore(chunks, |chunks|, old(ulFree)), world(|chunks|))
      ensures var t := world(|chunks|);
              && (r == WriteErr(ENOMEM) ==> !t.allocOk)
              && (r == WriteErr(EFAULT) ==> !t.copyOk)
              && (r == WriteErr(EQUEUE) ==> !t.queueOk)
              && (r == WriteErr(EAGAIN) ==> nonblock && ulFree == 0)
              && (r == WriteErr(ERESTARTSYS) ==> !nonblock && t.wakeup.Signal? && ulFree == 0)
      ensures r != WriteErr(EIO) && (enabled <==> old(enabled) && r != WriteErr(ENODEV))
    {
      chunks := [];
      if buf == [] {
        return WriteErr(EINVAL), [];
      }
      var sent := 0;
      while sent < |buf|
        invariant Valid() && Progress(buf, sent, chunks, ulFree, mtu)
        invariant enabled == old(enabled) && ulFree == FreeBefore(chunks, |chunks|, old(ulFree))
        invariant WentWell(chunks, old(enabled), nonblock, old(ulFree), world, ulElements)
      {
        var failed, error;
        failed, error, chunks, sent := WriteTurn(buf, sent, chunks, nonblock, world, old(ulFree));
        if failed {
          return WriteErr(error), chunks;
        }
      }
      assert buf[..sent] == buf;
      r := Written(sent);
    }

    /** One turn of the write loop. */
    method WriteTurn(buf: seq<Byte>, sent: nat, chunks: seq<Chunk>, nonblock: bool, world: nat -> Turn,
                     ghost first: nat)
      returns (failed: bool, error: Errno, chunks': seq<Chunk>, sent': nat)
      requires Valid() && Progress(buf, sent, chunks, ulFree, mtu) && sent < |buf|
      requires ulFree == FreeBefore(chunks, |chunks|, first)
      requires WentWell(chunks, enabled, nonblock, first, world, ulElements)
      modifies this`enabled, this`ulFree
      ensures Valid()
      ensures failed ==> chunks' == chunks
      ensures failed && (error.EAGAIN? || error.ERESTARTSYS?) ==> !OpenChain(chunks) && ulFree == 0
      ensures failed ==> FailsWith(error, old(enabled), nonblock, old(ulFree), world(|chunks|))
      ensures enabled <==> old(enabled) && !(failed && error.ENODEV?)
      ensures !failed ==> sent < sent' && Progress(buf, sent', chunks', ulFree, mtu)
      ensures !failed ==> ulFree == FreeBefore(chunks', |chunks'|, first)
      ensures !failed ==> WentWell(chunks', enabled, nonblock, first, world, ulElements)
    {
      var c;
      ghost var free := ulFree;
      failed, error, c := WriteChunk(buf[sent..], nonblock, world(|chunks|));
      chunks', sent' := chunks, sent;
      if !failed {
        sent' := sent + |c.data|;
        chunks' := chunks + [c];
        ProgressStep(buf, sent, sent', chunks, c, free, mtu);
        WellStep(chunks, c, chunks', |chunks|, old(enabled), nonblock, first, world, ulElements);
      }
    }
  }

  /** The turn that queued chunk k went well. */
  ghost predicate TurnWell(cs: seq<Chunk>, k: nat, enabled: bool, nonblock: bool, free: nat, world: nat -> Turn, n: nat)
    requires n > 1 && k < |cs|
  {
    GoesWell(enabled, nonblock, FreeBefore(cs, k, free), world(k), cs[k], n)
  }

  /** The turns that queued these chunks all went well. */
  ghost predicate WentWell(cs: seq<Chunk>, enabled: bool, nonblock: bool, free: nat, world: nat -> Turn, n: nat)
    requires n > 1
  {
    forall k: nat | k < |cs| :: TurnWell(cs, k, enabled, nonblock, free, world, n)
  }

  lemma TurnKept(cs: seq<Chunk>, c: Chunk, more: seq<Chunk>, k: nat, enabled: bool, nonblock: bool, free: nat,
                 world: nat -> Turn, n: nat)
    requires n > 1 && k < |cs| && more == cs + [c] && TurnWell(cs, k, enabled, nonblock, free, world, n)
    ensures TurnWell(more, k, enabled, nonblock, free, world, n)
  {
    assert more[k] == cs[k] && FreeBefore(more, k, free) == FreeBefore(cs, k, free);
  }

  lemma WellStep(cs: seq<Chunk>, c: Chunk, more: seq<Chunk>, last: nat, enabled: bool, nonblock: bool, free: nat,
                 world: nat -> Turn, n: nat)
    requires n > 1 && WentWell(cs, enabled, nonblock, free, world, n) && more == cs + [c] && last == |cs|
    requires GoesWell(enabled, nonblock, FreeBefore(cs, last, free), world(last), c, n)
    ensures WentWell(more, enabled, nonblock, free, world, n)
  {
    forall k: nat | k < |more| ensures TurnWell(more, k, enabled, nonblock, free, world, n) {
      if k < last {
        TurnKept(cs, c, more, k, enabled, nonblock, free, world, n);
      } else {
        assert FreeBefore(more, last, free) == FreeBefore(cs, last, free);
      }
    }
  }

  /** The first `sent` bytes are queued as these chunks, the last of which left `free` descriptors. */
  ghost predicate Progress(buf: seq<Byte>, sent: nat, chunks: seq<Chunk>, free: nat, mtu: nat) {
    && sent <= |buf| && BytesOf(chunks) == buf[..sent] && ChunksOk(chunks, mtu)
    && (chunks == [] <==> sent == 0)
    && (chunks != [] ==>
          var last := chunks[|chunks| - 1];
          && free == last.free && (last.chain ==> last.free > 0)
          && (if sent < |buf| then |last.data| == mtu && (last.chain <==> free > 0) else !last.chain))
  }

  lemma ProgressStep(buf: seq<Byte>, sent: nat, next: nat, chunks: seq<Chunk>, c: Chunk, free: nat, mtu: nat)
    requires 0 < mtu && sent < |buf| && Progress(buf, sent, chunks, free, mtu)
    requires c.data == buf[sent..][..Min(|buf| - sent, mtu)] && next == sent + |c.data|
    requires (c.chain <==> c.free > 0 && |buf| - sent > mtu) && (c.waited ==> free == 0)
    ensures Progress(buf, next, chunks + [c], c.free, mtu)
  {
    BytesAppend(chunks, c);
    ChunksAppend(chunks, c, mtu);
    assert buf[..next] == buf[..sent] + c.data;
  }
}
