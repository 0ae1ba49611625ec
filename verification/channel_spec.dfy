/**
 What one transfer channel does, as functions on its abstract state: the history of accepted and
 delivered buffers, the slot numbers of the transfer ring and its doorbell bookkeeping.
 The class in channel.dfy is proved against these functions.
*/
module ChannelSpec {
  import opened Rings

  /** MHI_EV_CC_* completion codes; every other code is reported and ignored. */
  datatype EvCode = Overflow | Eob | Eot | Oob | DbMode | OtherCode

  predicate CompletesBuffers(code: EvCode) {
    code.Overflow? || code.Eob? || code.Eot?
  }

  predicate IsDbEvent(code: EvCode) {
    code.Oob? || code.DbMode?
  }

  datatype Status = StatusOk | StatusOverflow | StatusNotConn

  function EventStatus(code: EvCode): Status {
    if code.Overflow? then StatusOverflow else StatusOk
  }

  /** A buffer the client handed over: the cookie given back to `xfer_cb` and its length. */
  datatype Buf = Buf(cb: int, len: nat)

  /** `struct mhi_result` as `xfer_cb` sees it. */
  datatype Result = Result(cb: int, bytes: nat, status: Status)

  /** Static configuration from `parse_ch_cfg`, for channels that are not offloaded. */
  datatype Cfg = Cfg(outbound: bool, elements: nat, burst: bool, resetReq: bool, er: nat, dev: nat)

  /**
   `Resetting` is DISABLED with the channel mutex still held by `__mhi_unprepare_channel`,
   that is, before its `mhi_reset_chan`.
  */
  datatype ChState = Disabled | Enabled | Resetting | Suspended

  /**
   `accepted` lists every buffer ever queued and `delivered` every `xfer_cb` call; what lies
   between is outstanding. `rp`, `wp`, `ctxtWp` and `dbReg` are transfer ring slots: the last two
   are the context word and the doorbell register, less `iommu_base`. `start` counts the buffers
   accepted in earlier sessions.
  */
  datatype Chan = Chan(state: ChState, rp: nat, wp: nat, ctxtWp: nat, dbMode: bool, dbReg: nat,
                       start: nat, accepted: seq<Buf>, delivered: seq<Result>)
  {
    predicate WellFormed(n: nat) {
      && 0 < n
      && rp < n && wp < n && ctxtWp < n
      && |delivered| <= |accepted|
      && Outstanding() < n
      && wp == Wrap(rp + Outstanding(), n)
    }

    function Outstanding(): (k: nat)
      requires |delivered| <= |accepted|
    {
      |accepted| - |delivered|
    }

    /** Outstanding elements queued since the context word was last written. */
    function Unannounced(n: nat): (k: nat)
      requires ctxtWp < n && wp < n
    {
      Distance(ctxtWp, wp, n)
    }

    /** `mhi_gen_tre` once the buffer is mapped. */
    function Queue(n: nat, b: Buf): (c: Chan)
      requires WellFormed(n) && Outstanding() < n - 1
      ensures c.WellFormed(n)
    {
      this.(accepted := accepted + [b], wp := Wrap(wp + 1, n))
    }

    /** `mhi_ring_chan_db` with `mhi_db_brstmode` or `mhi_db_brstmode_disable`. */
    function RingDb(burst: bool): (c: Chan) {
      if !burst then this.(ctxtWp := wp, dbReg := wp)
      else if dbMode then this.(ctxtWp := wp, dbReg := wp, dbMode := false)
      else this.(ctxtWp := wp)
    }

    /** A doorbell-mode event: the ring must be announced through the doorbell again. */
    function DbEvent(burst: bool, dbAccess: bool): (c: Chan)
      requires |delivered| <= |accepted|
    {
      var c := this.(dbMode := true);
      if Outstanding() > 0 && dbAccess then c.RingDb(burst) else c
    }

    /** How many elements the completion loop removes for an event on this slot. */
    function Completed(n: nat, slot: nat): (k: nat)
      requires rp < n && slot < n
      ensures k < n
    {
      var d := Distance(rp, slot, n);
      if d == n - 1 then 0 else d + 1
    }

    /** The oldest outstanding buffer. */
    function Front(): (b: Buf)
      requires |delivered| < |accepted|
    {
      accepted[|delivered|]
    }

    /** Release the front element of both rings and call `xfer_cb`. */
    function Pop(n: nat, bytes: nat, status: Status): (c: Chan)
      requires WellFormed(n) && Outstanding() > 0
      ensures c.WellFormed(n) && c.Outstanding() == Outstanding() - 1
    {
      this.(delivered := delivered + [Result(Front().cb, bytes, status)], rp := Wrap(rp + 1, n))
    }

    /** The completion loop: k elements, the event's length going to the last one only. */
    function CompleteN(n: nat, k: nat, evLen: nat, status: Status): (c: Chan)
      requires WellFormed(n) && k <= Outstanding()
      ensures c.WellFormed(n)
      decreases k
    {
      if k == 0 then this
      else
        var bytes := BytesTransferred(if k == 1 then evLen else Front().len, Front().len);
        Pop(n, bytes, status).CompleteN(n, k - 1, evLen, status)
    }

    /** `parse_xfer_event` for a completion naming this slot. */
    function Complete(n: nat, slot: nat, evLen: nat, status: Status): (c: Chan)
      requires WellFormed(n) && slot < n && Completed(n, slot) <= Outstanding()
      ensures c.WellFormed(n)
    {
      CompleteN(n, Completed(n, slot), evLen, status)
    }

    /** An event is acceptable if, when it completes buffers, it names outstanding ones. */
    predicate EventOk(n: nat, code: EvCode, slot: nat)
      requires WellFormed(n)
    {
      state.Enabled? && CompletesBuffers(code) ==> slot < n && Completed(n, slot) <= Outstanding()
    }

    /** `parse_xfer_event`: only an enabled channel reacts. */
    function OnEvent(n: nat, code: EvCode, slot: nat, evLen: nat, burst: bool, dbAccess: bool): (c: Chan)
      requires WellFormed(n) && EventOk(n, code, slot)
      ensures c.WellFormed(n)
    {
      if !state.Enabled? then this
      else if CompletesBuffers(code) then Complete(n, slot, evLen, EventStatus(code))
      else if IsDbEvent(code) then DbEvent(burst, dbAccess)
      else this
    }

    /** `mhi_reset_data_chan`. */
    function Flush(n: nat): (c: Chan)
      requires WellFormed(n)
      ensures c.WellFormed(n) && c.Outstanding() == 0
      decreases Outstanding()
    {
      if Outstanding() == 0 then this else Pop(n, 0, StatusNotConn).Flush(n)
    }

    /** `mhi_init_chan_ctxt`. */
    function Init(): (c: Chan) {
      this.(rp := 0, wp := 0, ctxtWp := 0, dbMode := true, start := |accepted|)
    }
  }

  lemma CompleteStep(c: Chan, n: nat, k: nat, rest: nat, evLen: nat, status: Status, bytes: nat, c': Chan)
    requires c.WellFormed(n) && 0 < k <= c.Outstanding() && rest == k - 1
    requires bytes == BytesTransferred(if k == 1 then evLen else c.Front().len, c.Front().len)
    requires c' == c.Pop(n, bytes, status)
    ensures c.CompleteN(n, k, evLen, status) == c'.CompleteN(n, rest, evLen, status)
  {
  }

  /** `min_t(u16, xfer_len, buf_info->len)`: both sides are cut to 16 bits first. */
  function BytesTransferred(xferLen: nat, bufLen: nat): (r: nat)
    ensures r < 0x10000
  {
    var a, b := xferLen % 0x10000, bufLen % 0x10000;
    if a < b then a else b
  }

  /** Results of a completed batch, first to last. */
  function Batch(bufs: seq<Buf>, evLen: nat, status: Status): (rs: seq<Result>)
    ensures |rs| == |bufs|
  {
    if |bufs| == 0 then []
    else
      var b := bufs[0];
      [Result(b.cb, BytesTransferred(if |bufs| == 1 then evLen else b.len, b.len), status)] +
          Batch(bufs[1..], evLen, status)
  }

  /** Results of a reset: nothing transferred, -ENOTCONN. */
  function Returned(bufs: seq<Buf>): (rs: seq<Result>)
    ensures |rs| == |bufs|
  {
    if |bufs| == 0 then [] else [Result(bufs[0].cb, 0, StatusNotConn)] + Returned(bufs[1..])
  }

  lemma {:induction false} BatchAt(bufs: seq<Buf>, evLen: nat, status: Status, i: nat)
    requires i < |bufs|
    ensures Batch(bufs, evLen, status)[i] ==
            Result(bufs[i].cb, BytesTransferred(if i == |bufs| - 1 then evLen else bufs[i].len, bufs[i].len), status)
  {
    if i > 0 {
      BatchAt(bufs[1..], evLen, status, i - 1);
    }
  }

  lemma {:induction false} ReturnedAt(bufs: seq<Buf>, i: nat)
    requires i < |bufs|
    ensures Returned(bufs)[i] == Result(bufs[i].cb, 0, StatusNotConn)
  {
    if i > 0 {
      ReturnedAt(bufs[1..], i - 1);
    }
  }

  /**
   An element of a completed batch other than the last is reported at its full length exactly when
   that length fits the 16 bits of `xfer_len`; so fits the last, which gets the smaller of event
   and buffer length.
  */
  lemma BatchLengths(bufs: seq<Buf>, evLen: nat, status: Status, i: nat)
    requires i < |bufs| && evLen < 0x10000
    ensures i < |bufs| - 1 ==>
              (Batch(bufs, evLen, status)[i].bytes == bufs[i].len <==> bufs[i].len < 0x10000)
    ensures i == |bufs| - 1 && bufs[i].len < 0x10000 ==>
              Batch(bufs, evLen, status)[i].bytes == if evLen < bufs[i].len then evLen else bufs[i].len
  {
    BatchAt(bufs, evLen, status, i);
  }

  lemma WrapStep(slot: nat, k: nat, rest: nat, n: nat)
    requires slot < n && k < n && k == rest + 1
    ensures Wrap(slot + k, n) == Wrap(Wrap(slot + 1, n) + rest, n)
  {
  }

  /**
   A completion delivers the batch of exactly the elements up to the one named, in order, and the
   read slot stops right after that one.
  */
  lemma {:induction false} CompleteNDelivers(c: Chan, n: nat, bufs: seq<Buf>, rp: nat, evLen: nat, status: Status)
    requires c.WellFormed(n) && |bufs| <= c.Outstanding()
    requires bufs == c.accepted[|c.delivered|..|c.delivered| + |bufs|] && rp == Wrap(c.rp + |bufs|, n)
    ensures c.CompleteN(n, |bufs|, evLen, status) ==
            c.(delivered := c.delivered + Batch(bufs, evLen, status), rp := rp)
    decreases |bufs|
  {
    if |bufs| > 0 {
      var b, rest := bufs[0], bufs[1..];
      var bytes := BytesTransferred(if |bufs| == 1 then evLen else b.len, b.len);
      var c' := c.Pop(n, bytes, status);
      WrapStep(c.rp, |bufs|, |rest|, n);
      CompleteNDelivers(c', n, rest, rp, evLen, status);
      CompleteStep(c, n, |bufs|, |rest|, evLen, status, bytes, c');
      BatchStep(c.delivered, bufs, rest, Result(b.cb, bytes, status), evLen, status);
    } else {
      assert c.delivered + Batch(bufs, evLen, status) == c.delivered;
    }
  }

  lemma BatchStep(before: seq<Result>, bufs: seq<Buf>, rest: seq<Buf>, first: Result, evLen: nat, status: Status)
    requires bufs != [] && rest == bufs[1..]
    requires var len := bufs[0].len;
             first == Result(bufs[0].cb, BytesTransferred(if |bufs| == 1 then evLen else len, len), status)
    ensures (before + [first]) + Batch(rest, evLen, status) == before + Batch(bufs, evLen, status)
  {
  }

  lemma CompleteDelivers(c: Chan, n: nat, slot: nat, evLen: nat, status: Status)
    requires c.WellFormed(n) && slot < n && c.Completed(n, slot) <= c.Outstanding()
    ensures var k := c.Completed(n, slot);
            c.Complete(n, slot, evLen, status) ==
            c.(delivered := c.delivered + Batch(c.accepted[|c.delivered|..|c.delivered| + k], evLen, status),
               rp := Wrap(slot + 1, n))
  {
    var k := c.Completed(n, slot);
    var bufs := c.accepted[|c.delivered|..|c.delivered| + k];
    CompleteNDelivers(c, n, bufs, if k == 0 then c.rp else Wrap(slot + 1, n), evLen, status);
  }

  /** The result a completion that ends with buffer `id` reports for buffer i of its batch. */
  lemma CompleteResultAt(c: Chan, n: nat, slot: nat, evLen: nat, status: Status, id: nat, i: nat)
    requires c.WellFormed(n) && slot < n && c.Completed(n, slot) <= c.Outstanding()
    requires |c.delivered| <= i <= id && c.Completed(n, slot) == id + 1 - |c.delivered|
    ensures var c' := c.Complete(n, slot, evLen, status);
            && |c'.delivered| == id + 1
            && c'.delivered[i].cb == c.accepted[i].cb
            && c'.delivered[i].status == status
            && (c.accepted[i].len < 0x10000 && evLen < 0x10000 ==>
                  c'.delivered[i].bytes == if i == id && evLen < c.accepted[i].len then evLen else c.accepted[i].len)
  {
    CompleteDelivers(c, n, slot, evLen, status);
    BatchAt(c.accepted[|c.delivered|..|c.delivered| + c.Completed(n, slot)], evLen, status, i - |c.delivered|);
  }

  /** A reset hands every outstanding buffer back, in order, with nothing transferred. */
  lemma {:induction false} FlushDelivers(c: Chan, n: nat)
    requires c.WellFormed(n)
    ensures c.Flush(n) == c.(delivered := c.delivered + Returned(c.accepted[|c.delivered|..]), rp := c.wp)
    decreases c.Outstanding()
  {
    var bufs := c.accepted[|c.delivered|..];
    if c.Outstanding() > 0 {
      FlushDelivers(c.Pop(n, 0, StatusNotConn), n);
      assert bufs[1..] == c.accepted[|c.delivered| + 1..];
      assert Returned(bufs) == [Result(c.Front().cb, 0, StatusNotConn)] + Returned(bufs[1..]);
    } else {
      assert c.delivered == c.delivered + Returned(bufs);
    }
  }

  /** Buffers come back in the order they were queued: the delivered cookies are a prefix of the accepted ones. */
  ghost predicate InOrder(c: Chan) {
    && |c.delivered| <= |c.accepted|
    && forall i :: 0 <= i < |c.delivered| ==> c.delivered[i].cb == c.accepted[i].cb
  }

  lemma CompleteInOrder(c: Chan, n: nat, slot: nat, evLen: nat, status: Status)
    requires c.WellFormed(n) && slot < n && c.Completed(n, slot) <= c.Outstanding() && InOrder(c)
    ensures InOrder(c.Complete(n, slot, evLen, status))
  {
    var k := c.Completed(n, slot);
    var batch := c.accepted[|c.delivered|..|c.delivered| + k];
    var c' := c.Complete(n, slot, evLen, status);
    CompleteDelivers(c, n, slot, evLen, status);
    assert |Batch(batch, evLen, status)| == k;
    forall i | 0 <= i < |c'.delivered| ensures c'.delivered[i].cb == c'.accepted[i].cb {
      if i >= |c.delivered| {
        BatchAt(batch, evLen, status, i - |c.delivered|);
      }
    }
  }

  lemma FlushInOrder(c: Chan, n: nat)
    requires c.WellFormed(n) && InOrder(c)
    ensures InOrder(c.Flush(n))
  {
    var rest := c.accepted[|c.delivered|..];
    var c' := c.Flush(n);
    FlushDelivers(c, n);
    forall i | 0 <= i < |c'.delivered| ensures c'.delivered[i].cb == c'.accepted[i].cb {
      if i >= |c.delivered| {
        ReturnedAt(rest, i - |c.delivered|);
      }
    }
  }
}
