/** The downlink side of the character device as a value, its steps, and what runs of them make of the byte stream. */
module UciSpec {
  import opened Bytes

  const UBUF_SIZE: nat := 32   // sizeof(struct uci_buf): data, len, node

  datatype Errno = EAGAIN | ERESTARTSYS | ENODEV | ENOMEM | EFAULT | EINVAL | EIO | EQUEUE

  datatype Status = StatusOk | StatusOverflow | StatusOther

  datatype Current = NoBuf | Cur(data: seq<Byte>)

  /** What a read returns; `Late` is an error reported after the bytes were already copied to the user. */
  datatype ReadResult = Got(bytes: seq<Byte>) | ReadErr(error: Errno) | Late(bytes: seq<Byte>)

  /** What ends a wait for data: a signal, removal of the device, or a packet. */
  datatype DlWakeup = DlSignal | DlRemoved | Arrives(status: Status, data: seq<Byte>)

  /**
   One call of read: its size and mode, and whether the copy to the user and the queueing of a used-up
   buffer succeed.
  */
  datatype Call = Call(count: nat, nonblock: bool, wakeup: DlWakeup, copyOk: bool, queueOk: bool)

  /**
   `ring` holds the lengths of the buffers queued on the downlink ring, oldest first, `pending` the
   packets waiting to be read, `size` the unread bytes of the current packet.
  */
  datatype Dl = Dl(mtu: nat, enabled: bool, ring: seq<nat>, pending: seq<seq<Byte>>, cur: Current, size: nat)
  {
    predicate Ok() {
      UBUF_SIZE <= mtu && (cur.Cur? ==> size <= |cur.data|)
    }

    predicate Idle() {
      cur.NoBuf? && pending == []
    }

    /** The unread bytes of the current packet. */
    function Rest(): (s: seq<Byte>)
      requires Ok()
      ensures cur.Cur? ==> |s| == size
    {
      if cur.Cur? then cur.data[|cur.data| - size..] else []
    }

    /** Bytes received and not yet copied. */
    function Unread(): (s: seq<Byte>)
      requires Ok()
    {
      Rest() + Concat(pending)
    }
  }

  // ---- Steps ----

  function Kept(status: Status, data: seq<Byte>): (ps: seq<seq<Byte>>) {
    if status.StatusOther? then [] else [data]
  }

  /** `mhi_dl_xfer_cb`: the oldest queued buffer comes back; an error other than an overflow drops it. */
  function Arrive(d: Dl, status: Status, data: seq<Byte>): (d': Dl)
    requires d.ring != []
  {
    d.(ring := d.ring[1..], pending := d.pending + Kept(status, data))
  }

  /** A wait can end with a packet only if a buffer was queued for it, and only with one that is kept. */
  predicate CallOk(d: Dl, wakeup: DlWakeup) {
    wakeup.Arrives? ==> !wakeup.status.StatusOther? && d.ring != [] && |wakeup.data| <= d.ring[0]
  }

  predicate Waits(d: Dl, nonblock: bool) {
    d.Idle() && !nonblock && d.enabled
  }

  /** After the wait for data, if there is one. */
  function Woken(d: Dl, nonblock: bool, wakeup: DlWakeup): (d': Dl)
    requires CallOk(d, wakeup)
  {
    if !Waits(d, nonblock) then d
    else
      match wakeup
      case DlSignal => d
      case DlRemoved => d.(enabled := false)
      case Arrives(status, data) => Arrive(d, status, data)
  }

  /** The oldest pending packet becomes current, if none is. */
  function Taken(d: Dl): (d': Dl) {
    if d.cur.Cur? || d.pending == [] then d
    else d.(cur := Cur(d.pending[0]), pending := d.pending[1..], size := |d.pending[0]|)
  }

  function WaitError(d: Dl, nonblock: bool, wakeup: DlWakeup): (e: Errno) {
    if nonblock then EAGAIN else if d.enabled && wakeup.DlSignal? then ERESTARTSYS else ENODEV
  }

  datatype Outcome = Outcome(d: Dl, r: ReadResult)

  /** Copying out of the current packet, and queueing its buffer again once it is used up. */
  function Copied(d: Dl, count: nat, copyOk: bool, queueOk: bool): (o: Outcome)
    requires d.Ok() && d.cur.Cur?
  {
    if !copyOk then Outcome(d, ReadErr(EFAULT))
    else if count < d.size then Outcome(d.(size := d.size - count), Got(d.Rest()[..count]))
    else
      var used := d.(cur := NoBuf, size := 0);
      if !queueOk then Outcome(used, Late(d.Rest()))
      else Outcome(used.(ring := d.ring + [d.mtu - UBUF_SIZE]), Got(d.Rest()))
  }

  /** `mhi_uci_read`. */
  function Read(d: Dl, c: Call): (o: Outcome)
    requires d.Ok() && CallOk(d, c.wakeup)
    ensures o.d.Ok()
  {
    var woken := Woken(d, c.nonblock, c.wakeup);
    if woken.Idle() then Outcome(woken, ReadErr(WaitError(d, c.nonblock, c.wakeup)))
    else Copied(Taken(woken), c.count, c.copyOk, c.queueOk)
  }

  // ---- When a read copies and then reports an error ----

  /** The bytes left of the packet a read would be served from, if there is one. */
  datatype Served = Nothing | Packet(rest: seq<Byte>)

  function Serves(d: Dl, nonblock: bool, wakeup: DlWakeup): (s: Served)
    requires d.Ok()
  {
    if d.cur.Cur? then Packet(d.Rest())
    else if d.pending != [] then Packet(d.pending[0])
    else if !nonblock && d.enabled && wakeup.Arrives? then Packet(wakeup.data)
    else Nothing
  }

  /** The guard of the failing branch: the read uses up its packet and the buffer cannot be queued again. */
  predicate FailsLate(d: Dl, c: Call)
    requires d.Ok()
  {
    var s := Serves(d, c.nonblock, c.wakeup);
    s.Packet? && c.copyOk && !c.queueOk && c.count >= |s.rest|
  }

  lemma ReadServes(d: Dl, c: Call)
    requires d.Ok() && CallOk(d, c.wakeup)
    ensures var s, woken := Serves(d, c.nonblock, c.wakeup), Woken(d, c.nonblock, c.wakeup);
            && (s.Nothing? <==> woken.Idle())
            && (s.Packet? ==> Taken(woken).cur.Cur? && Taken(woken).Rest() == s.rest)
  {
  }

  /** A read fails late exactly under that guard, and copies the packet's rest then. */
  lemma LateIff(d: Dl, c: Call)
    requires d.Ok() && CallOk(d, c.wakeup)
    ensures Read(d, c).r.Late? <==> FailsLate(d, c)
    ensures FailsLate(d, c) ==> Read(d, c).r.bytes == Serves(d, c.nonblock, c.wakeup).rest
    ensures Read(d, c).r.Got? <==> Serves(d, c.nonblock, c.wakeup).Packet? && c.copyOk && !FailsLate(d, c)
  {
    ReadServes(d, c);
  }

  /** The two ways through a read, from its parts. */
  lemma ReadNothing(d: Dl, c: Call, d': Dl, r: ReadResult)
    requires d.Ok() && CallOk(d, c.wakeup) && Woken(d, c.nonblock, c.wakeup).Idle()
    requires d' == Taken(Woken(d, c.nonblock, c.wakeup)) && r == ReadErr(WaitError(d, c.nonblock, c.wakeup))
    ensures Read(d, c) == Outcome(d', r) && !FailsLate(d, c)
  {
    LateIff(d, c);
  }

  lemma ReadSomething(d: Dl, c: Call, taken: Dl, o: Outcome)
    requires d.Ok() && CallOk(d, c.wakeup) && !Woken(d, c.nonblock, c.wakeup).Idle()
    requires taken == Taken(Woken(d, c.nonblock, c.wakeup)) && taken.Ok() && taken.cur.Cur?
    requires o == Copied(taken, c.count, c.copyOk, c.queueOk)
    ensures Read(d, c) == o && (o.r.Late? <==> FailsLate(d, c)) && (!o.r.ReadErr? ==> |o.r.bytes| <= c.count)
  {
    LateIff(d, c);
  }

  // ---- What a read returns and leaves, case by case ----

  /** Which error a read reports before anything is copied, and when. */
  lemma ErrorsFollow(d: Dl, c: Call)
    requires d.Ok() && CallOk(d, c.wakeup)
    ensures var r, nothing := Read(d, c).r, d.cur.NoBuf? && d.pending == [];
            && (r == ReadErr(EAGAIN) <==> nothing && c.nonblock)
            && (r == ReadErr(ERESTARTSYS) <==> nothing && !c.nonblock && d.enabled && c.wakeup.DlSignal?)
            && (r == ReadErr(ENODEV) <==> nothing && !c.nonblock && (!d.enabled || c.wakeup.DlRemoved?))
            && (r == ReadErr(EFAULT) <==>
                  !c.copyOk && (!nothing || (!c.nonblock && d.enabled && c.wakeup.Arrives?)))
            && (r.ReadErr? ==> r.error.EAGAIN? || r.error.ERESTARTSYS? || r.error.ENODEV? || r.error.EFAULT?)
  {
  }

  /** The downlink ring once the wait for data, if any, is over. */
  function RingAfterWait(d: Dl, c: Call): (ring: seq<nat>)
    requires CallOk(d, c.wakeup)
  {
    if d.cur.NoBuf? && d.pending == [] && !c.nonblock && d.enabled && c.wakeup.Arrives? then d.ring[1..] else d.ring
  }

  /**
   A read that is served copies the next bytes of its packet. If bytes are left, the packet stays current and
   the ring as it is; else nothing is current, and the buffer, shortened by its header, is back on the ring.
  */
  lemma ServedFollows(d: Dl, c: Call)
    requires d.Ok() && CallOk(d, c.wakeup) && Serves(d, c.nonblock, c.wakeup).Packet? && c.copyOk
    ensures var o, rest, ring := Read(d, c), Serves(d, c.nonblock, c.wakeup).rest, RingAfterWait(d, c);
            if c.count < |rest| then
              && o.r == Got(rest[..c.count]) && o.d.cur.Cur? && o.d.Rest() == rest[c.count..] && o.d.ring == ring
            else
              && o.r == (if c.queueOk then Got(rest) else Late(rest)) && o.d.cur.NoBuf?
              && o.d.ring == ring + (if c.queueOk then [d.mtu - 32] else [])
  {
    var taken := Taken(Woken(d, c.nonblock, c.wakeup));
    ServedFrom(d, c, taken);
    CopiedFollows(taken, taken.Rest(), c.count, c.queueOk);
  }

  lemma ServedFrom(d: Dl, c: Call, taken: Dl)
    requires d.Ok() && CallOk(d, c.wakeup) && Serves(d, c.nonblock, c.wakeup).Packet?
    requires taken == Taken(Woken(d, c.nonblock, c.wakeup))
    ensures taken.Ok() && taken.cur.Cur? && taken.Rest() == Serves(d, c.nonblock, c.wakeup).rest
    ensures taken.ring == RingAfterWait(d, c) && taken.mtu == d.mtu
    ensures Read(d, c) == Copied(taken, c.count, c.copyOk, c.queueOk)
  {
    ReadServes(d, c);
  }

  lemma CopiedFollows(taken: Dl, rest: seq<Byte>, count: nat, queueOk: bool)
    requires taken.Ok() && taken.cur.Cur? && rest == taken.Rest()
    ensures var o := Copied(taken, count, true, queueOk);
            if count < |rest| then
              o.r == Got(rest[..count]) && o.d.cur.Cur? && o.d.Rest() == rest[count..] && o.d.ring == taken.ring
            else
              && o.r == (if queueOk then Got(rest) else Late(rest)) && o.d.cur.NoBuf?
              && o.d.ring == taken.ring + (if queueOk then [taken.mtu - 32] else [])
  {
    if count >= |rest| {
      assert taken.ring + [] == taken.ring;
    }
  }

  /** Buffers queued, waiting to be read, or being read. */
  function BuffersOf(d: Dl): (n: nat) {
    |d.ring| + |d.pending| + if d.cur.Cur? then 1 else 0
  }

  /** No step loses a buffer but a packet that is dropped for its status and a read that fails late. */
  lemma BuffersKept(d: Dl, s: Step)
    requires d.Ok() && StepOk(d, s)
    ensures BuffersOf(Next(d, s)) ==
            BuffersOf(d) - if (s.Xfer? && s.status.StatusOther?) || (s.ReadCall? && FailsLate(d, s.call)) then 1 else 0
  {
    if s.ReadCall? {
      ReadKeeps(d, s.call, Woken(d, s.call.nonblock, s.call.wakeup));
    }
  }

  lemma ReadKeeps(d: Dl, c: Call, woken: Dl)
    requires d.Ok() && CallOk(d, c.wakeup) && woken == Woken(d, c.nonblock, c.wakeup)
    ensures BuffersOf(Read(d, c).d) == BuffersOf(d) - if FailsLate(d, c) then 1 else 0
  {
    LateIff(d, c);
    WokenKeeps(d, c);
    if !woken.Idle() {
      ReadServes(d, c);
      CopiedKeeps(Taken(woken), c.count, c.copyOk, c.queueOk);
    }
  }

  lemma WokenKeeps(d: Dl, c: Call)
    requires CallOk(d, c.wakeup)
    ensures BuffersOf(Woken(d, c.nonblock, c.wakeup)) == BuffersOf(d)
    ensures BuffersOf(Taken(Woken(d, c.nonblock, c.wakeup))) == BuffersOf(d)
  {
  }

  lemma CopiedKeeps(d: Dl, count: nat, copyOk: bool, queueOk: bool)
    requires d.Ok() && d.cur.Cur?
    ensures var o := Copied(d, count, copyOk, queueOk);
            BuffersOf(o.d) == BuffersOf(d) - if o.r.Late? then 1 else 0
  {
  }

  // ---- Runs ----

  datatype Step = Xfer(status: Status, data: seq<Byte>) | Unplug | ReadCall(call: Call)

  predicate StepOk(d: Dl, s: Step) {
    match s
    case Xfer(_, data) => d.ring != [] && |data| <= d.ring[0]
    case Unplug => true
    case ReadCall(c) => CallOk(d, c.wakeup)
  }

  function Next(d: Dl, s: Step): (d': Dl)
    requires d.Ok() && StepOk(d, s)
    ensures d'.Ok()
  {
    match s
    case Xfer(status, data) => Arrive(d, status, data)
    case Unplug => d.(enabled := false)
    case ReadCall(c) => Read(d, c).d
  }

  /** Bytes that arrive in a step. */
  function Arrived(d: Dl, s: Step): (bytes: seq<Byte>) {
    match s
    case Xfer(status, data) => if status.StatusOther? then [] else data
    case Unplug => []
    case ReadCall(c) => if Waits(d, c.nonblock) && c.wakeup.Arrives? then c.wakeup.data else []
  }

  /** Bytes a step copies to the user. */
  function Moved(d: Dl, s: Step): (bytes: seq<Byte>)
    requires d.Ok() && StepOk(d, s)
  {
    if s.ReadCall? && !Read(d, s.call).r.ReadErr? then Read(d, s.call).r.bytes else []
  }

  /** Bytes a step reports to the user. */
  function Reported(d: Dl, s: Step): (bytes: seq<Byte>)
    requires d.Ok() && StepOk(d, s)
  {
    if s.ReadCall? && Read(d, s.call).r.Got? then Read(d, s.call).r.bytes else []
  }

  /** A read that meets the guard with bytes left in its packet. */
  predicate CostsBytes(d: Dl, s: Step)
    requires d.Ok()
  {
    s.ReadCall? && FailsLate(d, s.call) && Serves(d, s.call.nonblock, s.call.wakeup).rest != []
  }

  predicate RunOk(d: Dl, ss: seq<Step>)
    requires d.Ok()
    decreases |ss|
  {
    ss != [] ==> StepOk(d, ss[0]) && RunOk(Next(d, ss[0]), ss[1..])
  }

  function Final(d: Dl, ss: seq<Step>): (d': Dl)
    requires d.Ok() && RunOk(d, ss)
    ensures d'.Ok()
    decreases |ss|
  {
    if ss == [] then d else Final(Next(d, ss[0]), ss[1..])
  }

  function Arrivals(d: Dl, ss: seq<Step>): (bytes: seq<Byte>)
    requires d.Ok() && RunOk(d, ss)
    decreases |ss|
  {
    if ss == [] then [] else Arrived(d, ss[0]) + Arrivals(Next(d, ss[0]), ss[1..])
  }

  /** What the successful reads of a run returned. */
  function Reports(d: Dl, ss: seq<Step>): (bytes: seq<Byte>)
    requires d.Ok() && RunOk(d, ss)
    decreases |ss|
  {
    if ss == [] then [] else Reported(d, ss[0]) + Reports(Next(d, ss[0]), ss[1..])
  }

  /** What all reads of a run copied. */
  function Moves(d: Dl, ss: seq<Step>): (bytes: seq<Byte>)
    requires d.Ok() && RunOk(d, ss)
    decreases |ss|
  {
    if ss == [] then [] else Moved(d, ss[0]) + Moves(Next(d, ss[0]), ss[1..])
  }

  /** Some read of the run meets the guard with bytes left in its packet. */
  predicate SomeCosts(d: Dl, ss: seq<Step>)
    requires d.Ok() && RunOk(d, ss)
    decreases |ss|
  {
    ss != [] && (CostsBytes(d, ss[0]) || SomeCosts(Next(d, ss[0]), ss[1..]))
  }

  lemma TakenUnread(d: Dl)
    requires d.Ok()
    ensures Taken(d).Ok() && Taken(d).Unread() == d.Unread()
  {
    if d.cur.NoBuf? && d.pending != [] {
      var p := d.pending[0];
      assert p[|p| - |p|..] == p;
    }
  }

  lemma RestSplits(d: Dl, count: nat, d': Dl)
    requires d.Ok() && d.cur.Cur? && count <= d.size && d' == d.(size := d.size - count)
    ensures d.Rest() == d.Rest()[..count] + d'.Rest()
  {
  }

  lemma CopiedUnread(d: Dl, count: nat, copyOk: bool, queueOk: bool)
    requires d.Ok() && d.cur.Cur?
    ensures var o := Copied(d, count, copyOk, queueOk);
            o.d.Ok() && d.Unread() == (if o.r.ReadErr? then [] else o.r.bytes) + o.d.Unread()
  {
    if copyOk && count < d.size {
      RestSplits(d, count, d.(size := d.size - count));
      var left := d.(size := d.size - count);
      var taken, rest, more := d.Rest()[..count], left.Rest(), Concat(d.pending);
      assert taken + (rest + more) == (taken + rest) + more;
    }
  }

  lemma ArriveUnread(d: Dl, status: Status, data: seq<Byte>)
    requires d.Ok() && d.ring != []
    ensures Arrive(d, status, data).Unread() == d.Unread() + if status.StatusOther? then [] else data
  {
    if status.StatusOther? {
      assert d.pending + [] == d.pending;
    } else {
      ConcatAppend(d.pending, data);
    }
  }

  lemma ReadUnread(d: Dl, c: Call)
    requires d.Ok() && CallOk(d, c.wakeup)
    ensures d.Unread() + Arrived(d, ReadCall(c)) == Moved(d, ReadCall(c)) + Read(d, c).d.Unread()
  {
    var woken := Woken(d, c.nonblock, c.wakeup);
    assert woken.Unread() == d.Unread() + Arrived(d, ReadCall(c)) by {
      if Waits(d, c.nonblock) && c.wakeup.Arrives? {
        ArriveUnread(d, c.wakeup.status, c.wakeup.data);
      }
    }
    if !woken.Idle() {
      TakenUnread(woken);
      CopiedUnread(Taken(woken), c.count, c.copyOk, c.queueOk);
    }
  }

  lemma StepUnread(d: Dl, s: Step)
    requires d.Ok() && StepOk(d, s)
    ensures d.Unread() + Arrived(d, s) == Moved(d, s) + Next(d, s).Unread()
  {
    match s
    case Xfer(status, data) => ArriveUnread(d, status, data);
    case Unplug =>
    case ReadCall(c) => ReadUnread(d, c);
  }

  lemma StepReports(d: Dl, s: Step)
    requires d.Ok() && StepOk(d, s)
    ensures if CostsBytes(d, s) then |Reported(d, s)| < |Moved(d, s)| else Reported(d, s) == Moved(d, s)
  {
    if s.ReadCall? {
      LateIff(d, s.call);
    }
  }

  /** What reads copy plus what is left unread is what was unread plus what arrives, over any run. */
  lemma {:induction false} RunMoves(d: Dl, ss: seq<Step>)
    requires d.Ok() && RunOk(d, ss)
    ensures d.Unread() + Arrivals(d, ss) == Moves(d, ss) + Final(d, ss).Unread()
    decreases |ss|
  {
    if ss != [] {
      var s, d', rest := ss[0], Next(d, ss[0]), ss[1..];
      StepUnread(d, s);
      RunMoves(d', rest);
      Joined(d.Unread(), Arrived(d, s), Arrivals(d', rest), Moved(d, s), d'.Unread(), Moves(d', rest),
          Final(d', rest).Unread());
    }
  }

  lemma Joined(u: seq<Byte>, a: seq<Byte>, more: seq<Byte>, m: seq<Byte>, u': seq<Byte>, moves: seq<Byte>,
               last: seq<Byte>)
    requires u + a == m + u' && u' + more == moves + last
    ensures u + (a + more) == (m + moves) + last
  {
    assert u + (a + more) == (u + a) + more;
    assert (m + u') + more == m + (u' + more);
    assert m + (moves + last) == (m + moves) + last;
  }

  lemma {:induction false} RunReports(d: Dl, ss: seq<Step>)
    requires d.Ok() && RunOk(d, ss)
    ensures |Reports(d, ss)| <= |Moves(d, ss)|
    ensures if SomeCosts(d, ss) then |Reports(d, ss)| < |Moves(d, ss)| else Reports(d, ss) == Moves(d, ss)
    decreases |ss|
  {
    if ss != [] {
      StepReports(d, ss[0]);
      RunReports(Next(d, ss[0]), ss[1..]);
    }
  }

  /**
   Over any run, what successful reads return plus what is left unread is what was unread plus what
   arrives, exactly if no read used up a packet with bytes left while its buffer could not be queued again.
  */
  lemma StreamFaithfulIff(d: Dl, ss: seq<Step>)
    requires d.Ok() && RunOk(d, ss)
    ensures d.Unread() + Arrivals(d, ss) == Reports(d, ss) + Final(d, ss).Unread() <==> !SomeCosts(d, ss)
  {
    RunMoves(d, ss);
    RunReports(d, ss);
    var last := Final(d, ss).Unread();
    assert |Moves(d, ss) + last| == |Moves(d, ss)| + |last| && |Reports(d, ss) + last| == |Reports(d, ss)| + |last|;
  }

  /** A packet of one byte, read while its buffer cannot be queued again, is lost to the stream. */
  lemma LostByteExample()
    ensures var d := Dl(0x1000, true, [], [[7]], NoBuf, 0);
            var s := ReadCall(Call(1, true, DlSignal, true, false));
            d.Ok() && StepOk(d, s) && Read(d, s.call).r == Late([7]) && Next(d, s).Unread() == []
                && Reported(d, s) == []
  {
    var d := Dl(0x1000, true, [], [[7]], NoBuf, 0);
    assert Taken(d).Rest() == [7];
  }
}
