/** MBIM end to end: what the transmit side frames, the receive side delivers, packet by packet and over streams. */
module MbimRoundTrip {
  import opened Bytes
  import opened Ethernet
  import opened Mbim
  import opened MbimDriver

  /** The fields of a sent block, wherever it lies in memory. */
  lemma SentNth(mem: seq<Byte>, seqNo: nat, tci: nat, payload: seq<Byte>)
    requires seqNo < 0x10000 && tci < 512 && TxBlock(seqNo, tci, payload) <= mem
    ensures mem[..4] == NTH16_SIGN && mem[12..16] == Sign(tci)
    ensures Le16At(mem, 4) == NTH16_SIZE && Le16At(mem, 6) == seqNo
    ensures Le16At(mem, 8) == U16(HDR_SIZE + |payload|) && Le16At(mem, 10) == NTH16_SIZE
  {
    var block := TxBlock(seqNo, tci, payload);
    assert forall k | 0 <= k < 16 :: mem[k] == block[k];
    Le16Reads(NTH16_SIZE);
    Le16Reads(seqNo);
    Le16Reads(U16(HDR_SIZE + |payload|));
  }

  lemma SentNdp(mem: seq<Byte>, seqNo: nat, tci: nat, payload: seq<Byte>)
    requires seqNo < 0x10000 && tci < 512 && TxBlock(seqNo, tci, payload) <= mem
    ensures Le16At(mem, 16) == NDP16_SIZE + 2 * DPE16_SIZE && Le16At(mem, 18) == 0
    ensures DpeAt(mem, 20, (HDR_SIZE, U16(|payload|))) && DpeAt(mem, 24, (0, 0))
    ensures mem[HDR_SIZE..HDR_SIZE + |payload|] == payload
  {
    var block := TxBlock(seqNo, tci, payload);
    assert forall k | 16 <= k < HDR_SIZE + |payload| :: mem[k] == block[k];
    Le16Reads(NDP16_SIZE + 2 * DPE16_SIZE);
    Le16Reads(0);
    Le16Reads(HDR_SIZE);
    Le16Reads(U16(|payload|));
  }

  /** A payload the receive side takes: it looks like IP and its block is within the receive limit. */
  predicate Fits(payload: seq<Byte>) {
    |payload| > 0 && HDR_SIZE + |payload| <= RX_MAX && StartsIp(payload[0])
  }

  /** Every block sent for a payload that fits is well formed, with one NDP that names the payload. */
  lemma SentIsNtb16(mem: seq<Byte>, seqNo: nat, tci: nat, payload: seq<Byte>)
    requires seqNo < 0x10000 && tci < 512 && TxBlock(seqNo, tci, payload) <= mem && Fits(payload)
    ensures IsNtb16(mem, HDR_SIZE + |payload|, seqNo, [NdpDesc(NTH16_SIZE, tci, [(HDR_SIZE, |payload|)])])
  {
    SentNth(mem, seqNo, tci, payload);
    SentNdp(mem, seqNo, tci, payload);
    var len := HDR_SIZE + |payload|;
    var gram: (nat, nat) := (HDR_SIZE, |payload|);
    assert mem[HDR_SIZE] == payload[0];
    assert GramOk(mem, len, gram);
    var grams: seq<(nat, nat)>, empty: seq<(nat, nat)> := [gram], [];
    assert grams[1..] == empty;
    var d := NdpDesc(NTH16_SIZE, tci, grams);
    assert EntriesAt(mem, 20, grams);
    assert NdpAt(mem, len, d, 0);
    OnlyOne(mem, len, d);
  }

  lemma OnlyOne(mem: seq<Byte>, len: nat, d: NdpDesc)
    requires NdpAt(mem, len, d, 0)
    ensures NdpsLinked(mem, len, [d], 0)
    ensures NdpsGrams(mem, len, [d], 0) == GramsOf(mem, len, d.grams, d.session)
  {
    var ds: seq<NdpDesc>, none: seq<NdpDesc> := [d], [];
    assert ds[1..] == none;
    assert NdpsGrams(mem, len, none, 0) == [];
  }

  // ---- What becomes of any block ----

  /** The receive side looks past the header of the block: its 16-bit length is within the receive limit. */
  predicate Heard(payload: seq<Byte>) {
    U16(HDR_SIZE + |payload|) <= RX_MAX
  }

  /** What is delivered of a payload, whose length goes out in 16 bits. */
  function Cut(tci: nat, payload: seq<Byte>): (grams: seq<Datagram>) {
    var size := U16(|payload|);
    if size == 0 || size > RX_MAX || !StartsIp(payload[0]) then [] else [Datagram(tci, payload[..size])]
  }

  lemma SentTable(mem: seq<Byte>, len: nat, seqNo: nat, tci: nat, payload: seq<Byte>)
    requires seqNo < 0x10000 && tci < 512 && |payload| > 0
    requires TxBlock(seqNo, tci, payload) <= mem && len == HDR_SIZE + |payload|
    ensures var t := ReadTable(mem, len, 20, 2, tci); t.grams == Cut(tci, payload) && t.end != Outside
  {
    var size := U16(|payload|);
    SentNdp(mem, seqNo, tci, payload);
    assert mem[HDR_SIZE] == mem[HDR_SIZE..HDR_SIZE + |payload|][0];
    assert ReadTable(mem, len, 24, 1, tci) == Table([], Fine);
    if 0 < size <= RX_MAX && StartsIp(payload[0]) {
      assert mem[HDR_SIZE..HDR_SIZE + size] == mem[HDR_SIZE..HDR_SIZE + |payload|][..size];
      EntryDecodes(mem, len, 20, 24, (HDR_SIZE, size), 2, 1, tci);
    }
  }

  lemma SentNdpReads(mem: seq<Byte>, len: nat, seqNo: nat, tci: nat, payload: seq<Byte>)
    requires seqNo < 0x10000 && tci < 512 && |payload| > 0
    requires TxBlock(seqNo, tci, payload) <= mem && len == HDR_SIZE + |payload|
    ensures var r := ReadNdp(mem, len, NTH16_SIZE);
            r.grams == Cut(tci, payload) && !r.Past? && (r.Good? ==> r.next == 0)
  {
    SentNth(mem, seqNo, tci, payload);
    SentNdp(mem, seqNo, tci, payload);
    SentTable(mem, len, seqNo, tci, payload);
    assert Nframes(mem, NTH16_SIZE) == 2;
  }

  /**
   What any sent block is received as: refused by its header, or accepted with its payload, cut, if that
   starts like IP.
  */
  lemma SentReceived(mem: seq<Byte>, len: nat, seqNo: nat, tci: nat, payload: seq<Byte>)
    requires seqNo < 0x10000 && tci < 512 && |payload| > 0
    requires TxBlock(seqNo, tci, payload) <= mem && len == HDR_SIZE + |payload|
    ensures Receive(mem, len) == if Heard(payload) then Accepted(seqNo, Stopped(Cut(tci, payload))) else BadHeader
  {
    SentNth(mem, seqNo, tci, payload);
    SentNdpReads(mem, len, seqNo, tci, payload);
    var r := ReadNdp(mem, len, NTH16_SIZE);
    if r.Good? {
      WalkStep(mem, len, NTH16_SIZE, TURNS, TURNS - 1, r.grams, 0);
      assert r.grams + [] == r.grams;
    }
  }

  lemma CutIff(tci: nat, payload: seq<Byte>)
    requires |payload| > 0
    ensures Heard(payload) && Cut(tci, payload) == [Datagram(tci, payload)] <==> Fits(payload)
  {
    if Fits(payload) {
      assert payload[..|payload|] == payload;
    } else if Cut(tci, payload) == [Datagram(tci, payload)] {
      assert |payload[..U16(|payload|)]| == U16(|payload|);
    }
  }

  /**
   Transmit then receive is the identity on the payload and on the session tags 0..511 exactly for
   the payloads that start like IP and whose block is within the limit; `mem` may hold anything after the block.
  */
  lemma RoundTrip(mem: seq<Byte>, seqNo: nat, tci: nat, payload: seq<Byte>)
    requires seqNo < 0x10000 && tci < 512 && |payload| > 0 && TxBlock(seqNo, tci, payload) <= mem
    ensures Receive(mem, HDR_SIZE + |payload|) == Accepted(seqNo, Stopped([Datagram(tci, payload)])) <==>
            28 + |payload| <= 31744 && (0x40 <= payload[0] <= 0x4f || 0x60 <= payload[0] <= 0x6f)
  {
    SentReceived(mem, HDR_SIZE + |payload|, seqNo, tci, payload);
    CutIff(tci, payload);
  }

  // ---- Streams ----

  /** What becomes of a frame handed to the transmit side: `Lost` frames take a number that is never heard. */
  datatype Way = Unnumbered | Lost | Through

  /** A frame handed to the transmit side, its headroom, and what lies in memory after its block. */
  datatype Packet = Packet(skb: seq<Byte>, headroom: nat, beyond: seq<Byte>) {
    function Fate(): Fate {
      FateOf(skb, headroom)
    }

    function Payload(): (p: seq<Byte>)
      requires Fate().Sent?
      ensures |p| > 0
    {
      skb[LinkHeader(skb)..]
    }

    function Block(tx: nat): (b: seq<Byte>)
      requires Fate().Sent? && tx < 0x10000
    {
      TxBlock(tx, TagOf(skb), Payload())
    }

    /** Dropped before it is numbered; dropped after, for its tag, or sent but over the receive limit; or heard. */
    function Way(): (w: Way)
      ensures w.Through? ==> Fate().Sent?
    {
      match Fate()
      case Early => Unnumbered
      case Late => Lost
      case Sent => if Heard(Payload()) then Through else Lost
    }
  }

  /** What the receive side makes of one block, and the number it expects next. */
  datatype Arrival = Arrival(grams: seq<Datagram>, glitch: bool)
  datatype Judged = Judged(arrival: Arrival, rx: nat)

  function Judge(rx: nat, r: RxResult): (h: Judged) {
    match r
    case Accepted(seqNo, walk) => Judged(Arrival(walk.grams, rx != seqNo), U16(seqNo + 1))
    case _ => Judged(Arrival([], false), rx)
  }

  function Hear(tx: nat, k: Packet): (r: RxResult)
    requires tx < 0x10000 && k.Fate().Sent?
  {
    Receive(k.Block(tx) + k.beyond, |k.Block(tx)|)
  }

  /** The arrivals for a stream of frames, one for each frame sent, from the counters of both sides. */
  function Stream(tx: nat, rx: nat, ks: seq<Packet>): (arrivals: seq<Arrival>)
    requires tx < 0x10000
    decreases |ks|
  {
    if ks == [] then []
    else
      match ks[0].Fate()
      case Early => Stream(tx, rx, ks[1..])
      case Late => Stream(U16(tx + 1), rx, ks[1..])
      case Sent => var h := Judge(rx, Hear(tx, ks[0])); [h.arrival] + Stream(U16(tx + 1), h.rx, ks[1..])
  }

  /** The arrival of one frame after `lost` numbers were lost. */
  function ArrivalOf(k: Packet, lost: nat): (a: Arrival)
    requires k.Fate().Sent?
  {
    if Heard(k.Payload()) then Arrival(Cut(TagOf(k.skb), k.Payload()), lost % 0x10000 != 0) else Arrival([], false)
  }

  /** How many numbers are lost in a row after one more frame. */
  function LostAfter(k: Packet, lost: nat): (n: nat) {
    match k.Way()
    case Unnumbered => lost
    case Lost => lost + 1
    case Through => 0
  }

  /**
   One arrival per frame sent: nothing if it is not heard, else its payload, with a glitch where numbers
   were lost before.
  */
  function Expected(ks: seq<Packet>, lost: nat): (arrivals: seq<Arrival>)
    decreases |ks|
  {
    if ks == [] then []
    else (if ks[0].Fate().Sent? then [ArrivalOf(ks[0], lost)] else []) + Expected(ks[1..], LostAfter(ks[0], lost))
  }

  lemma SentArrives(tx: nat, k: Packet)
    requires tx < 0x10000 && k.Fate().Sent?
    ensures Hear(tx, k) == if Heard(k.Payload()) then Accepted(tx, Stopped(Cut(TagOf(k.skb), k.Payload())))
            else BadHeader
  {
    var block, payload, tci := k.Block(tx), k.Payload(), TagOf(k.skb);
    SentReceived(block + k.beyond, |block|, tx, tci, payload);
  }

  lemma NextNumber(tx: nat, rx: nat, lost: nat, next: nat, more: nat)
    requires tx == U16(rx + lost) && rx < 0x10000 && next == U16(tx + 1) && more == lost + 1
    ensures next == U16(rx + more) && next == U16(next + 0)
    ensures rx != tx <==> lost % 0x10000 != 0
  {
  }

  lemma JudgeSent(tx: nat, rx: nat, k: Packet, next: nat, lost: nat)
    requires tx < 0x10000 && k.Fate().Sent? && next == U16(tx + 1) && (rx != tx <==> lost % 0x10000 != 0)
    ensures Judge(rx, Hear(tx, k)) == Judged(ArrivalOf(k, lost), if k.Way().Through? then next else rx)
  {
    SentArrives(tx, k);
  }

  lemma StreamSent(tx: nat, rx: nat, ks: seq<Packet>, rest: seq<Packet>, next: nat, h: Judged)
    requires tx < 0x10000 && ks != [] && ks[0].Fate().Sent? && rest == ks[1..] && next == U16(tx + 1)
    requires h == Judge(rx, Hear(tx, ks[0]))
    ensures Stream(tx, rx, ks) == [h.arrival] + Stream(next, h.rx, rest)
  {
  }

  lemma ExpectedStep(ks: seq<Packet>, rest: seq<Packet>, lost: nat)
    requires ks != [] && rest == ks[1..]
    ensures Expected(ks, lost) ==
            (if ks[0].Fate().Sent? then [ArrivalOf(ks[0], lost)] else []) + Expected(rest, LostAfter(ks[0], lost))
  {
  }

  /**
   Any stream is received in order, frame by frame; a payload that fits arrives with its tag as it was
   sent. A frame that is heard comes with a glitch exactly if the count of the numbers lost since the
   one heard before is no multiple of 65536, so the 16-bit wrap alone never shows.
  */
  lemma {:induction false} StreamArrives(tx: nat, rx: nat, ks: seq<Packet>, lost: nat)
    requires tx < 0x10000 && rx < 0x10000 && tx == U16(rx + lost)
    ensures Stream(tx, rx, ks) == Expected(ks, lost)
    decreases |ks|
  {
    if ks != [] {
      var k, rest, next, more := ks[0], ks[1..], U16(tx + 1), lost + 1;
      ExpectedStep(ks, rest, lost);
      if k.Fate().Early? {
        StreamArrives(tx, rx, rest, lost);
      } else {
        var rx' := if k.Way().Through? then next else rx;
        NextNumber(tx, rx, lost, next, more);
        StreamArrives(next, rx', rest, LostAfter(k, lost));
        if k.Fate().Sent? {
          JudgeSent(tx, rx, k, next, lost);
          StreamSent(tx, rx, ks, rest, next, Judged(ArrivalOf(k, lost), rx'));
        }
      }
    }
  }

  // ---- When a stream shows no glitch ----

  /** How many numbers were lost in a row just before frame i, `lost` of them before the first frame. */
  function LostBefore(ks: seq<Packet>, i: nat, lost: nat): (n: nat)
    requires i <= |ks|
  {
    if i == 0 then lost else LostAfter(ks[i - 1], LostBefore(ks, i - 1, lost))
  }

  lemma {:induction false} LostBeforeShift(ks: seq<Packet>, rest: seq<Packet>, i: nat, next: nat, lost: nat)
    requires ks != [] && rest == ks[1..] && i <= |rest| && next == i + 1
    ensures LostBefore(ks, next, lost) == LostBefore(rest, i, LostAfter(ks[0], lost))
    decreases i
  {
    if i > 0 {
      LostBeforeShift(ks, rest, i - 1, i, lost);
      assert ks[i] == rest[i - 1];
    }
  }

  ghost predicate NoGlitch(arrivals: seq<Arrival>) {
    forall a :: a in arrivals ==> !a.glitch
  }

  /** Frame i, if it is heard, follows a multiple of 65536 lost numbers. */
  ghost predicate InStepAt(ks: seq<Packet>, i: nat, lost: nat)
    requires i < |ks|
  {
    ks[i].Way().Through? ==> LostBefore(ks, i, lost) % 0x10000 == 0
  }

  ghost predicate InStep(ks: seq<Packet>, lost: nat) {
    forall i: nat :: i < |ks| ==> InStepAt(ks, i, lost)
  }

  lemma InStepStep(ks: seq<Packet>, rest: seq<Packet>, lost: nat)
    requires ks != [] && rest == ks[1..]
    ensures InStep(ks, lost) <==> InStepAt(ks, 0, lost) && InStep(rest, LostAfter(ks[0], lost))
  {
    forall i: nat | i < |rest| ensures InStepAt(ks, i + 1, lost) <==> InStepAt(rest, i, LostAfter(ks[0], lost)) {
      LostBeforeShift(ks, rest, i, i + 1, lost);
    }
    if InStepAt(ks, 0, lost) && InStep(rest, LostAfter(ks[0], lost)) {
      forall i: nat | i < |ks| ensures InStepAt(ks, i, lost) {
        if i > 0 {
          assert InStepAt(rest, i - 1, LostAfter(ks[0], lost));
        }
      }
    }
    if InStep(ks, lost) {
      forall i: nat | i < |rest| ensures InStepAt(rest, i, LostAfter(ks[0], lost)) {
        assert InStepAt(ks, i + 1, lost);
      }
    }
  }

  lemma {:induction false} ExpectedQuietIff(ks: seq<Packet>, lost: nat)
    ensures NoGlitch(Expected(ks, lost)) <==> InStep(ks, lost)
    decreases |ks|
  {
    if ks != [] {
      var rest, after := ks[1..], LostAfter(ks[0], lost);
      ExpectedStep(ks, rest, lost);
      InStepStep(ks, rest, lost);
      ExpectedQuietIff(rest, after);
      if ks[0].Fate().Sent? {
        QuietHead(ArrivalOf(ks[0], lost), Expected(rest, after));
      } else {
        assert [] + Expected(rest, after) == Expected(rest, after);
      }
    }
  }

  lemma QuietHead(a: Arrival, more: seq<Arrival>)
    ensures NoGlitch([a] + more) <==> !a.glitch && NoGlitch(more)
  {
    assert a in [a] + more && forall b :: b in more ==> b in [a] + more;
  }

  /**
   A stream shows no glitch exactly if before every frame that is heard the numbers lost in a row, to
   tags out of range or to the receive limit, are a multiple of 65536.
  */
  lemma NoGlitchIff(tx: nat, ks: seq<Packet>)
    requires tx < 0x10000
    ensures NoGlitch(Stream(tx, tx, ks)) <==> InStep(ks, 0)
  {
    StreamArrives(tx, tx, ks, 0);
    ExpectedQuietIff(ks, 0);
  }

  lemma {:induction false} NothingLostBefore(ks: seq<Packet>, i: nat)
    requires i <= |ks| && forall k :: k in ks ==> !k.Way().Lost?
    ensures LostBefore(ks, i, 0) == 0
  {
    if i > 0 {
      NothingLostBefore(ks, i - 1);
      assert ks[i - 1] in ks;
    }
  }

  /** A stream that loses no number shows no glitch, however long it is. */
  lemma NoGlitchWithoutLoss(tx: nat, ks: seq<Packet>)
    requires tx < 0x10000 && forall k :: k in ks ==> !k.Way().Lost?
    ensures NoGlitch(Stream(tx, tx, ks))
  {
    forall i: nat | i < |ks| ensures InStepAt(ks, i, 0) {
      NothingLostBefore(ks, i);
    }
    NoGlitchIff(tx, ks);
  }

  /** An untagged frame for an IPv4 payload, with room for the headers. */
  function IpFrame(payload: seq<Byte>): (k: Packet) {
    Packet([0, 0, 0, 0, 0, 0, 0, 0, 0, 0, 0, 0, 8, 0] + payload, HDR_SIZE, [])
  }

  lemma IpFrameSent(payload: seq<Byte>, lost: nat)
    requires |payload| > 0
    ensures var k := IpFrame(payload);
            && k.Fate().Sent? && k.Payload() == payload && TagOf(k.skb) == 0
            && (k.Way().Through? <==> Heard(payload))
            && ArrivalOf(k, lost) == if Heard(payload) then Arrival(Cut(0, payload), lost % 0x10000 != 0)
                else Arrival([], false)
  {
  }

  lemma TwoSent(a: Packet, b: Packet)
    requires a.Fate().Sent? && b.Fate().Sent?
    ensures Stream(0, 0, [a, b]) == [ArrivalOf(a, 0), ArrivalOf(b, LostAfter(a, 0))]
  {
    var ks, last, none: seq<Packet> := [a, b], [b], [];
    StreamArrives(0, 0, ks, 0);
    ExpectedStep(ks, last, 0);
    ExpectedStep(last, none, LostAfter(a, 0));
    assert Expected(none, LostAfter(b, LostAfter(a, 0))) == [];
  }

  lemma LongArrival(long: seq<Byte>, k: Packet)
    requires HDR_SIZE + |long| == RX_MAX + 1 && k == IpFrame(long)
    ensures k.Fate().Sent? && ArrivalOf(k, 0) == Arrival([], false) && LostAfter(k, 0) == 1
  {
    IpFrameSent(long, 0);
  }

  lemma ShortArrival(k: Packet)
    requires k == IpFrame([0x45])
    ensures k.Fate().Sent? && ArrivalOf(k, 1) == Arrival([Datagram(0, [0x45])], true)
  {
    IpFrameSent([0x45], 1);
    CutIff(0, [0x45]);
  }

  /**
   One frame just over the receive limit is sent and refused, and the next one, though all were sent, shows
   a glitch.
  */
  lemma OverlongExample(long: seq<Byte>, a: Packet, b: Packet)
    requires HDR_SIZE + |long| == RX_MAX + 1 && a == IpFrame(long) && b == IpFrame([0x45])
    ensures a.Fate().Sent? && b.Fate().Sent?
    ensures Stream(0, 0, [a, b]) == [Arrival([], false), Arrival([Datagram(0, [0x45])], true)]
  {
    LongArrival(long, a);
    ShortArrival(b);
    TwoSent(a, b);
  }
}
