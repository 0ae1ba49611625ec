/** The MBIM driver object: `cdc_mbim_tx_fixup`, `cdc_mbim_rx_fixup`, and a packet's way through both. */
module MbimDriver {
  import opened Bytes
  import opened Ethernet
  import opened Mbim

  // ---- What the transmit side does with a frame ----

  function TagOf(skb: seq<Byte>): (tci: nat)
    ensures tci < 0x10000
  {
    if Tagged(skb) then Be16At(skb, 14) else 0
  }

  /** `Early`: dropped before it took a sequence number; `Late`: dropped after; `Sent`: sent. */
  datatype Fate = Early | Late | Sent

  function FateOf(skb: seq<Byte>, headroom: nat): (f: Fate) {
    if |skb| <= ETH_HLEN then Early
    else if !IsIpProto(Proto(skb)) then Early
    else if headroom + LinkHeader(skb) < HDR_SIZE then Early
    else if TagOf(skb) >= 512 then Late
    else Sent
  }

  /** The block sent for a payload: NTH16, one NDP16 with one datagram and the zero entry, payload. */
  function TxBlock(seqNo: nat, tci: nat, payload: seq<Byte>): (b: seq<Byte>)
    requires seqNo < 0x10000 && tci < 512
    ensures |b| == HDR_SIZE + |payload|
  {
    NTH16_SIGN + Le16(NTH16_SIZE) + Le16(seqNo) + Le16(U16(HDR_SIZE + |payload|)) + Le16(NTH16_SIZE)
    + Sign(tci) + Le16(NDP16_SIZE + 2 * DPE16_SIZE) + Le16(0)
    + Le16(HDR_SIZE) + Le16(U16(|payload|)) + Le16(0) + Le16(0)
    + payload
  }

  /** The block byte by byte. */
  lemma BlockBytes(seqNo: nat, tci: nat, payload: seq<Byte>)
    requires seqNo < 0x10000 && tci < 512 && |payload| <= 0xffff - 28
    ensures var n := |payload|;
            TxBlock(seqNo, tci, payload) ==
            [0x4e, 0x43, 0x4d, 0x48, 12, 0, seqNo % 256, seqNo / 256, (28 + n) % 256, (28 + n) / 256, 12, 0]
            + ((if tci < 256 then [0x49, 0x50, 0x53, tci] else [0x44, 0x53, 0x53, tci - 256]) + [16, 0, 0, 0])
            + [28, 0, n % 256, n / 256, 0, 0, 0, 0] + payload
  {
    var n := |payload|;
    var nth16 := NTH16_SIGN + Le16(NTH16_SIZE) + Le16(seqNo) + Le16(U16(HDR_SIZE + n)) + Le16(NTH16_SIZE);
    var ndp16 := Sign(tci) + Le16(NDP16_SIZE + 2 * DPE16_SIZE) + Le16(0);
    var dpe16 := Le16(HDR_SIZE) + Le16(U16(n)) + Le16(0) + Le16(0);
    BlockPieces(seqNo, tci, payload, nth16, ndp16, dpe16);
    NthBytes(seqNo, 28 + n);
    NdpBytes(tci);
    DpeBytes(n);
  }

  lemma DpeBytes(n: nat)
    requires n < 0x10000
    ensures Le16(HDR_SIZE) + Le16(U16(n)) + Le16(0) + Le16(0) == [28, 0, n % 256, n / 256, 0, 0, 0, 0]
  {
    assert U16(n) == n && Le16(28) == [28, 0] && Le16(0) == [0, 0];
  }

  lemma NthBytes(seqNo: nat, size: nat)
    requires seqNo < 0x10000 && size < 0x10000
    ensures NTH16_SIGN + Le16(NTH16_SIZE) + Le16(seqNo) + Le16(U16(size)) + Le16(NTH16_SIZE) ==
            [0x4e, 0x43, 0x4d, 0x48, 12, 0, seqNo % 256, seqNo / 256, size % 256, size / 256, 12, 0]
  {
    assert U16(size) == size && Le16(12) == [12, 0];
  }

  lemma NdpBytes(tci: nat)
    requires tci < 512
    ensures Sign(tci) + Le16(NDP16_SIZE + 2 * DPE16_SIZE) + Le16(0) ==
            (if tci < 256 then [0x49, 0x50, 0x53, tci] else [0x44, 0x53, 0x53, tci - 256]) + [16, 0, 0, 0]
  {
    assert Le16(16) == [16, 0] && Le16(0) == [0, 0];
  }

  /**
   A frame's fate, in its bytes: it is sent exactly if it is an IPv4 or IPv6 frame with room for the headers and
   no VLAN tag or one below 512, and takes a number for nothing exactly if only its tag is out of range.
  */
  lemma FateMeans(skb: seq<Byte>, headroom: nat)
    ensures var link := if Tagged(skb) then 18 else 14;
            var isIp := BytesAt(skb, link - 2, 0x08, 0x00) || BytesAt(skb, link - 2, 0x86, 0xdd);
            var numbered := |skb| > 14 && isIp && headroom + link >= 28;
            var tci := if Tagged(skb) then 256 * (skb[14] as int) + (skb[15] as int) else 0;
            && (FateOf(skb, headroom) == Sent <==> numbered && tci < 512)
            && (FateOf(skb, headroom) == Late <==> numbered && tci >= 512)
            && (FateOf(skb, headroom) == Sent ==> TagOf(skb) == tci && LinkHeader(skb) == link)
  {
    FrameTypes(skb);
  }

  datatype TxResult = Dropped | Frame(block: seq<Byte>)

  // ---- What the receive side does with a block ----

  datatype RxResult = TooShort | BadHeader | Accepted(seqNo: nat, walk: Walk)

  function Receive(mem: seq<Byte>, len: nat): (r: RxResult)
    requires len <= |mem|
    ensures r.Accepted? ==> r.seqNo < 0x10000
  {
    if len < NTH16_SIZE + NDP16_SIZE then TooShort
    else if mem[..4] != NTH16_SIGN then BadHeader
    else if Le16At(mem, 8) > RX_MAX then BadHeader
    else Accepted(Le16At(mem, 6), WalkNdps(mem, len, Le16At(mem, 10), TURNS))
  }

  /** Which blocks are looked at, in their bytes: of at least 20 bytes, "NCMH", saying at most 31744 bytes. */
  lemma ReceiveMeans(mem: seq<Byte>, len: nat)
    requires len <= |mem|
    ensures Receive(mem, len).TooShort? <==> len < 20
    ensures len >= 20 ==>
              (Receive(mem, len).Accepted? <==>
                && mem[0] == 0x4e && mem[1] == 0x43 && mem[2] == 0x4d && mem[3] == 0x48
                && (mem[8] as int) + 256 * (mem[9] as int) <= 31744)
    ensures Receive(mem, len).Accepted? ==> Receive(mem, len).seqNo == (mem[6] as int) + 256 * (mem[7] as int)
  {
    if len >= 20 {
      assert mem[..4] == [mem[0], mem[1], mem[2], mem[3]];
    }
  }

  /** A well-formed block is accepted, with all its datagrams. */
  lemma NtbReceived(mem: seq<Byte>, len: nat, seqNo: nat, ds: seq<NdpDesc>)
    requires len <= |mem| && IsNtb16(mem, len, seqNo, ds)
    ensures Receive(mem, len) == Accepted(seqNo, Stopped(NdpsGrams(mem, len, ds, 0)))
  {
    NtbDecodes(mem, len, seqNo, ds);
  }

  class CdcMbim {
    var txSeq: nat
    var rxSeq: nat

    predicate Valid()
      reads this
    {
      txSeq < 0x10000 && rxSeq < 0x10000
    }

    /** `cdc_mbim_bind`. */
    constructor ()
      ensures Valid() && txSeq == 0 && rxSeq == 0
    {
      txSeq, rxSeq := 0, 0;
    }

    /** `cdc_mbim_tx_fixup`. The sequence number is taken before the tag is looked at. */
    method TxFixup(skb: seq<Byte>, headroom: nat) returns (r: TxResult)
      requires Valid()
      modifies this`txSeq
      ensures Valid()
      ensures r == if FateOf(skb, headroom).Sent? then Frame(TxBlock(old(txSeq), TagOf(skb), skb[LinkHeader(skb)..]))
              else Dropped
      ensures txSeq == if FateOf(skb, headroom).Early? then old(txSeq) else U16(old(txSeq) + 1)
    {
      var isIp, tci, pulled := false, 0, 0;
      if |skb| <= ETH_HLEN {
        return Dropped;
      }
      if |skb| > VLAN_ETH_HLEN && (Be16At(skb, 12) == ETH_P_8021Q || Be16At(skb, 12) == ETH_P_8021AD) {
        tci := Be16At(skb, 14);
        isIp := IsIpProto(Be16At(skb, 16));
        pulled := VLAN_ETH_HLEN;
      } else {
        isIp := IsIpProto(Be16At(skb, 12));
        pulled := ETH_HLEN;
      }
      if !isIp {
        return Dropped;
      }
      if headroom + pulled < HDR_SIZE {
        return Dropped;
      }
      var payload := skb[pulled..];
      var seqNo := txSeq;
      txSeq := U16(txSeq + 1);
      r := Build(seqNo, tci, payload);
    }

    /** The headers in front of a payload, unless the tag is out of range. */
    method Build(seqNo: nat, tci: nat, payload: seq<Byte>) returns (r: TxResult)
      requires seqNo < 0x10000
      ensures r == if tci < 512 then Frame(TxBlock(seqNo, tci, payload)) else Dropped
    {
      var skbLen := |payload|;
      var nth16 := NTH16_SIGN + Le16(NTH16_SIZE) + Le16(seqNo) + Le16(U16(HDR_SIZE + skbLen)) + Le16(NTH16_SIZE);
      var sign;
      if tci < 256 {
        sign := IPS_SIGN + [tci];
      } else if tci < 512 {
        sign := DSS_SIGN + [tci % 256];
      } else {
        return Dropped;
      }
      var ndp16 := sign + Le16(NDP16_SIZE + 2 * DPE16_SIZE) + Le16(0);
      var dpe16 := Le16(HDR_SIZE) + Le16(U16(skbLen)) + Le16(0) + Le16(0);
      r := Frame(nth16 + ndp16 + dpe16 + payload);
      BlockPieces(seqNo, tci, payload, nth16, ndp16, dpe16);
    }

    /** The descriptor loop of `cdc_mbim_rx_fixup`: datagrams appended, and how it ended. */
    method ReadDatagrams(mem: seq<Byte>, len: nat, table: nat, nframes: nat, tci: nat) returns (t: Table)
      requires len <= |mem|
      ensures t == ReadTable(mem, len, table, nframes, tci)
    {
      var x, dpe, grams, going, end := 0, table, [], true, Fine;
      ghost var left: nat := nframes;
      ghost var whole := ReadTable(mem, len, table, nframes, tci);
      ghost var rest := whole;
      while going && x < nframes
        invariant x + left == nframes && whole == Behind(grams, rest)
        invariant if going then rest == ReadTable(mem, len, dpe, left, tci) && end == Fine else rest == Table([], end)
        decreases going, left
      {
        ghost var less: nat := left - 1;
        grams, dpe, going, end, rest := ReadDatagram(mem, len, dpe, tci, left, less, grams, whole);
        x, left := x + 1, less;
      }
      t := Table(grams, end);
    }

    /** One turn of the descriptor loop: a datagram, or the end of the table. */
    method ReadDatagram(mem: seq<Byte>, len: nat, dpe: nat, tci: nat, ghost left: nat, ghost less: nat,
                        before: seq<Datagram>, ghost whole: Table)
      returns (grams: seq<Datagram>, next: nat, going: bool, end: End, ghost rest: Table)
      requires len <= |mem| && left == less + 1 && whole == Behind(before, ReadTable(mem, len, dpe, left, tci))
      ensures whole == Behind(grams, rest)
      ensures if going then rest == ReadTable(mem, len, next, less, tci) && end == Fine else rest == Table([], end)
    {
      grams, next, going, end, rest := before, dpe + DPE16_SIZE, false, Fine, Table([], Fine);
      if dpe + DPE16_SIZE > |mem| {
        end, rest := Outside, Table([], Outside);
        return;
      }
      var offset, skbLen := Le16At(mem, dpe), Le16At(mem, dpe + 2);
      if offset == 0 || skbLen == 0 {
        return;
      }
      if offset + skbLen > len || skbLen > RX_MAX {
        end, rest := Refused, Table([], Refused);
        return;
      }
      if !IpNibble(mem[offset]) {
        end, rest := Refused, Table([], Refused);
        return;
      }
      var gram := Datagram(tci, mem[offset..offset + skbLen]);
      grams, going := before + [gram], true;
      rest := ReadTable(mem, len, next, less, tci);
      EntryDecodes(mem, len, dpe, next, (offset, skbLen), left, less, tci);
      BehindBehind(before, [gram], rest);
    }

    /** One NDP. */
    method ReadOneNdp(mem: seq<Byte>, len: nat, at: nat) returns (r: Ndp)
      requires len <= |mem|
      ensures r == ReadNdp(mem, len, at)
    {
      if len < at + NDP16_SIZE {
        return Bad([]);
      }
      if Le16At(mem, at + 4) < 0x10 {
        return Bad([]);
      }
      var nframes := (Le16At(mem, at + 4) - NDP16_SIZE) / DPE16_SIZE;
      if len < NDP16_SIZE + nframes * DPE16_SIZE {
        return Bad([]);
      }
      var sign := mem[at..at + 4];
      var tci: nat;
      if sign[..3] == IPS_SIGN {
        tci := sign[3] as int;
      } else if sign[..3] == DSS_SIGN {
        tci := sign[3] as int + 256;
      } else {
        return Bad([]);
      }
      var t := ReadDatagrams(mem, len, at + NDP16_SIZE, nframes, tci);
      match t.end
      case Fine => r := Good(t.grams, Le16At(mem, at + 6));
      case Refused => r := Bad(t.grams);
      case Outside => r := Past(t.grams);
    }

    /**
     `cdc_mbim_rx_fixup` on a block of `len` bytes at the start of `mem`. NDPs are counted; after
     65536 of them the driver's loop would never end, and `endless` says so. If a table leaves memory,
     `past` says so and what the driver does then is not known.
    */
    method RxFixup(mem: seq<Byte>, len: nat) returns (queued: seq<Datagram>, glitch: bool, endless: bool, past: bool)
      requires Valid() && len <= |mem|
      modifies this`rxSeq
      ensures Valid()
      ensures var r := Receive(mem, len);
              if r.Accepted? then
                && rxSeq == U16(r.seqNo + 1) && (glitch <==> old(rxSeq) != r.seqNo)
                && queued == r.walk.grams && endless == r.walk.Running? && past == r.walk.RanPast?
              else rxSeq == old(rxSeq) && queued == [] && !glitch && !endless && !past
    {
      queued, glitch, endless, past := [], false, false, false;
      if len < NTH16_SIZE + NDP16_SIZE {
        return;
      }
      if mem[..4] != NTH16_SIGN {
        return;
      }
      if Le16At(mem, 8) > RX_MAX {
        return;
      }
      var wSequence := Le16At(mem, 6);
      glitch := rxSeq != wSequence;
      rxSeq := U16(wSequence + 1);
      queued, endless, past := WalkAll(mem, len, Le16At(mem, 10), TURNS);
    }

    /** The loop over the NDPs, given up after `limit` of them. */
    method WalkAll(mem: seq<Byte>, len: nat, first: nat, limit: nat)
      returns (queued: seq<Datagram>, endless: bool, past: bool)
      requires len <= |mem|
      ensures var w := WalkNdps(mem, len, first, limit);
              queued == w.grams && endless == w.Running? && past == w.RanPast?
    {
      var ndpoffset, left, going := first, limit, true;
      queued, past := [], false;
      ghost var whole := WalkNdps(mem, len, first, limit);
      ghost var togo := whole;
      while going && ndpoffset > 0 && left > 0
        invariant whole == After(queued, togo)
        invariant if going then togo == WalkNdps(mem, len, ndpoffset, left) && !past
                  else togo == if past then RanPast([]) else Stopped([])
        decreases going, left
      {
        var rest := left - 1;
        queued, ndpoffset, going, past, togo := WalkOne(mem, len, ndpoffset, left, rest, queued, whole);
        left := rest;
      }
      endless := going && ndpoffset > 0;
    }

    /** One turn of the NDP loop. */
    method WalkOne(mem: seq<Byte>, len: nat, at: nat, ghost left: nat, ghost rest: nat, before: seq<Datagram>,
                   ghost whole: Walk)
      returns (queued: seq<Datagram>, next: nat, going: bool, past: bool, ghost togo: Walk)
      requires len <= |mem| && at > 0 && left == rest + 1
      requires whole == After(before, WalkNdps(mem, len, at, left))
      ensures whole == After(queued, togo)
      ensures if going then togo == WalkNdps(mem, len, next, rest) && !past
              else togo == if past then RanPast([]) else Stopped([])
    {
      var r := ReadOneNdp(mem, len, at);
      queued, next, going, past, togo := before + r.grams, 0, false, false, Stopped([]);
      match r
      case Bad(_) =>
      case Past(_) => past, togo := true, RanPast([]);
      case Good(_, n) =>
        next, going, togo := n, true, WalkNdps(mem, len, n, rest);
        WalkStep(mem, len, at, left, rest, r.grams, next);
      AfterAfter(before, r.grams, togo);
    }
  }

  lemma BlockPieces(seqNo: nat, tci: nat, payload: seq<Byte>, nth16: seq<Byte>, ndp16: seq<Byte>, dpe16: seq<Byte>)
    requires seqNo < 0x10000 && tci < 512
    requires nth16 == NTH16_SIGN + Le16(NTH16_SIZE) + Le16(seqNo) + Le16(U16(HDR_SIZE + |payload|)) + Le16(NTH16_SIZE)
    requires ndp16 == Sign(tci) + Le16(NDP16_SIZE + 2 * DPE16_SIZE) + Le16(0)
    requires dpe16 == Le16(HDR_SIZE) + Le16(U16(|payload|)) + Le16(0) + Le16(0)
    ensures nth16 + ndp16 + dpe16 + payload == TxBlock(seqNo, tci, payload)
  {
  }
}
