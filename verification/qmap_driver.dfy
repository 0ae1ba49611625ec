/** The QMAP driver object: `qmi_wwan_tx_fixup`, `qmi_wwan_rx_fixup`, and a packet's way through both. */
module QmapDriver {
  import opened Bytes
  import opened Ethernet
  import opened Qmap

  const CSUM_HDR: seq<Byte> := [0x04, 0, 0, 0]  // header_type QMAP_HEADER_TYPE_CSUM_OFFLOAD, all else zero

  datatype Version = V1 | V5

  /** The tag of a frame to send: its 16-bit VLAN field, if it has a VLAN header the driver looks at. */
  function TagOf(skb: seq<Byte>): (t: Tag)
    ensures t.Vlan? ==> t.id < 0x10000
  {
    if Tagged(skb) then Vlan(Be16At(skb, 14)) else Untagged
  }

  /** Frames the transmit side takes: not just a link header, IP, and a tag below the default multiplexer id. */
  predicate Takes(skb: seq<Byte>) {
    && |skb| > ETH_HLEN
    && (TagOf(skb).Vlan? ==> TagOf(skb).id < DEFAULT_MUX_ID)
    && IsIpProto(Proto(skb))
  }

  function Payload(skb: seq<Byte>): (p: seq<Byte>)
    requires |skb| > ETH_HLEN
    ensures p != []
  {
    skb[LinkHeader(skb)..]
  }

  function MuxOf(t: Tag): (mux: nat)
    requires t.Vlan? ==> t.id < DEFAULT_MUX_ID
    ensures mux < 256 && TagOfMux(mux) == t
  {
    if t.Vlan? then t.id else DEFAULT_MUX_ID
  }

  /** The block sent: both versions say that a second header follows, only V5 puts one there. */
  function TxBlock(version: Version, mux: nat, payload: seq<Byte>): (b: seq<Byte>)
    requires mux < 256
  {
    [64, mux] + Be16(U16(|payload|)) + (if version.V5? then CSUM_HDR else []) + payload
  }

  /** Both blocks byte by byte. */
  lemma BlockBytes(mux: nat, payload: seq<Byte>)
    requires mux < 256 && |payload| < 0x10000
    ensures TxBlock(V1, mux, payload) == [64, mux, |payload| / 256, |payload| % 256] + payload
    ensures TxBlock(V5, mux, payload) == [64, mux, |payload| / 256, |payload| % 256, 4, 0, 0, 0] + payload
  {
  }

  /** Which frames are taken, and for which multiplexer id, in their bytes. */
  lemma TakesMeans(skb: seq<Byte>)
    ensures var link := if Tagged(skb) then 18 else 14;
            var isIp := BytesAt(skb, link - 2, 0x08, 0x00) || BytesAt(skb, link - 2, 0x86, 0xdd);
            var id := if Tagged(skb) then 256 * (skb[14] as int) + (skb[15] as int) else 0;
            && (Takes(skb) <==> |skb| > 14 && isIp && id < 0x81)
            && (Takes(skb) ==> Payload(skb) == skb[link..] && MuxOf(TagOf(skb)) == if Tagged(skb) then id else 0x81)
  {
    FrameTypes(skb);
  }

  datatype TxResult = Dropped | Sent(block: seq<Byte>)

  class QmiWwan {
    const version: Version

    /** `qmi_wwan_bind`, for one of its two channels. */
    constructor (v: Version)
      ensures version == v
    {
      version := v;
    }

    /** `qmi_wwan_tx_fixup`. */
    method TxFixup(skb: seq<Byte>) returns (r: TxResult)
      ensures r == if Takes(skb) then Sent(TxBlock(version, MuxOf(TagOf(skb)), Payload(skb))) else Dropped
    {
      var muxId, isIp, pulled := DEFAULT_MUX_ID, false, 0;
      if |skb| <= ETH_HLEN {
        return Dropped;
      }
      if |skb| > VLAN_ETH_HLEN && (Be16At(skb, 12) == ETH_P_8021Q || Be16At(skb, 12) == ETH_P_8021AD) {
        muxId := Be16At(skb, 14);
        if muxId >= DEFAULT_MUX_ID {
          return Dropped;
        }
        isIp := IsIpProto(Be16At(skb, 16));
        pulled := VLAN_ETH_HLEN;
      } else {
        isIp := IsIpProto(Be16At(skb, 12));
        pulled := ETH_HLEN;
      }
      if !isIp {
        return Dropped;
      }
      var payload := skb[pulled..];
      var qhdr := [64, muxId] + Be16(U16(|payload|));
      if version.V1? {
        r := Sent(qhdr + payload);
        assert qhdr + [] + payload == qhdr + payload;
      } else {
        r := Sent(qhdr + CSUM_HDR + payload);
      }
    }

    /**
     `qmi_wwan_rx_fixup` on a block of `len` bytes at the start of `mem`. What the driver does after an
     end other than Drained or Refused is not known.
    */
    method RxFixup(mem: seq<Byte>, len: nat) returns (delivered: seq<Datagram>, end: End)
      requires len <= |mem|
      ensures Rx(delivered, end) == Decode(mem, 0, len)
    {
      var at, going := 0, true;
      delivered, end := [], Drained;
      ghost var whole := Decode(mem, 0, len);
      ghost var togo := whole;
      while going && len - at > HDR
        invariant at <= len
        invariant whole == After(delivered, togo)
        invariant if going then togo == Decode(mem, at, len) && end == Drained else togo == Rx([], end)
        decreases going, len - at
      {
        delivered, at, going, end, togo := RxTurn(mem, at, len, delivered, whole);
      }
    }

    /** One turn of the receive loop; the rest of the block gets shorter by at least a header. */
    method RxTurn(mem: seq<Byte>, at: nat, len: nat, before: seq<Datagram>, ghost whole: Rx)
      returns (delivered: seq<Datagram>, next: nat, going: bool, end: End, ghost togo: Rx)
      requires at <= len <= |mem| && len - at > HDR
      requires whole == After(before, Decode(mem, at, len))
      ensures whole == After(delivered, togo) && next <= len
      ensures if going then togo == Decode(mem, next, len) && end == Drained && at + HDR <= next
              else togo == Rx([], end)
    {
      delivered, next, going, end, togo := before, at, false, Refused, Rx([], Refused);
      var hdrSize := HDR;
      if mem[at] as int / 64 % 2 == 1 {
        hdrSize := 2 * HDR;
      }
      var pktLen, padLen := Be16At(mem, at + 2), mem[at] as int % 64;
      var size := pktLen + hdrSize;
      if len - at < size {
        return;
      }
      if mem[at] as int / 128 != 1 {
        if at + hdrSize >= |mem| {
          end, togo := Outside, Rx([], Outside);
          return;
        }
        if !IpNibble(mem[at + hdrSize]) {
          return;
        }
        if padLen > pktLen {
          end, togo := Wrapped, Rx([], Wrapped);
          return;
        }
        var start, skbLen := at + hdrSize, pktLen - padLen;
        var mux := mem[at + 1] as int;
        var gram := Datagram(if mux != DEFAULT_MUX_ID then Vlan(mux) else Untagged, mem[start..start + skbLen]);
        delivered := before + [gram];
        AfterAfter(before, [gram], Decode(mem, at + size, len));
      }
      next, going, end := at + size, true, Drained;
      togo := Decode(mem, next, len);
    }
  }

  // ---- Transmit then receive ----

  /** A V5 block is a well-formed frame that delivers its payload with its tag. */
  lemma V5IsFrame(mux: nat, payload: seq<Byte>)
    requires mux < 256 && payload != [] && |payload| < 0x10000 && StartsIp(payload[0])
    ensures var f := Frame(false, mux, CSUM_HDR, payload, []); f.Ok() && f.Wire() == TxBlock(V5, mux, payload)
  {
    var f := Frame(false, mux, CSUM_HDR, payload, []);
    assert f.Wire() == TxBlock(V5, mux, payload) + [];
  }

  /**
   V5 transmit then receive is the identity on payload and tag exactly for packets that look like IP and fit
   16 bits.
  */
  lemma V5RoundTrip(t: Tag, payload: seq<Byte>, beyond: seq<Byte>)
    requires (t.Vlan? ==> t.id < DEFAULT_MUX_ID) && payload != []
    ensures var b := TxBlock(V5, MuxOf(t), payload);
            Decode(b + beyond, 0, |b|) == Rx([Datagram(t, payload)], Drained) <==>
              |payload| < 0x10000 && (0x40 <= payload[0] <= 0x4f || 0x60 <= payload[0] <= 0x6f)
  {
    var b := TxBlock(V5, MuxOf(t), payload);
    if |payload| < 0x10000 && StartsIp(payload[0]) {
      V5Arrives(t, payload, b, beyond);
    } else {
      var r := Decode(b + beyond, 0, |b|);
      DeliveredInside(b + beyond, 0, |b|);
      assert Datagram(t, payload) !in r.grams;
    }
  }

  lemma V5Arrives(t: Tag, payload: seq<Byte>, b: seq<Byte>, beyond: seq<Byte>)
    requires (t.Vlan? ==> t.id < DEFAULT_MUX_ID) && b == TxBlock(V5, MuxOf(t), payload)
    requires payload != [] && |payload| < 0x10000 && StartsIp(payload[0])
    ensures Decode(b + beyond, 0, |b|) == Rx([Datagram(t, payload)], Drained)
  {
    var f := Frame(false, MuxOf(t), CSUM_HDR, payload, []);
    V5IsFrame(MuxOf(t), payload);
    var fs, none: seq<Frame> := [f], [];
    assert fs[1..] == none;
    assert Wires(fs) == b + [] == b;
    assert DataOf(fs) == [Datagram(t, payload)];
    BlockDecodes(fs, beyond);
  }

  /**
   A V1 block never comes back: its header promises a second one that is not there. Up to the 16-bit
   length the receive side refuses it outright, and no longer one is ever delivered as it was sent.
  */
  lemma V1NeverReturns(t: Tag, payload: seq<Byte>, beyond: seq<Byte>)
    requires (t.Vlan? ==> t.id < DEFAULT_MUX_ID) && payload != []
    ensures var b := TxBlock(V1, MuxOf(t), payload); Datagram(t, payload) !in Decode(b + beyond, 0, |b|).grams
    ensures var b := TxBlock(V1, MuxOf(t), payload); |payload| < 0x10000 ==>
            Decode(b + beyond, 0, |b|) == Rx([], Refused)
  {
    var b := TxBlock(V1, MuxOf(t), payload);
    DeliveredInside(b + beyond, 0, |b|);
    if |payload| < 0x10000 {
      var mem := b + beyond;
      Le16Reads(|payload|);
      assert mem[0] == 64 && mem[2] == Be16(|payload|)[0] && mem[3] == Be16(|payload|)[1];
      assert TurnAt(mem, 0, |b|) == Stop(Refused);
    }
  }

  /** Without the flag the same V1 block would be a well-formed frame. */
  lemma V1WithoutFlag(mux: nat, payload: seq<Byte>)
    requires mux < 256 && payload != [] && |payload| < 0x10000 && StartsIp(payload[0])
    ensures var f := Frame(false, mux, [], payload, []); f.Ok() && f.Wire() == [0, mux] + TxBlock(V1, mux, payload)[2..]
  {
    var f := Frame(false, mux, [], payload, []);
    assert f.Wire() == [0, mux] + Be16(|payload|) + payload;
    assert TxBlock(V1, mux, payload)[2..] == Be16(|payload|) + payload;
  }
}
