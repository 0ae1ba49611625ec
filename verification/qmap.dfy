/** QMAP framing, as the MHI network driver sends and receives it: aggregated frames with optional V5 headers. */
module Qmap {
  import opened Bytes
  import opened Ethernet

  const DEFAULT_MUX_ID: nat := 0x81
  const HDR: nat := 4             // struct qmap_hdr, and struct qmap_v5_csum_hdr

  /** The VLAN tag a delivered packet carries, or that the link-layer header of a sent one named. */
  datatype Tag = Untagged | Vlan(id: nat)
  datatype Datagram = Datagram(tag: Tag, payload: seq<Byte>)

  function TagOfMux(mux: nat): (t: Tag) {
    if mux == DEFAULT_MUX_ID then Untagged else Vlan(mux)
  }

  // ---- Receiving ----

  /** The fields of a frame header. `body` is where the frame's packet starts. */
  datatype Header = Header(padLen: nat, nextHdr: bool, command: bool, mux: nat, pktLen: nat)

  function HeaderAt(mem: seq<Byte>, pos: nat): (h: Header)
    requires pos + HDR <= |mem|
    ensures h.padLen < 64 && h.mux < 256 && h.pktLen < 0x10000
  {
    var b := mem[pos] as int;
    Header(b % 64, b / 64 % 2 == 1, b / 128 == 1, mem[pos + 1] as int, Be16At(mem, pos + 2))
  }

  function HdrSize(h: Header): (n: nat)
    ensures n == HDR || n == 2 * HDR
  {
    if h.nextHdr then 2 * HDR else HDR
  }

  // A block is the first `len` bytes of `mem`.

  /**
   How the loop over a block ends: nothing is left but a remainder of at most 4 bytes; a frame is
   refused, and with it the rest of the block; the padding of a packet that starts like IP exceeds its
   length, so that the 32-bit length of the copy wraps; or the first byte of an empty packet is looked
   at where there is no memory.
  */
  datatype End = Drained | Refused | Wrapped | Outside

  datatype Rx = Rx(grams: seq<Datagram>, end: End)

  /** What one turn of the loop makes of the frame at `pos`; `size` is the length of the whole frame. */
  datatype Turn = Stop(end: End) | Skip(size: nat) | Deliver(gram: Datagram, size: nat)

  function TurnAt(mem: seq<Byte>, pos: nat, len: nat): (t: Turn)
    requires pos + HDR < len <= |mem|
    ensures !t.Stop? ==> HDR <= t.size <= len - pos
  {
    var h := HeaderAt(mem, pos);
    var start := pos + HdrSize(h);
    if len < start + h.pktLen then Stop(Refused)
    else if h.command then Skip(h.pktLen + HdrSize(h))
    else if start >= |mem| then Stop(Outside)
    else if !IpNibble(mem[start]) then Stop(Refused)
    else if h.padLen > h.pktLen then Stop(Wrapped)
    else Deliver(Datagram(TagOfMux(h.mux), mem[start..start + (h.pktLen - h.padLen)]), h.pktLen + HdrSize(h))
  }

  /**
   One turn, in the bytes of the frame: b holds the padding in its lower six bits, then the flag of a second
   header, then that of a command. A packet inside the block that starts with 0x40 to 0x4f or 0x60 to 0x6f is
   delivered without its padding; any other ends the block.
  */
  lemma TurnFollows(mem: seq<Byte>, pos: nat, len: nat, b: nat, start: nat, size: nat)
    requires pos + 4 < len <= |mem| && b == mem[pos] as int
    requires start == pos + (if b / 64 % 2 == 1 then 8 else 4)
    requires size == 256 * (mem[pos + 2] as int) + (mem[pos + 3] as int)
    ensures TurnAt(mem, pos, len) ==
            if start + size > len then Stop(Refused)
            else if b >= 128 then Skip(start - pos + size)
            else if start >= |mem| then Stop(Outside)
            else if !(0x40 <= mem[start] <= 0x4f || 0x60 <= mem[start] <= 0x6f) then Stop(Refused)
            else if b % 64 > size then Stop(Wrapped)
            else Deliver(Datagram(if mem[pos + 1] == 0x81 then Untagged else Vlan(mem[pos + 1] as int),
                             mem[start..start + (size - b % 64)]), start - pos + size)
  {
  }

  /** `qmi_wwan_rx_fixup` on the bytes from `pos` to `len`. */
  function Decode(mem: seq<Byte>, pos: nat, len: nat): (r: Rx)
    requires pos <= len <= |mem|
    decreases len - pos
  {
    if len - pos <= HDR then Rx([], Drained)
    else
      match TurnAt(mem, pos, len)
      case Stop(end) => Rx([], end)
      case Skip(size) => Decode(mem, pos + size, len)
      case Deliver(gram, size) => After([gram], Decode(mem, pos + size, len))
  }

  function After(grams: seq<Datagram>, rest: Rx): (r: Rx) {
    Rx(grams + rest.grams, rest.end)
  }

  lemma AfterAfter(a: seq<Datagram>, b: seq<Datagram>, rest: Rx)
    ensures After(a + b, rest) == After(a, After(b, rest))
  {
    assert (a + b) + rest.grams == a + (b + rest.grams);
  }

  /** Whatever the block holds, a delivered packet is a range of its bytes that starts like IP, of 16-bit length. */
  ghost predicate Inside(mem: seq<Byte>, len: nat, g: Datagram) {
    && len <= |mem| && |g.payload| < 0x10000 && (g.payload != [] ==> StartsIp(g.payload[0]))
    && exists lo, hi :: HDR <= lo <= hi <= len && g.payload == mem[lo..hi]
  }

  lemma TurnInside(mem: seq<Byte>, pos: nat, len: nat)
    requires pos + HDR < len <= |mem|
    ensures TurnAt(mem, pos, len).Deliver? ==> Inside(mem, len, TurnAt(mem, pos, len).gram)
  {
    var h := HeaderAt(mem, pos);
    var lo := pos + HdrSize(h);
    if TurnAt(mem, pos, len).Deliver? {
      var hi := lo + (h.pktLen - h.padLen);
      assert HDR <= lo <= hi <= len;
      assert TurnAt(mem, pos, len).gram.payload == mem[lo..hi];
    }
  }

  lemma {:induction false} DeliveredInside(mem: seq<Byte>, pos: nat, len: nat)
    requires pos <= len <= |mem|
    ensures forall g :: g in Decode(mem, pos, len).grams ==> Inside(mem, len, g)
    decreases len - pos
  {
    if len - pos > HDR {
      TurnInside(mem, pos, len);
      match TurnAt(mem, pos, len)
      case Stop(_) =>
      case Skip(size) => DeliveredInside(mem, pos + size, len);
      case Deliver(_, size) => DeliveredInside(mem, pos + size, len);
    }
  }

  // ---- How a block ends ----

  /** Where the loop stops looking: the places of the frames it comes to, in order. */
  function Visited(mem: seq<Byte>, pos: nat, len: nat): (ps: seq<nat>)
    requires pos <= len <= |mem|
    ensures forall p :: p in ps ==> p + HDR < len
    decreases len - pos
  {
    if len - pos <= HDR then []
    else
      match TurnAt(mem, pos, len)
      case Stop(_) => [pos]
      case Skip(size) => [pos] + Visited(mem, pos + size, len)
      case Deliver(_, size) => [pos] + Visited(mem, pos + size, len)
  }

  /** The frame at p is a data frame that fits the block. */
  predicate DataFrame(mem: seq<Byte>, p: nat, len: nat)
    requires p + HDR < len <= |mem|
  {
    var h := HeaderAt(mem, p);
    !h.command && p + HdrSize(h) + h.pktLen <= len
  }

  /** Its packet starts like IP and its padding is longer than the packet. */
  predicate PaddingExceeds(mem: seq<Byte>, p: nat, len: nat)
    requires p + HDR < len <= |mem|
  {
    var h := HeaderAt(mem, p);
    DataFrame(mem, p, len) && h.padLen > h.pktLen && p + HdrSize(h) < |mem| && StartsIp(mem[p + HdrSize(h)])
  }

  /** Its packet is empty and ends all memory. */
  predicate EmptyAtTheEnd(mem: seq<Byte>, p: nat, len: nat)
    requires p + HDR < len <= |mem|
  {
    var h := HeaderAt(mem, p);
    DataFrame(mem, p, len) && h.pktLen == 0 && p + HdrSize(h) == |mem|
  }

  lemma TurnStops(mem: seq<Byte>, pos: nat, len: nat)
    requires pos + HDR < len <= |mem|
    ensures TurnAt(mem, pos, len) == Stop(Wrapped) <==> PaddingExceeds(mem, pos, len)
    ensures TurnAt(mem, pos, len) == Stop(Outside) <==> EmptyAtTheEnd(mem, pos, len)
  {
  }

  /** The loop comes to a data frame that starts like IP and whose padding exceeds its packet. */
  ghost predicate MeetsPadding(mem: seq<Byte>, ps: seq<nat>, len: nat) {
    exists p :: p in ps && p + HDR < len <= |mem| && PaddingExceeds(mem, p, len)
  }

  /** The loop comes to an empty packet at the end of memory. */
  ghost predicate MeetsEmpty(mem: seq<Byte>, ps: seq<nat>, len: nat) {
    exists p :: p in ps && p + HDR < len <= |mem| && EmptyAtTheEnd(mem, p, len)
  }

  lemma MeetsStep(mem: seq<Byte>, pos: nat, ps: seq<nat>, len: nat)
    requires pos + HDR < len <= |mem|
    ensures MeetsPadding(mem, [pos] + ps, len) <==> PaddingExceeds(mem, pos, len) || MeetsPadding(mem, ps, len)
    ensures MeetsEmpty(mem, [pos] + ps, len) <==> EmptyAtTheEnd(mem, pos, len) || MeetsEmpty(mem, ps, len)
  {
    assert forall p :: p in [pos] + ps <==> p == pos || p in ps;
  }

  lemma TurnGoes(mem: seq<Byte>, pos: nat, len: nat, next: nat)
    requires pos + HDR < len <= |mem| && !TurnAt(mem, pos, len).Stop? && next == pos + TurnAt(mem, pos, len).size
    ensures next <= len && Decode(mem, pos, len).end == Decode(mem, next, len).end
    ensures Visited(mem, pos, len) == [pos] + Visited(mem, next, len)
    ensures !PaddingExceeds(mem, pos, len) && !EmptyAtTheEnd(mem, pos, len)
  {
    TurnStops(mem, pos, len);
  }

  /** The length of a copy wraps, and the loop looks past memory, exactly if it comes to such a frame. */
  lemma {:induction false} EndsBadly(mem: seq<Byte>, pos: nat, len: nat)
    requires pos <= len <= |mem|
    ensures Decode(mem, pos, len).end.Wrapped? <==> MeetsPadding(mem, Visited(mem, pos, len), len)
    ensures Decode(mem, pos, len).end.Outside? <==> MeetsEmpty(mem, Visited(mem, pos, len), len)
    decreases len - pos
  {
    if len - pos > HDR {
      var t := TurnAt(mem, pos, len);
      if t.Stop? {
        TurnStops(mem, pos, len);
        MeetsStep(mem, pos, [], len);
        assert [pos] + [] == [pos];
      } else {
        var next := pos + t.size;
        TurnGoes(mem, pos, len, next);
        MeetsStep(mem, pos, Visited(mem, next, len), len);
        EndsBadly(mem, next, len);
      }
    }
  }

  /** An empty packet of padding 1 with "4" behind it: the copy's length would be all ones. */
  lemma WrappedExample()
    ensures Decode([1, 0x81, 0, 0, 0x45], 0, 5) == Rx([], Wrapped)
  {
    assert HeaderAt([1, 0x81, 0, 0, 0x45], 0) == Header(1, false, false, 0x81, 0);
  }

  /** A V5 frame of nothing but headers makes the loop look at the byte behind the block. */
  lemma OutsideExample()
    ensures Decode([64, 0x81, 0, 0, 4, 0, 0, 0], 0, 8) == Rx([], Outside)
  {
    assert HeaderAt([64, 0x81, 0, 0, 4, 0, 0, 0], 0) == Header(0, true, false, 0x81, 0);
  }

  // ---- Frames as a sender builds them ----

  /** A frame: its multiplexer id, an optional second header, its packet and padding. */
  datatype Frame = Frame(command: bool, mux: nat, ext: seq<Byte>, payload: seq<Byte>, padding: seq<Byte>)
  {
    predicate Ok() {
      && mux < 256 && (ext == [] || |ext| == HDR)
      && |padding| < 64 && |payload| + |padding| < 0x10000
      && (!command ==> payload != [] && StartsIp(payload[0]))
    }

    function Flags(): (b: Byte)
      requires Ok()
    {
      |padding| + (if ext == [] then 0 else 64) + (if command then 128 else 0)
    }

    function Wire(): (w: seq<Byte>)
      requires Ok()
      ensures |w| == HDR + |ext| + |payload| + |padding|
    {
      [Flags(), mux] + Be16(|payload| + |padding|) + ext + payload + padding
    }

    /** What the frame delivers: nothing for a command, else its packet without the padding. */
    function Delivered(): (grams: seq<Datagram>) {
      if command then [] else [Datagram(TagOfMux(mux), payload)]
    }
  }

  predicate AllOk(fs: seq<Frame>) {
    forall f :: f in fs ==> f.Ok()
  }

  function Wires(fs: seq<Frame>): (w: seq<Byte>)
    requires AllOk(fs)
  {
    if fs == [] then [] else fs[0].Wire() + Wires(fs[1..])
  }

  function DataOf(fs: seq<Frame>): (grams: seq<Datagram>) {
    if fs == [] then [] else fs[0].Delivered() + DataOf(fs[1..])
  }

  /** The bytes of `w` lie in memory at `pos`. */
  ghost predicate At(mem: seq<Byte>, pos: nat, w: seq<Byte>) {
    pos + |w| <= |mem| && mem[pos..pos + |w|] == w
  }

  lemma AtSplit(mem: seq<Byte>, pos: nat, a: seq<Byte>, b: seq<Byte>, mid: nat)
    requires At(mem, pos, a + b) && mid == pos + |a|
    ensures At(mem, pos, a) && At(mem, mid, b)
  {
    var ab := a + b;
    var all := mem[pos..pos + |ab|];
    assert mem[pos..mid] == all[..|a|] == a;
    assert mem[mid..mid + |b|] == all[|a|..] == b;
  }

  lemma HeaderReads(mem: seq<Byte>, pos: nat, f: Frame)
    requires f.Ok() && At(mem, pos, f.Wire())
    ensures HeaderAt(mem, pos) == Header(|f.padding|, f.ext != [], f.command, f.mux, |f.payload| + |f.padding|)
  {
    var w := f.Wire();
    var all := mem[pos..pos + |w|];
    assert mem[pos] == all[0] && mem[pos + 1] == all[1] && mem[pos + 2] == all[2] && mem[pos + 3] == all[3];
    Le16Reads(|f.payload| + |f.padding|);
  }

  lemma PayloadLies(mem: seq<Byte>, pos: nat, f: Frame, start: nat)
    requires f.Ok() && At(mem, pos, f.Wire()) && start == pos + HDR + |f.ext|
    ensures At(mem, start, f.payload)
  {
    var head := [f.Flags(), f.mux] + Be16(|f.payload| + |f.padding|) + f.ext;
    assert f.Wire() == head + (f.payload + f.padding);
    AtSplit(mem, pos, head, f.payload + f.padding, start);
    AtSplit(mem, start, f.payload, f.padding, start + |f.payload|);
  }

  /** A frame that lies in the block and has bytes of its own after the header is taken whole. */
  lemma FrameTurn(mem: seq<Byte>, pos: nat, len: nat, f: Frame)
    requires f.Ok() && At(mem, pos, f.Wire()) && pos + |f.Wire()| <= len <= |mem| && pos + HDR < len
    ensures TurnAt(mem, pos, len) ==
            if f.command then Skip(|f.Wire()|) else Deliver(Datagram(TagOfMux(f.mux), f.payload), |f.Wire()|)
  {
    var start := pos + HDR + |f.ext|;
    HeaderReads(mem, pos, f);
    PayloadLies(mem, pos, f, start);
    if !f.command {
      assert mem[start] == mem[start..start + |f.payload|][0];
    }
  }

  lemma FrameDecodes(mem: seq<Byte>, pos: nat, next: nat, len: nat, f: Frame)
    requires f.Ok() && At(mem, pos, f.Wire()) && next == pos + |f.Wire()| && next <= len <= |mem|
    ensures Decode(mem, pos, len) == After(f.Delivered(), Decode(mem, next, len))
  {
    if pos + HDR < len {
      FrameTurn(mem, pos, len, f);
    }
  }

  /**
   Frames at the start of a block deliver exactly the packets of the data frames, unpadded, in order
   and with their tags; command frames are skipped, and whatever follows the frames is decoded as if
   it stood alone. So what comes before the first bad frame is still delivered.
  */
  lemma {:induction false} FramesDecode(mem: seq<Byte>, pos: nat, end: nat, len: nat, fs: seq<Frame>)
    requires AllOk(fs) && At(mem, pos, Wires(fs)) && end == pos + |Wires(fs)| && end <= len <= |mem|
    ensures Decode(mem, pos, len) == After(DataOf(fs), Decode(mem, end, len))
    decreases |fs|
  {
    if fs != [] {
      var next, rest := pos + |fs[0].Wire()|, fs[1..];
      AtSplit(mem, pos, fs[0].Wire(), Wires(rest), next);
      FrameDecodes(mem, pos, next, len, fs[0]);
      FramesDecode(mem, next, end, len, rest);
      AfterAfter(fs[0].Delivered(), DataOf(rest), Decode(mem, end, len));
    }
  }

  /** A block that is nothing but frames. */
  lemma BlockDecodes(fs: seq<Frame>, beyond: seq<Byte>)
    requires AllOk(fs)
    ensures Decode(Wires(fs) + beyond, 0, |Wires(fs)|) == Rx(DataOf(fs), Drained)
  {
    var mem, len := Wires(fs) + beyond, |Wires(fs)|;
    FramesDecode(mem, 0, len, len, fs);
  }
}
