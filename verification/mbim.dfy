/**
 MBIM framing: NTB16 blocks of sections 3.2.1 and 3.3.1 of USB CDC NCM 1.0 with the IPS and DSS
 signatures of section 7 of USB CDC MBIM 1.0, as the MHI network driver sends and receives them.
*/
module Mbim {
  import opened Bytes
  import opened Ethernet

  const NTH16_SIZE: nat := 12
  const NDP16_SIZE: nat := 8
  const DPE16_SIZE: nat := 4
  const HDR_SIZE: nat := 28       // struct cdc_mbim_hdr: NTH16, NDP16, two DPE16
  const RX_MAX: nat := 31 * 1024

  const NTH16_SIGN: seq<Byte> := [0x4e, 0x43, 0x4d, 0x48]  // "NCMH"
  const IPS_SIGN: seq<Byte> := [0x49, 0x50, 0x53]          // "IPS", then the session
  const DSS_SIGN: seq<Byte> := [0x44, 0x53, 0x53]          // "DSS", then the session less 256

  /** A delivered packet and its VLAN tag, 0 for none. */
  datatype Datagram = Datagram(tci: nat, payload: seq<Byte>)

  // ---- Receiving: what one block means to the driver ----

  // A block is the first `len` bytes of `mem`. The driver does not check that a descriptor table ends
  // inside the block, so reading may go on in the bytes after it, and past them.

  /** How reading a table ends: by its entries, at an entry the driver refuses, or past the end of memory. */
  datatype End = Fine | Refused | Outside

  /** Datagrams taken from a descriptor table, and how it ended. */
  datatype Table = Table(grams: seq<Datagram>, end: End)

  /** The inner loop of `cdc_mbim_rx_fixup`: at most n descriptors from `pos` on. */
  function ReadTable(mem: seq<Byte>, len: nat, pos: nat, n: nat, tci: nat): (t: Table)
    requires len <= |mem|
    decreases n
  {
    if n == 0 then Table([], Fine)
    else if pos + DPE16_SIZE > |mem| then Table([], Outside)
    else
      var offset, size := Le16At(mem, pos), Le16At(mem, pos + 2);
      if offset == 0 || size == 0 then Table([], Fine)
      else if offset + size > len || size > RX_MAX || !IpNibble(mem[offset]) then Table([], Refused)
      else
        var rest := ReadTable(mem, len, pos + DPE16_SIZE, n - 1, tci);
        Table([Datagram(tci, mem[offset..offset + size])] + rest.grams, rest.end)
  }

  /**
   One entry of a descriptor table, in its bytes: a zero field ends the table; a datagram inside the block, of at
   most 31744 bytes, that starts with 0x40 to 0x4f or 0x60 to 0x6f is taken; any other ends the whole block.
  */
  lemma EntryFollows(mem: seq<Byte>, len: nat, pos: nat, n: nat, tci: nat, offset: nat, size: nat)
    requires len <= |mem| && n > 0 && pos + 4 <= |mem|
    requires offset == (mem[pos] as int) + 256 * (mem[pos + 1] as int)
    requires size == (mem[pos + 2] as int) + 256 * (mem[pos + 3] as int)
    ensures ReadTable(mem, len, pos, n, tci) ==
            if offset == 0 || size == 0 then Table([], Fine)
            else if offset + size <= len && size <= 31744
                    && (0x40 <= mem[offset] <= 0x4f || 0x60 <= mem[offset] <= 0x6f) then
              Behind([Datagram(tci, mem[offset..offset + size])], ReadTable(mem, len, pos + 4, n - 1, tci))
            else Table([], Refused)
  {
  }

  /** The session a signature stands for, if it is one the driver knows. */
  datatype Session = Unknown | Tci(tci: nat)

  function SessionOf(sign: seq<Byte>): (s: Session)
    requires |sign| == 4
  {
    if sign[..3] == IPS_SIGN then Tci(sign[3] as int)
    else if sign[..3] == DSS_SIGN then Tci(sign[3] as int + 256)
    else Unknown
  }

  /** One NDP: its datagrams, and the offset of the next NDP, or an error, or a table that leaves memory. */
  datatype Ndp = Good(grams: seq<Datagram>, next: nat) | Bad(grams: seq<Datagram>) | Past(grams: seq<Datagram>)

  /** The driver's count of the descriptors of an NDP. */
  function Nframes(mem: seq<Byte>, at: nat): (n: nat)
    requires at + NDP16_SIZE <= |mem| && Le16At(mem, at + 4) >= 0x10
    ensures n > 0
  {
    (Le16At(mem, at + 4) - NDP16_SIZE) / DPE16_SIZE
  }

  /** The checks made before the descriptor table is read; the last one leaves out the NDP's own offset. */
  predicate HeadAccepted(mem: seq<Byte>, len: nat, at: nat)
    requires len <= |mem|
  {
    && at + NDP16_SIZE <= len
    && Le16At(mem, at + 4) >= 0x10
    && NDP16_SIZE + Nframes(mem, at) * DPE16_SIZE <= len
    && SessionOf(mem[at..at + 4]).Tci?
  }

  /** Which NDPs are read on, in their bytes. */
  lemma HeadMeans(mem: seq<Byte>, len: nat, at: nat, wLength: nat)
    requires at + 8 <= len <= |mem| && wLength == (mem[at + 4] as int) + 256 * (mem[at + 5] as int)
    ensures HeadAccepted(mem, len, at) <==>
            && wLength >= 16 && 8 + (wLength - 8) / 4 * 4 <= len
            && ((mem[at] == 0x49 && mem[at + 1] == 0x50 && mem[at + 2] == 0x53)
                || (mem[at] == 0x44 && mem[at + 1] == 0x53 && mem[at + 2] == 0x53))
  {
    SignBytes(mem[at..at + 4]);
  }

  function ReadNdp(mem: seq<Byte>, len: nat, at: nat): (r: Ndp)
    requires len <= |mem|
    ensures r.Good? ==> r.next < 0x10000
  {
    if !HeadAccepted(mem, len, at) then Bad([])
    else
      var t := ReadTable(mem, len, at + NDP16_SIZE, Nframes(mem, at), SessionOf(mem[at..at + 4]).tci);
      match t.end
      case Fine => Good(t.grams, Le16At(mem, at + 6))
      case Refused => Bad(t.grams)
      case Outside => Past(t.grams)
  }

  /** The outer loop, given up after `turns` NDPs. */
  datatype Walk = Stopped(grams: seq<Datagram>) | Running(grams: seq<Datagram>, at: nat) | RanPast(grams: seq<Datagram>)

  function WalkNdps(mem: seq<Byte>, len: nat, at: nat, turns: nat): (w: Walk)
    requires len <= |mem|
    decreases turns
  {
    if at == 0 then Stopped([])
    else if turns == 0 then Running([], at)
    else
      match ReadNdp(mem, len, at)
      case Bad(grams) => Stopped(grams)
      case Past(grams) => RanPast(grams)
      case Good(grams, next) => After(grams, WalkNdps(mem, len, next, turns - 1))
  }

  /** A walk whose datagrams come after those already read. */
  function After(grams: seq<Datagram>, w: Walk): (r: Walk) {
    match w
    case Stopped(more) => Stopped(grams + more)
    case Running(more, at) => Running(grams + more, at)
    case RanPast(more) => RanPast(grams + more)
  }

  /** Enough turns for any chain of NDPs that ends: their 16-bit offsets are then all different. */
  const TURNS: nat := 0x10000

  // ---- Whatever the block says, only byte ranges inside it that start an IP packet are delivered ----

  ghost predicate Inside(mem: seq<Byte>, len: nat, g: Datagram) {
    && len <= |mem| && 0 < |g.payload| <= RX_MAX && StartsIp(g.payload[0])
    && exists lo, hi :: 0 < lo < hi <= len && g.payload == mem[lo..hi]
  }

  lemma InsideRange(mem: seq<Byte>, len: nat, lo: nat, hi: nat, tci: nat)
    requires 0 < lo < hi <= len <= |mem| && hi - lo <= RX_MAX && StartsIp(mem[lo])
    ensures Inside(mem, len, Datagram(tci, mem[lo..hi]))
  {
  }

  lemma {:induction false} TableInside(mem: seq<Byte>, len: nat, pos: nat, n: nat, tci: nat)
    requires len <= |mem|
    ensures forall g :: g in ReadTable(mem, len, pos, n, tci).grams ==> Inside(mem, len, g) && g.tci == tci
    decreases n
  {
    if n > 0 && pos + DPE16_SIZE <= |mem| {
      var offset, size := Le16At(mem, pos), Le16At(mem, pos + 2);
      if offset > 0 && size > 0 && offset + size <= len {
        TableInside(mem, len, pos + DPE16_SIZE, n - 1, tci);
        if size <= RX_MAX && StartsIp(mem[offset]) {
          InsideRange(mem, len, offset, offset + size, tci);
        }
      }
    }
  }

  lemma {:induction false} DeliveredInside(mem: seq<Byte>, len: nat, at: nat, turns: nat)
    requires len <= |mem|
    ensures forall g :: g in WalkNdps(mem, len, at, turns).grams ==> Inside(mem, len, g) && g.tci < 512
    decreases turns
  {
    if at > 0 && turns > 0 {
      NdpInside(mem, len, at);
      var r := ReadNdp(mem, len, at);
      if r.Good? {
        DeliveredInside(mem, len, r.next, turns - 1);
      }
    }
  }

  lemma NdpInside(mem: seq<Byte>, len: nat, at: nat)
    requires len <= |mem|
    ensures forall g :: g in ReadNdp(mem, len, at).grams ==> Inside(mem, len, g) && g.tci < 512
  {
    if HeadAccepted(mem, len, at) {
      TableInside(mem, len, at + NDP16_SIZE, Nframes(mem, at), SessionOf(mem[at..at + 4]).tci);
    }
  }

  // ---- Well-formed blocks ----

  /** An NDP as a sender lays it out: its place, its session, and index and length of each datagram. */
  datatype NdpDesc = NdpDesc(at: nat, session: nat, grams: seq<(nat, nat)>)

  function Sign(session: nat): (s: seq<Byte>)
    requires session < 512
    ensures |s| == 4 && SessionOf(s) == Tci(session)
  {
    var s := if session < 256 then IPS_SIGN + [session] else DSS_SIGN + [session - 256];
    assert s[..3] == if session < 256 then IPS_SIGN else DSS_SIGN;
    s
  }

  /** The descriptor at `pos` holds this index and length. */
  ghost predicate DpeAt(mem: seq<Byte>, pos: nat, gram: (nat, nat)) {
    pos + DPE16_SIZE <= |mem| && Le16At(mem, pos) == gram.0 && Le16At(mem, pos + 2) == gram.1
  }

  /** A non-empty IP packet inside the block and within the receive limit. */
  ghost predicate GramOk(mem: seq<Byte>, len: nat, gram: (nat, nat)) {
    0 < gram.0 && 0 < gram.1 <= RX_MAX && gram.0 + gram.1 <= len <= |mem| && StartsIp(mem[gram.0])
  }

  ghost predicate GramsOk(mem: seq<Byte>, len: nat, grams: seq<(nat, nat)>) {
    forall g :: g in grams ==> GramOk(mem, len, g)
  }

  /** Descriptors from `pos` on, one for each datagram. */
  ghost predicate EntriesAt(mem: seq<Byte>, pos: nat, grams: seq<(nat, nat)>)
    decreases |grams|
  {
    grams != [] ==> DpeAt(mem, pos, grams[0]) && EntriesAt(mem, pos + DPE16_SIZE, grams[1..])
  }

  /** An entry that makes the driver give up the block: out of range, too long, or not IP. */
  ghost predicate BadEntryAt(mem: seq<Byte>, len: nat, pos: nat) {
    && pos + DPE16_SIZE <= |mem| && len <= |mem|
    && var offset, size := Le16At(mem, pos), Le16At(mem, pos + 2);
       offset > 0 && size > 0 && !GramOk(mem, len, (offset, size))
  }

  /** The header of an NDP the driver reads on, with room for `nframes` descriptors by the driver's count. */
  ghost predicate NdpHead(mem: seq<Byte>, len: nat, d: NdpDesc, nframes: nat) {
    && d.session < 512 && 0 < d.at && d.at + NDP16_SIZE <= len <= |mem|
    && mem[d.at..d.at + 4] == Sign(d.session)
    && Le16At(mem, d.at + 4) >= 16 && nframes == (Le16At(mem, d.at + 4) - 8) / 4 && 8 + 4 * nframes <= len
    && GramsOk(mem, len, d.grams) && EntriesAt(mem, d.at + NDP16_SIZE, d.grams)
  }

  lemma HeadIsAccepted(mem: seq<Byte>, len: nat, d: NdpDesc, nframes: nat)
    requires len <= |mem| && NdpHead(mem, len, d, nframes)
    ensures HeadAccepted(mem, len, d.at) && Nframes(mem, d.at) == nframes
    ensures SessionOf(mem[d.at..d.at + 4]) == Tci(d.session)
  {
  }

  /** Signatures in their bytes: "IPS" for the sessions up to 255, "DSS" for those from 256 on, and no other. */
  lemma SignBytes(s: seq<Byte>)
    requires |s| == 4
    ensures SessionOf(s) == if s[0] == 0x49 && s[1] == 0x50 && s[2] == 0x53 then Tci(s[3] as int)
                            else if s[0] == 0x44 && s[1] == 0x53 && s[2] == 0x53 then Tci(s[3] as int + 256)
                            else Unknown
    ensures forall session | 0 <= session < 512 && SessionOf(s) == Tci(session) :: Sign(session) == s
  {
    assert s[..3] == [s[0], s[1], s[2]];
    assert s == s[..3] + [s[3]];
  }

  /** Section 3.3.1 of NCM 1.0: at least one datagram, then a zero entry; `next` is the offset of the next NDP or 0. */
  ghost predicate NdpAt(mem: seq<Byte>, len: nat, d: NdpDesc, next: nat) {
    var wLength := NDP16_SIZE + DPE16_SIZE * (|d.grams| + 1);
    && |d.grams| > 0 && d.at + wLength <= len
    && NdpHead(mem, len, d, |d.grams| + 1)
    && Le16At(mem, d.at + 4) == wLength && Le16At(mem, d.at + 6) == next
    && DpeAt(mem, d.at + NDP16_SIZE + DPE16_SIZE * |d.grams|, (0, 0))
  }

  /** NDPs each of which names the next, the last one `end`. */
  ghost predicate NdpsLinked(mem: seq<Byte>, len: nat, ds: seq<NdpDesc>, end: nat)
    decreases |ds|
  {
    |ds| > 0 ==> NdpAt(mem, len, ds[0], First(ds[1..], end)) && NdpsLinked(mem, len, ds[1..], end)
  }

  ghost function First(ds: seq<NdpDesc>, end: nat): (at: nat) {
    if ds == [] then end else ds[0].at
  }

  ghost predicate Increasing(ds: seq<NdpDesc>) {
    forall i, j :: 0 <= i < j < |ds| ==> ds[i].at < ds[j].at
  }

  /** Section 3.2.1 of NCM 1.0, for a block of `len` bytes: a chain of NDPs at increasing offsets. */
  ghost predicate IsNtb16(mem: seq<Byte>, len: nat, seqNo: nat, ds: seq<NdpDesc>) {
    && NTH16_SIZE + NDP16_SIZE <= len <= RX_MAX && len <= |mem| && |ds| > 0
    && mem[..4] == NTH16_SIGN
    && Le16At(mem, 4) == NTH16_SIZE
    && Le16At(mem, 6) == seqNo
    && Le16At(mem, 8) == len
    && Le16At(mem, 10) == ds[0].at
    && Increasing(ds) && NdpsLinked(mem, len, ds, 0)
  }

  /** The datagrams a list of indices and lengths names, with their tag. */
  ghost function GramsOf(mem: seq<Byte>, len: nat, grams: seq<(nat, nat)>, tci: nat): (r: seq<Datagram>)
    requires GramsOk(mem, len, grams)
    decreases |grams|
  {
    if grams == [] then []
    else
      assert grams[0] in grams;
      [Datagram(tci, mem[grams[0].0..grams[0].0 + grams[0].1])] + GramsOf(mem, len, grams[1..], tci)
  }

  /** All datagrams of linked NDPs, in order. */
  ghost function NdpsGrams(mem: seq<Byte>, len: nat, ds: seq<NdpDesc>, end: nat): (r: seq<Datagram>)
    requires NdpsLinked(mem, len, ds, end)
    decreases |ds|
  {
    if ds == [] then [] else GramsOf(mem, len, ds[0].grams, ds[0].session) + NdpsGrams(mem, len, ds[1..], end)
  }

  // ---- Reading them ----

  /** A table whose datagrams come after others. */
  ghost function Behind(grams: seq<Datagram>, t: Table): (r: Table) {
    Table(grams + t.grams, t.end)
  }

  lemma BehindBehind(a: seq<Datagram>, b: seq<Datagram>, t: Table)
    ensures Behind(a + b, t) == Behind(a, Behind(b, t))
  {
    assert (a + b) + t.grams == a + (b + t.grams);
  }

  lemma EntryDecodes(mem: seq<Byte>, len: nat, pos: nat, next: nat, gram: (nat, nat), n: nat, less: nat, tci: nat)
    requires len <= |mem| && n == less + 1 && next == pos + DPE16_SIZE
    requires DpeAt(mem, pos, gram) && GramOk(mem, len, gram)
    ensures ReadTable(mem, len, pos, n, tci) ==
            Behind([Datagram(tci, mem[gram.0..gram.0 + gram.1])], ReadTable(mem, len, next, less, tci))
  {
  }

  /** Good entries are delivered, whatever follows them. */
  lemma {:induction false} EntriesDecode(mem: seq<Byte>, len: nat, pos: nat, grams: seq<(nat, nat)>, n: nat, tci: nat,
                                         end: nat, rest: nat)
    requires len <= |mem| && n == |grams| + rest && end == pos + DPE16_SIZE * |grams|
    requires GramsOk(mem, len, grams) && EntriesAt(mem, pos, grams)
    ensures ReadTable(mem, len, pos, n, tci) ==
            Behind(GramsOf(mem, len, grams, tci), ReadTable(mem, len, end, rest, tci))
    decreases |grams|
  {
    var last := ReadTable(mem, len, end, rest, tci);
    if grams == [] {
      BehindNothing(last);
    } else {
      var next, less, gram, later := pos + DPE16_SIZE, n - 1, grams[0], grams[1..];
      GramsStep(mem, len, grams, gram, later, tci);
      EntryDecodes(mem, len, pos, next, gram, n, less, tci);
      EntriesDecode(mem, len, next, later, less, tci, end, rest);
      BehindBehind([Datagram(tci, mem[gram.0..gram.0 + gram.1])], GramsOf(mem, len, later, tci), last);
    }
  }

  lemma BehindNothing(t: Table)
    ensures Behind([], t) == t
  {
  }

  lemma GramsStep(mem: seq<Byte>, len: nat, grams: seq<(nat, nat)>, gram: (nat, nat), later: seq<(nat, nat)>, tci: nat)
    requires GramsOk(mem, len, grams) && grams != [] && gram == grams[0] && later == grams[1..]
    ensures GramOk(mem, len, gram) && GramsOk(mem, len, later)
    ensures GramsOf(mem, len, grams, tci) ==
            [Datagram(tci, mem[gram.0..gram.0 + gram.1])] + GramsOf(mem, len, later, tci)
  {
    assert gram in grams;
  }

  /** How an NDP reads: its entries up to a zero entry, or up to a bad one. */
  lemma NdpReads(mem: seq<Byte>, len: nat, d: NdpDesc, nframes: nat, end: nat)
    requires len <= |mem| && NdpHead(mem, len, d, nframes) && nframes > |d.grams|
    requires end == d.at + NDP16_SIZE + DPE16_SIZE * |d.grams|
    ensures DpeAt(mem, end, (0, 0)) ==>
              ReadNdp(mem, len, d.at) == Good(GramsOf(mem, len, d.grams, d.session), Le16At(mem, d.at + 6))
    ensures BadEntryAt(mem, len, end) ==> ReadNdp(mem, len, d.at) == Bad(GramsOf(mem, len, d.grams, d.session))
  {
    HeadIsAccepted(mem, len, d, nframes);
    EntriesDecode(mem, len, d.at + NDP16_SIZE, d.grams, nframes, d.session, end, nframes - |d.grams|);
  }

  lemma WalkStep(mem: seq<Byte>, len: nat, at: nat, turns: nat, rest: nat, grams: seq<Datagram>, next: nat)
    requires len <= |mem| && at > 0 && turns == rest + 1 && ReadNdp(mem, len, at) == Good(grams, next)
    ensures WalkNdps(mem, len, at, turns) == After(grams, WalkNdps(mem, len, next, rest))
  {
  }

  lemma AfterAfter(a: seq<Datagram>, b: seq<Datagram>, w: Walk)
    ensures After(a + b, w) == After(a, After(b, w))
  {
    assert (a + b) + w.grams == a + (b + w.grams);
  }

  /** Linked well-formed NDPs deliver all their datagrams, whatever the last one leads to. */
  lemma {:induction false} LinkedDecodes(mem: seq<Byte>, len: nat, ds: seq<NdpDesc>, end: nat, turns: nat, rest: nat)
    requires len <= |mem| && NdpsLinked(mem, len, ds, end) && turns == |ds| + rest
    ensures WalkNdps(mem, len, First(ds, end), turns) ==
            After(NdpsGrams(mem, len, ds, end), WalkNdps(mem, len, end, rest))
    decreases |ds|
  {
    if ds != [] {
      var d, next, less := ds[0], First(ds[1..], end), turns - 1;
      var grams := GramsOf(mem, len, d.grams, d.session);
      NdpReads(mem, len, d, |d.grams| + 1, d.at + NDP16_SIZE + DPE16_SIZE * |d.grams|);
      LinkedDecodes(mem, len, ds[1..], end, less, rest);
      WalkStep(mem, len, d.at, turns, less, grams, next);
      AfterAfter(grams, NdpsGrams(mem, len, ds[1..], end), WalkNdps(mem, len, end, rest));
    }
  }

  /** Increasing offsets below the block length bound the number of NDPs. */
  lemma {:induction false} ChainIsShort(mem: seq<Byte>, len: nat, ds: seq<NdpDesc>, end: nat)
    requires NdpsLinked(mem, len, ds, end) && Increasing(ds) && |ds| > 0
    ensures |ds| + ds[0].at <= len
    decreases |ds|
  {
    if |ds| > 1 {
      ChainIsShort(mem, len, ds[1..], end);
    }
  }

  /**
   Any block built per NCM 1.0, with any number of NDPs at increasing offsets and any number of
   datagrams each, is decoded to exactly its datagrams, in order, with their session tags.
  */
  lemma NtbDecodes(mem: seq<Byte>, len: nat, seqNo: nat, ds: seq<NdpDesc>)
    requires len <= |mem| && IsNtb16(mem, len, seqNo, ds)
    ensures WalkNdps(mem, len, Le16At(mem, 10), TURNS) == Stopped(NdpsGrams(mem, len, ds, 0))
  {
    ChainIsShort(mem, len, ds, 0);
    LinkedDecodes(mem, len, ds, 0, TURNS, TURNS - |ds|);
  }

  /**
   What comes before the first bad entry is still delivered: the datagrams of the NDPs before, and
   those of the entries before it in its own NDP, which `last` lists; and nothing after it.
  */
  lemma BadEntryKeepsEarlier(mem: seq<Byte>, len: nat, ds: seq<NdpDesc>, last: NdpDesc, nframes: nat, turns: nat)
    requires len <= |mem| && NdpsLinked(mem, len, ds, last.at) && turns > |ds|
    requires NdpHead(mem, len, last, nframes) && nframes > |last.grams|
    requires BadEntryAt(mem, len, last.at + NDP16_SIZE + DPE16_SIZE * |last.grams|)
    ensures WalkNdps(mem, len, First(ds, last.at), turns) ==
            Stopped(NdpsGrams(mem, len, ds, last.at) + GramsOf(mem, len, last.grams, last.session))
  {
    LinkedDecodes(mem, len, ds, last.at, turns, turns - |ds|);
    NdpReads(mem, len, last, nframes, last.at + NDP16_SIZE + DPE16_SIZE * |last.grams|);
  }
}
