/** When the receive loop of the MBIM driver stays inside its block: it does not check where a descriptor table ends. */
module MbimBounds {
  import opened Bytes
  import opened Ethernet
  import opened Mbim
  import opened MbimDriver
  import opened MbimChain
  import opened Chains

  /** A descriptor wholly inside the block that ends its table: a zero field, or an entry the driver refuses. */
  ghost predicate EntryEnds(block: seq<Byte>, pos: nat) {
    && pos + DPE16_SIZE <= |block|
    && var offset, size := Le16At(block, pos), Le16At(block, pos + 2);
       offset == 0 || size == 0 || !GramOk(block, |block|, (offset, size))
  }

  /** The k-th descriptor from `pos` on ends the table inside the block. */
  ghost predicate EndsAt(block: seq<Byte>, pos: nat, k: nat) {
    EntryEnds(block, pos + DPE16_SIZE * k)
  }

  /** All n descriptors lie inside the block, or one that does ends the table. */
  ghost predicate TableWithin(block: seq<Byte>, pos: nat, n: nat) {
    n == 0 || pos + DPE16_SIZE * n <= |block| || exists k: nat :: k < n && EndsAt(block, pos, k)
  }

  lemma WithinStep(block: seq<Byte>, pos: nat, next: nat, n: nat, rest: nat)
    requires n == rest + 1 && next == pos + DPE16_SIZE <= |block| && !EntryEnds(block, pos)
    ensures TableWithin(block, pos, n) <==> TableWithin(block, next, rest)
  {
    if k: nat :| k < n && EndsAt(block, pos, k) {
      assert k > 0 && EndsAt(block, next, k - 1);
    }
    if k: nat :| k < rest && EndsAt(block, next, k) {
      assert EndsAt(block, pos, k + 1);
    }
  }

  /** Reading a table looks only at the block exactly if the table is within it. */
  lemma {:induction false} TableStays(block: seq<Byte>, pos: nat, n: nat, tci: nat)
    ensures ReadTable(block, |block|, pos, n, tci).end != Outside <==> TableWithin(block, pos, n)
    decreases n
  {
    if n > 0 {
      var next, rest := pos + DPE16_SIZE, n - 1;
      if next <= |block| {
        if EntryEnds(block, pos) {
          assert EndsAt(block, pos, 0);
        } else {
          TableStays(block, next, rest, tci);
          WithinStep(block, pos, next, n, rest);
        }
      }
    }
  }

  /** The table of an NDP whose header the driver accepts is within the block. */
  ghost predicate NdpWithin(block: seq<Byte>, at: nat) {
    HeadAccepted(block, |block|, at) ==> TableWithin(block, at + NDP16_SIZE, Nframes(block, at))
  }

  lemma NdpStays(block: seq<Byte>, at: nat)
    ensures !ReadNdp(block, |block|, at).Past? <==> NdpWithin(block, at)
  {
    if HeadAccepted(block, |block|, at) {
      TableStays(block, at + NDP16_SIZE, Nframes(block, at), SessionOf(block[at..at + 4]).tci);
    }
  }

  /** The k-th NDP the loop comes to, if it does, is within the block. */
  ghost predicate ReachedWithin(block: seq<Byte>, first: nat, k: nat) {
    var at := Hops(Links(block, |block|), first, k);
    at > 0 ==> NdpWithin(block, at)
  }

  ghost predicate AllWithin(block: seq<Byte>, first: nat, turns: nat) {
    forall k: nat :: k < turns ==> ReachedWithin(block, first, k)
  }

  lemma AllWithinStep(block: seq<Byte>, at: nat, next: nat, turns: nat, rest: nat)
    requires turns == rest + 1 && next == Hop(block, |block|, at)
    ensures AllWithin(block, at, turns) <==> ReachedWithin(block, at, 0) && AllWithin(block, next, rest)
  {
    if AllWithin(block, at, turns) {
      forall k: nat | k < rest ensures ReachedWithin(block, next, k) {
        assert ReachedWithin(block, at, k + 1);
      }
    }
    if ReachedWithin(block, at, 0) && AllWithin(block, next, rest) {
      forall k: nat | k < turns ensures ReachedWithin(block, at, k) {
        if k > 0 {
          assert ReachedWithin(block, next, k - 1);
        }
      }
    }
  }

  lemma EndIsWithin(block: seq<Byte>, turns: nat)
    ensures AllWithin(block, 0, turns)
  {
    forall k: nat | k < turns ensures ReachedWithin(block, 0, k) {
      HopsOfZero(Links(block, |block|), k);
    }
  }

  /**
   The loop reads nothing behind the block exactly if the table of every NDP it comes to lies inside
   the block, or has an entry inside the block that ends it.
  */
  lemma {:induction false} WalkStays(block: seq<Byte>, at: nat, turns: nat)
    ensures !WalkNdps(block, |block|, at, turns).RanPast? <==> AllWithin(block, at, turns)
    decreases turns
  {
    if at == 0 {
      EndIsWithin(block, turns);
    } else if turns > 0 {
      var next, rest := Hop(block, |block|, at), turns - 1;
      var r := ReadNdp(block, |block|, at);
      NdpStays(block, at);
      AllWithinStep(block, at, next, turns, rest);
      if r.Good? {
        WalkStays(block, next, rest);
        WalkStep(block, |block|, at, turns, rest, r.grams, next);
      } else {
        EndIsWithin(block, rest);
      }
    }
  }

  // ---- What lies behind the block then does not matter ----

  /** A memory that starts with the block, of `len` bytes. */
  ghost predicate Holds(mem: seq<Byte>, block: seq<Byte>, len: nat) {
    len == |block| && block <= mem
  }

  lemma FieldAlike(block: seq<Byte>, mem: seq<Byte>, len: nat, i: nat)
    requires Holds(mem, block, len) && i + 2 <= len
    ensures Le16At(mem, i) == Le16At(block, i)
  {
  }

  lemma RangeAlike(block: seq<Byte>, mem: seq<Byte>, len: nat, lo: nat, hi: nat)
    requires Holds(mem, block, len) && lo <= hi <= len
    ensures mem[lo..hi] == block[lo..hi]
  {
  }

  lemma {:induction false} TableAlike(block: seq<Byte>, mem: seq<Byte>, len: nat, pos: nat, n: nat, tci: nat)
    requires Holds(mem, block, len) && ReadTable(block, len, pos, n, tci).end != Outside
    ensures ReadTable(mem, len, pos, n, tci) == ReadTable(block, len, pos, n, tci)
    decreases n
  {
    if n > 0 {
      var offset, size := Le16At(block, pos), Le16At(block, pos + 2);
      FieldAlike(block, mem, len, pos);
      FieldAlike(block, mem, len, pos + 2);
      var gram := (offset, size);
      if GramOk(block, len, gram) {
        var next, less := pos + DPE16_SIZE, n - 1;
        EntryDecodes(block, len, pos, next, gram, n, less, tci);
        RangeAlike(block, mem, len, offset, offset + size);
        EntryDecodes(mem, len, pos, next, gram, n, less, tci);
        TableAlike(block, mem, len, next, less, tci);
      }
    }
  }

  lemma HeadAlike(block: seq<Byte>, mem: seq<Byte>, len: nat, at: nat)
    requires Holds(mem, block, len)
    ensures HeadAccepted(mem, len, at) <==> HeadAccepted(block, len, at)
    ensures HeadAccepted(block, len, at) ==>
              && Nframes(mem, at) == Nframes(block, at) && mem[at..at + 4] == block[at..at + 4]
              && Le16At(mem, at + 6) == Le16At(block, at + 6)
  {
    if at + NDP16_SIZE <= len {
      RangeAlike(block, mem, len, at, at + 4);
      FieldAlike(block, mem, len, at + 4);
      FieldAlike(block, mem, len, at + 6);
    }
  }

  lemma NdpAlike(block: seq<Byte>, mem: seq<Byte>, len: nat, at: nat)
    requires Holds(mem, block, len) && !ReadNdp(block, len, at).Past?
    ensures ReadNdp(mem, len, at) == ReadNdp(block, len, at)
  {
    HeadAlike(block, mem, len, at);
    if HeadAccepted(block, len, at) {
      TableAlike(block, mem, len, at + NDP16_SIZE, Nframes(block, at), SessionOf(block[at..at + 4]).tci);
    }
  }

  lemma {:induction false} WalkAlike(block: seq<Byte>, mem: seq<Byte>, len: nat, at: nat, turns: nat)
    requires Holds(mem, block, len) && !WalkNdps(block, len, at, turns).RanPast?
    ensures WalkNdps(mem, len, at, turns) == WalkNdps(block, len, at, turns)
    decreases turns
  {
    if at > 0 && turns > 0 {
      var r, rest := ReadNdp(block, len, at), turns - 1;
      if r.Good? {
        WalkStep(block, len, at, turns, rest, r.grams, r.next);
        NdpAlike(block, mem, len, at);
        WalkStep(mem, len, at, turns, rest, r.grams, r.next);
        WalkAlike(block, mem, len, r.next, rest);
      } else {
        NdpAlike(block, mem, len, at);
      }
    }
  }

  /** A block all of whose reached tables are within it is received alike whatever memory follows it. */
  lemma ReceivedAlike(block: seq<Byte>, a: seq<Byte>, b: seq<Byte>)
    requires |block| >= NTH16_SIZE && AllWithin(block, Le16At(block, 10), TURNS)
    ensures Receive(block + a, |block|) == Receive(block + b, |block|) == Receive(block, |block|)
  {
    var first := Le16At(block, 10);
    WalkStays(block, first, TURNS);
    AlikeBehind(block, a, first);
    AlikeBehind(block, b, first);
  }

  lemma AlikeBehind(block: seq<Byte>, a: seq<Byte>, first: nat)
    requires |block| >= NTH16_SIZE && first == Le16At(block, 10) && !WalkNdps(block, |block|, first, TURNS).RanPast?
    ensures Receive(block + a, |block|) == Receive(block, |block|)
  {
    var mem, len := block + a, |block|;
    RangeAlike(block, mem, len, 0, 4);
    FieldAlike(block, mem, len, 6);
    FieldAlike(block, mem, len, 8);
    FieldAlike(block, mem, len, 10);
    WalkAlike(block, mem, len, first, TURNS);
  }

  // ---- Instances ----

  /** NTH16, padding, and at the very end an NDP16 that announces a table of two descriptors. */
  const TABLE_BEHIND: seq<Byte> := [
    0x4e, 0x43, 0x4d, 0x48, 12, 0, 0, 0, 28, 0, 20, 0,
    0, 0, 0, 0, 0, 0, 0, 0,
    0x49, 0x50, 0x53, 0, 16, 0, 0, 0]

  lemma FourBytes(b: seq<Byte>, at: nat)
    requires at + 4 <= |b|
    ensures b[at..at + 4] == [b[at], b[at + 1], b[at + 2], b[at + 3]]
  {
  }

  lemma HeadOfExample(mem: seq<Byte>)
    requires Holds(mem, TABLE_BEHIND, 28)
    ensures HeadAccepted(mem, 28, 20) && Nframes(mem, 20) == 2 && SessionOf(mem[20..24]) == Tci(0)
    ensures mem[..4] == NTH16_SIGN && Le16At(mem, 6) == 0 && Le16At(mem, 8) == 28 && Le16At(mem, 10) == 20
    ensures Le16At(mem, 26) == 0 && mem[1] == 0x43
  {
    var b := TABLE_BEHIND;
    FourBytes(mem, 20);
    assert mem[20] == 0x49 && mem[21] == 0x50 && mem[22] == 0x53 && mem[23] == 0;
    assert mem[20..24][..3] == IPS_SIGN;
    FourBytes(mem, 0);
    assert mem[..4] == mem[0..4];
    assert Le16At(mem, 24) == 16;
  }

  /** What the example is received as, from what its table reads as. */
  lemma ExampleReceived(mem: seq<Byte>, t: Table)
    requires Holds(mem, TABLE_BEHIND, 28) && t == ReadTable(mem, 28, 28, 2, 0) && t.end != Refused
    ensures Receive(mem, 28) == Accepted(0, if t.end.Fine? then Stopped(t.grams) else RanPast(t.grams))
  {
    HeadOfExample(mem);
    if t.end.Fine? {
      assert ReadNdp(mem, 28, 20) == Good(t.grams, 0);
      WalkStep(mem, 28, 20, TURNS, TURNS - 1, t.grams, 0);
      assert t.grams + [] == t.grams;
    } else {
      assert ReadNdp(mem, 28, 20) == Past(t.grams);
    }
  }

  /** The driver accepts the header of this block and reads its table from behind it: */
  lemma TableBehindExample()
    ensures |TABLE_BEHIND| == 28 && !AllWithin(TABLE_BEHIND, 20, TURNS)
    ensures Receive(TABLE_BEHIND, 28) == Accepted(0, RanPast([]))
  {
    HeadOfExample(TABLE_BEHIND);
    ExampleReceived(TABLE_BEHIND, Table([], Outside));
    WalkStays(TABLE_BEHIND, 20, TURNS);
  }

  /** with zeros there it delivers nothing, */
  lemma ZerosBehindExample(behind: seq<Byte>)
    requires |behind| >= 4 && behind[0] == 0 && behind[1] == 0
    ensures Receive(TABLE_BEHIND + behind, 28) == Accepted(0, Stopped([]))
  {
    var mem := TABLE_BEHIND + behind;
    assert mem[28] == behind[0] && mem[29] == behind[1];
    ExampleReceived(mem, Table([], Fine));
  }

  /** and with a descriptor there, the byte it names. */
  lemma EntryBehindExample(behind: seq<Byte>)
    requires |behind| >= 8 && behind[..8] == [1, 0, 1, 0, 0, 0, 0, 0]
    ensures Receive(TABLE_BEHIND + behind, 28) == Accepted(0, Stopped([Datagram(0, [0x43])]))
  {
    var mem := TABLE_BEHIND + behind;
    HeadOfExample(mem);
    forall k: nat | k < 8 ensures mem[28 + k] == [1, 0, 1, 0, 0, 0, 0, 0][k] {
      assert mem[28 + k] == behind[..8][k];
    }
    assert DpeAt(mem, 28, (1, 1)) && DpeAt(mem, 32, (0, 0)) && GramOk(mem, 28, (1, 1)) by {
      assert mem[28 + 0] == 1 && mem[28 + 1] == 0 && mem[28 + 2] == 1 && mem[28 + 3] == 0;
      assert mem[28 + 4] == 0 && mem[28 + 5] == 0 && mem[28 + 6] == 0 && mem[28 + 7] == 0;
    }
    assert mem[1..2] == [0x43];
    EntryDecodes(mem, 28, 28, 32, (1, 1), 2, 1, 0);
    assert ReadTable(mem, 28, 32, 1, 0) == Table([], Fine);
    ExampleReceived(mem, Table([Datagram(0, [0x43])], Fine));
  }

  /** A block with one NDP at 12 that names itself as the next, and one datagram. */
  const SELF_LINKED: seq<Byte> := [
    0x4e, 0x43, 0x4d, 0x48, 12, 0, 0, 0, 29, 0, 12, 0,
    0x49, 0x50, 0x53, 0, 16, 0, 12, 0,
    28, 0, 1, 0, 0, 0, 0, 0,
    0x45]

  lemma SelfLinkedReads()
    ensures ReadNdp(SELF_LINKED, 29, 12) == Good([Datagram(0, [0x45])], 12)
  {
    var b := SELF_LINKED;
    assert b[12] == 0x49 && b[13] == 0x50 && b[14] == 0x53 && b[15] == 0;
    FourBytes(b, 12);
    assert b[12..16][..3] == IPS_SIGN;
    assert b[20] == 28 && b[21] == 0 && b[22] == 1 && b[23] == 0 && b[24] == 0 && b[25] == 0 && b[26] == 0
           && b[27] == 0;
    assert DpeAt(b, 20, (28, 1)) && DpeAt(b, 24, (0, 0)) && GramOk(b, 29, (28, 1));
    assert b[28..29] == [0x45];
    EntryDecodes(b, 29, 20, 24, (28, 1), 2, 1, 0);
    assert ReadTable(b, 29, 24, 1, 0) == Table([], Fine);
    assert Nframes(b, 12) == 2;
  }

  /** The driver accepts this block, finds no error in it, and never leaves its loop. */
  lemma SelfLinkedExample(turns: nat)
    ensures |SELF_LINKED| == 29 && Receive(SELF_LINKED, 29).Accepted? && Receive(SELF_LINKED, 29).walk.Running?
    ensures WalkNdps(SELF_LINKED, 29, 12, turns).Running?
  {
    var b := SELF_LINKED;
    FourBytes(b, 0);
    assert b[..4] == b[0..4] == NTH16_SIGN;
    assert Le16At(b, 8) == 29 && Le16At(b, 10) == 12;
    SelfLinkedReads();
    SelfLinkNeverEnds(b, 29, 12, turns);
    SelfLinkNeverEnds(b, 29, 12, TURNS);
  }
}
