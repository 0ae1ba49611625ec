/** BHIe image tables: a firmware image scattered over DMA segments described by a vector table. */
module Bhie {
  import opened Arith
  import opened Bytes

  const VEC_ENTRY_SIZE: nat := 16  // sizeof(struct bhi_vec_entry)

  /** `struct mhi_buf`: address in host memory, address for the device, length. */
  datatype MhiBuf = MhiBuf(buf: nat, dmaAddr: nat, len: nat)

  datatype VecEntry = VecEntry(dmaAddr: nat, size: nat)

  // ---- Cutting an image into segments ----

  function Chunks(image: seq<Byte>, segLen: nat): (cs: seq<seq<Byte>>)
    requires segLen > 0
    decreases |image|
  {
    if |image| == 0 then []
    else [image[..Min(|image|, segLen)]] + Chunks(image[Min(|image|, segLen)..], segLen)
  }

  /** Nothing is lost: the segments in order are the image, none is empty and none too long. */
  lemma {:induction false} ChunksAreImage(image: seq<Byte>, segLen: nat)
    requires segLen > 0
    ensures Concat(Chunks(image, segLen)) == image
    ensures forall i :: 0 <= i < |Chunks(image, segLen)| ==> 0 < |Chunks(image, segLen)[i]| <= segLen
    decreases |image|
  {
    if |image| > 0 {
      var n := Min(|image|, segLen);
      ChunksAreImage(image[n..], segLen);
      assert image == image[..n] + image[n..];
    }
  }

  function DivRoundUp(n: nat, d: nat): (q: nat)
    requires d > 0
  {
    (n + d - 1) / d
  }

  lemma DivStep(n: nat, rest: nat, d: nat)
    requires d > 0 && n >= d && rest == n - d
    ensures DivRoundUp(n, d) == DivRoundUp(rest, d) + 1
  {
    QuotientStep(rest + d - 1, d);
  }

  /** There are exactly as many segments as `mhi_alloc_bhie_table` reserves before the vector table. */
  lemma {:induction false} ChunkCount(image: seq<Byte>, segLen: nat)
    requires segLen > 0
    ensures |Chunks(image, segLen)| == DivRoundUp(|image|, segLen)
    decreases |image|
  {
    if |image| == 0 {
      Quotient(segLen - 1, segLen, 0, segLen - 1);
    } else if |image| < segLen {
      Quotient(|image| + segLen - 1, segLen, 1, |image| - 1);
      assert image[|image|..] == [];
    } else {
      ChunkCount(image[segLen..], segLen);
      DivStep(|image|, |image[segLen..]|, segLen);
    }
  }

  // ---- The table ----

  /** The entries point at disjoint pieces of host memory. */
  ghost predicate Disjoint(bufs: seq<MhiBuf>, memLen: nat) {
    && (forall i :: 0 <= i < |bufs| ==> bufs[i].buf + bufs[i].len <= memLen)
    && (forall i, j :: 0 <= i < j < |bufs| ==>
          bufs[i].buf + bufs[i].len <= bufs[j].buf || bufs[j].buf + bufs[j].len <= bufs[i].buf)
  }

  /** All entries but the last hold `segLen` bytes; the last is the vector table with room for one descriptor each. */
  ghost predicate TableFor(bufs: seq<MhiBuf>, size: nat, segLen: nat)
    requires segLen > 0
  {
    && |bufs| == DivRoundUp(size, segLen) + 1
    && (forall i :: 0 <= i < |bufs| - 1 ==> bufs[i].len == segLen)
    && bufs[|bufs| - 1].len == 16 * (|bufs| - 1)
  }

  /**
   `mhi_alloc_bhie_table`; `got` are the addresses the DMA allocator hands out, fewer than asked if memory
   runs out.
  */
  method AllocBhieTable(segLen: nat, allocSize: nat, got: seq<(nat, nat)>)
    returns (ok: bool, table: seq<MhiBuf>, freed: seq<MhiBuf>)
    requires segLen > 0
    ensures ok <==> |got| >= DivRoundUp(allocSize, segLen) + 1
    ensures ok ==> TableFor(table, allocSize, segLen) && freed == []
    ensures ok ==> forall i :: 0 <= i < |table| ==> table[i].buf == got[i].0 && table[i].dmaAddr == got[i].1
    ensures !ok ==> table == [] && |freed| == |got|
    ensures !ok ==> forall i :: 0 <= i < |got| ==>
            freed[i] == MhiBuf(got[|got| - 1 - i].0, got[|got| - 1 - i].1, segLen)
  {
    var segments := DivRoundUp(allocSize, segLen) + 1;
    table, freed := [], [];
    var i := 0;
    while i < segments
      invariant i <= segments && i <= |got| && |table| == i && freed == []
      invariant forall j :: 0 <= j < i ==> table[j].buf == got[j].0 && table[j].dmaAddr == got[j].1
      invariant forall j :: 0 <= j < i ==> table[j].len == if j == segments - 1 then VEC_ENTRY_SIZE * j else segLen
    {
      var vecSize := segLen;
      if i == segments - 1 {
        vecSize := VEC_ENTRY_SIZE * i;
      }
      if i >= |got| {
        ghost var all := table;
        while |table| > 0
          invariant |table| + |freed| == |all| && table == all[..|table|]
          invariant forall j :: 0 <= j < |freed| ==> freed[j] == all[|all| - 1 - j]
        {
          freed := freed + [table[|table| - 1]];
          table := table[..|table| - 1];
        }
        return false, [], freed;
      }
      table := table + [MhiBuf(got[i].0, got[i].1, vecSize)];
      i := i + 1;
    }
    ok := true;
  }

  /** A table with a data segment for every chunk of the image. */
  ghost predicate HoldsImage(bufs: seq<MhiBuf>, image: seq<Byte>, segLen: nat) {
    && segLen > 0
    && |Chunks(image, segLen)| < |bufs|
    && forall i :: 0 <= i < |bufs| - 1 ==> bufs[i].len == segLen
  }

  /** A table allocated for at least the image's size holds it, vector table excluded. */
  lemma TableHoldsImage(bufs: seq<MhiBuf>, size: nat, image: seq<Byte>, segLen: nat)
    requires segLen > 0 && TableFor(bufs, size, segLen) && |image| <= size
    ensures HoldsImage(bufs, image, segLen)
  {
    CountFits(image, size, segLen);
  }

  // ---- The copy ----

  /** Descriptor i covers its segment's first bytes, which hold chunk i. */
  ghost predicate Stored(mem: seq<Byte>, b: MhiBuf, v: VecEntry, chunk: seq<Byte>) {
    && b.buf + |chunk| <= |mem|
    && v == VecEntry(b.dmaAddr, |chunk|)
    && mem[b.buf..b.buf + |chunk|] == chunk
  }

  /** The first k descriptors are stored. */
  ghost predicate AllStored(mem: seq<Byte>, bufs: seq<MhiBuf>, vec: seq<VecEntry>, chunks: seq<seq<Byte>>, k: nat) {
    k <= |bufs| && k <= |vec| && k <= |chunks| && forall i :: 0 <= i < k ==> Stored(mem, bufs[i], vec[i], chunks[i])
  }

  /** The vector table itself, in memory, is as it was. */
  ghost predicate TableKept(before: seq<Byte>, mem: seq<Byte>, last: MhiBuf) {
    last.buf + last.len <= |mem| == |before|
        && mem[last.buf..last.buf + last.len] == before[last.buf..last.buf + last.len]
  }

  method MemCpy(mem: array<Byte>, dst: nat, src: seq<Byte>)
    requires dst + |src| <= mem.Length
    modifies mem
    ensures mem[..] == old(mem[..dst]) + src + old(mem[dst + |src|..])
  {
    ghost var before := mem[..];
    forall k | 0 <= k < |src| {
      mem[dst + k] := src[k];
    }
    assert forall k :: 0 <= k < mem.Length ==> mem[k] == if dst <= k < dst + |src| then src[k - dst] else before[k];
  }

  lemma WriteElsewhere(mem: seq<Byte>, mem': seq<Byte>, dst: nat, src: seq<Byte>, lo: nat, hi: nat)
    requires dst + |src| <= |mem| && mem' == mem[..dst] + src + mem[dst + |src|..]
    requires lo <= hi <= |mem| && (hi <= dst || dst + |src| <= lo)
    ensures mem'[lo..hi] == mem[lo..hi]
  {
  }

  /** One turn of the copy loop. */
  method CopyChunk(part: seq<Byte>, ghost chunks: seq<seq<Byte>>, i: nat, bufs: seq<MhiBuf>, mem: array<Byte>,
                   vec: array<VecEntry>, ghost segLen: nat, ghost next: nat)
    requires next == i + 1 && i < |chunks| < |bufs| && vec.Length == |bufs| - 1 && part == chunks[i]
    requires Disjoint(bufs, mem.Length)
    requires forall j :: 0 <= j < |bufs| - 1 ==> bufs[j].len == segLen
    requires forall j :: 0 <= j < |chunks| ==> |chunks[j]| <= segLen
    requires AllStored(mem[..], bufs, vec[..], chunks, i)
    modifies mem, vec
    ensures AllStored(mem[..], bufs, vec[..], chunks, next)
    ensures forall j :: next <= j < vec.Length ==> vec[j] == old(vec[j])
    ensures TableKept(old(mem[..]), mem[..], bufs[|bufs| - 1])
  {
    ghost var before, last := mem[..], bufs[|bufs| - 1];
    MemCpy(mem, bufs[i].buf, part);
    vec[i] := VecEntry(bufs[i].dmaAddr, |part|);
    forall j | 0 <= j < i ensures Stored(mem[..], bufs[j], vec[j], chunks[j]) {
      assert Stored(before, bufs[j], old(vec[..])[j], chunks[j]);
      WriteElsewhere(before, mem[..], bufs[i].buf, part, bufs[j].buf, bufs[j].buf + |chunks[j]|);
    }
    WriteElsewhere(before, mem[..], bufs[i].buf, part, last.buf, last.buf + last.len);
  }

  /**
   `mhi_firmware_copy` into a table allocated for at least the image: descriptor by descriptor the
   image's chunks lie in the segments, nothing is written for or to the last entry, and the later
   descriptors stay as they were.
  */
  method FirmwareCopy(image: seq<Byte>, bufs: seq<MhiBuf>, mem: array<Byte>, vec: array<VecEntry>, segLen: nat)
    returns (used: nat)
    requires HoldsImage(bufs, image, segLen)
    requires Disjoint(bufs, mem.Length) && vec.Length == |bufs| - 1
    modifies mem, vec
    ensures used == |Chunks(image, segLen)| <= |bufs| - 1
    ensures AllStored(mem[..], bufs, vec[..], Chunks(image, segLen), used)
    ensures forall i :: used <= i < vec.Length ==> vec[i] == old(vec[i])
    ensures TableKept(old(mem[..]), mem[..], bufs[|bufs| - 1])
  {
    ghost var chunks := Chunks(image, segLen);
    ghost var last := bufs[|bufs| - 1];
    ChunksAreImage(image, segLen);
    var remainder: nat, buf: nat, i: nat := |image|, 0, 0;
    while remainder > 0
      invariant i <= |chunks| && buf + remainder == |image|
      invariant RestIs(chunks, i, image, buf, segLen)
      invariant AllStored(mem[..], bufs, vec[..], chunks, i)
      invariant forall j :: i <= j < vec.Length ==> vec[j] == old(vec[j])
      invariant TableKept(old(mem[..]), mem[..], last)
      decreases remainder
    {
      RestNonEmpty(chunks, i, image, buf, segLen);
      var toCpy := Min(remainder, bufs[i].len);
      var newBuf, next := buf + toCpy, i + 1;
      NextChunk(chunks, i, next, image, buf, newBuf, segLen);
      CopyChunk(image[buf..newBuf], chunks, i, bufs, mem, vec, segLen, next);
      buf, remainder, i := newBuf, remainder - toCpy, next;
    }
    RestEmpty(chunks, i, image, segLen);
    used := i;
  }

  /** The chunks from i on are those of the image from `buf` on. */
  ghost predicate RestIs(chunks: seq<seq<Byte>>, i: nat, image: seq<Byte>, buf: nat, segLen: nat) {
    segLen > 0 && i <= |chunks| && buf <= |image| && chunks[i..] == Chunks(image[buf..], segLen)
  }

  lemma RestNonEmpty(chunks: seq<seq<Byte>>, i: nat, image: seq<Byte>, buf: nat, segLen: nat)
    requires RestIs(chunks, i, image, buf, segLen) && buf < |image|
    ensures i < |chunks|
  {
  }

  lemma RestEmpty(chunks: seq<seq<Byte>>, i: nat, image: seq<Byte>, segLen: nat)
    requires RestIs(chunks, i, image, |image|, segLen)
    ensures i == |chunks|
  {
  }

  lemma NextChunk(chunks: seq<seq<Byte>>, i: nat, next: nat, image: seq<Byte>, buf: nat, newBuf: nat, segLen: nat)
    requires RestIs(chunks, i, image, buf, segLen) && buf < |image|
    requires next == i + 1 && newBuf == buf + Min(|image| - buf, segLen)
    ensures i < |chunks| && chunks[i] == image[buf..newBuf]
    ensures RestIs(chunks, next, image, newBuf, segLen)
  {
    var tail := image[buf..];
    assert chunks[i..][0] == chunks[i] && chunks[i..][1..] == chunks[next..];
    assert tail[Min(|tail|, segLen)..] == image[newBuf..];
  }

  lemma CountFits(image: seq<Byte>, size: nat, segLen: nat)
    requires segLen > 0 && |image| <= size
    ensures |Chunks(image, segLen)| <= DivRoundUp(size, segLen)
  {
    ChunkCount(image, segLen);
    QuotientMonotone(|image| + segLen - 1, size + segLen - 1, segLen);
  }

  ghost predicate InMemory(mem: seq<Byte>, b: MhiBuf, v: VecEntry) {
    b.buf + v.size <= |mem|
  }

  /** The bytes the device reads: each descriptor's range of its segment, one after the other. */
  ghost function Gathered(mem: seq<Byte>, bufs: seq<MhiBuf>, vec: seq<VecEntry>, k: nat): (r: seq<Byte>)
    requires k <= |bufs| && k <= |vec|
    requires forall i :: 0 <= i < k ==> InMemory(mem, bufs[i], vec[i])
  {
    if k == 0 then []
    else
      assert InMemory(mem, bufs[k - 1], vec[k - 1]);
      Gathered(mem, bufs, vec, k - 1) + mem[bufs[k - 1].buf..bufs[k - 1].buf + vec[k - 1].size]
  }

  ghost function TotalSize(vec: seq<VecEntry>, k: nat): nat
    requires k <= |vec|
  {
    if k == 0 then 0 else TotalSize(vec, k - 1) + vec[k - 1].size
  }

  lemma {:induction false} GatheredIsConcat(mem: seq<Byte>, bufs: seq<MhiBuf>, vec: seq<VecEntry>,
                                            chunks: seq<seq<Byte>>, k: nat)
    requires AllStored(mem, bufs, vec, chunks, k)
    ensures forall i :: 0 <= i < k ==> InMemory(mem, bufs[i], vec[i])
    ensures Gathered(mem, bufs, vec, k) == Concat(chunks[..k])
    ensures TotalSize(vec, k) == |Concat(chunks[..k])|
  {
    if k > 0 {
      GatheredIsConcat(mem, bufs, vec, chunks, k - 1);
      assert Stored(mem, bufs[k - 1], vec[k - 1], chunks[k - 1]);
      assert chunks[..k] == chunks[..k - 1] + [chunks[k - 1]];
      ConcatAppend(chunks[..k - 1], chunks[k - 1]);
    }
  }

  /**
   What the device gathers through the descriptors of a copied image is the image, and their sizes add up to
   its size.
  */
  lemma ScatterLosesNothing(image: seq<Byte>, segLen: nat, mem: seq<Byte>, bufs: seq<MhiBuf>, vec: seq<VecEntry>)
    requires segLen > 0 && AllStored(mem, bufs, vec, Chunks(image, segLen), |Chunks(image, segLen)|)
    ensures forall i :: 0 <= i < |Chunks(image, segLen)| ==> InMemory(mem, bufs[i], vec[i])
    ensures Gathered(mem, bufs, vec, |Chunks(image, segLen)|) == image
    ensures TotalSize(vec, |Chunks(image, segLen)|) == |image|
  {
    var chunks := Chunks(image, segLen);
    ChunksAreImage(image, segLen);
    GatheredIsConcat(mem, bufs, vec, chunks, |chunks|);
    assert chunks[..|chunks|] == chunks;
  }

  /** The table the allocator fills from these addresses. */
  ghost function TableOf(got: seq<(nat, nat)>, size: nat, segLen: nat): (table: seq<MhiBuf>)
    requires segLen > 0 && |got| > DivRoundUp(size, segLen)
    ensures TableFor(table, size, segLen)
  {
    var n := DivRoundUp(size, segLen);
    seq(n + 1, i requires 0 <= i <= n => MhiBuf(got[i].0, got[i].1, if i == n then VEC_ENTRY_SIZE * n else segLen))
  }

  /**
   The image's way through `mhi_fw_load_handler`: a table allocated for its size, then the copy. Given
   disjoint pieces of memory, what the device gathers through the vector table is the image.
  */
  method LoadImage(image: seq<Byte>, segLen: nat, got: seq<(nat, nat)>, mem: array<Byte>)
    returns (ok: bool, table: seq<MhiBuf>, vec: array<VecEntry>)
    requires segLen > 0
    requires |got| > DivRoundUp(|image|, segLen) ==> Disjoint(TableOf(got, |image|, segLen), mem.Length)
    modifies mem
    ensures ok <==> |got| > DivRoundUp(|image|, segLen)
    ensures !ok ==> mem[..] == old(mem[..])
    ensures ok ==> table == TableOf(got, |image|, segLen) && fresh(vec) && vec.Length == |table| - 1
    ensures ok ==> var n := |Chunks(image, segLen)|;
                   && n <= vec.Length && (forall i :: 0 <= i < n ==> InMemory(mem[..], table[i], vec[i]))
                   && Gathered(mem[..], table, vec[..], n) == image && TotalSize(vec[..], n) == |image|
                   && TableKept(old(mem[..]), mem[..], table[|table| - 1])
  {
    var freed;
    ok, table, freed := AllocBhieTable(segLen, |image|, got);
    if !ok {
      vec := new VecEntry[0];
      return;
    }
    assert table == TableOf(got, |image|, segLen);
    TableHoldsImage(table, |image|, image, segLen);
    vec := new VecEntry[|table| - 1](_ => VecEntry(0, 0));
    var used := FirmwareCopy(image, table, mem, vec, segLen);
    ScatterLosesNothing(image, segLen, mem[..], table, vec[..]);
  }

  /** `mhi_rddm_prepare`: one descriptor per data segment, and the vector table itself for the RXVEC registers. */
  method RddmPrepare(bufs: seq<MhiBuf>, vec: array<VecEntry>) returns (rxvec: VecEntry)
    requires |bufs| > 0 && vec.Length == |bufs| - 1
    modifies vec
    ensures forall i :: 0 <= i < vec.Length ==> vec[i] == VecEntry(bufs[i].dmaAddr, bufs[i].len)
    ensures rxvec == VecEntry(bufs[|bufs| - 1].dmaAddr, bufs[|bufs| - 1].len)
  {
    var i := 0;
    while i < |bufs| - 1
      invariant i <= |bufs| - 1
      invariant forall j :: 0 <= j < i ==> vec[j] == VecEntry(bufs[j].dmaAddr, bufs[j].len)
    {
      vec[i] := VecEntry(bufs[i].dmaAddr, bufs[i].len);
      i := i + 1;
    }
    rxvec := VecEntry(bufs[i].dmaAddr, bufs[i].len);
  }
}
