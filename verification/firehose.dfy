/**
 The images a firehose flash sends: `fh_fixup_program_cmd` and `fh_send_rawmode_image` cut a file into
 payloads of the negotiated size and fill the last sector with zeros.
*/
module FirehoseImage {
  import opened Arith
  import opened Bytes

  function Zeros(n: nat): (z: seq<Byte>)
    ensures |z| == n
  {
    seq(n, _ => 0)
  }

  /** Bytes missing to the next multiple of the sector size. */
  function PadLen(n: nat, sector: nat): (p: nat)
    requires sector > 0
  {
    if n % sector == 0 then 0 else sector - n % sector
  }

  function Padded(s: seq<Byte>, sector: nat): (r: seq<Byte>)
    requires sector > 0
  {
    s + Zeros(PadLen(|s|, sector))
  }

  /** The file, then zeros, up to the next multiple of the sector size. */
  lemma PaddedMeans(s: seq<Byte>, sector: nat)
    requires sector > 0
    ensures var r := Padded(s, sector);
            && s <= r && |s| <= |r| < |s| + sector && |r| % sector == 0
            && forall i | |s| <= i < |r| :: r[i] == 0
  {
    var q, rem := |s| / sector, |s| % sector;
    assert |s| == q * sector + rem;
    SectorsHoldImage(s, sector);
    ModOfMultiple(Sectors(|s|, sector), sector);
  }

  lemma ModOfMultiple(k: nat, sector: nat)
    requires sector > 0
    ensures (k * sector) % sector == 0
  {
    MultipleOf(sector, k);
  }

  /** `num_partition_sectors` before it is cut to 32 bits. */
  function Sectors(n: nat, sector: nat): (k: nat)
    requires sector > 0
  {
    n / sector + if n % sector == 0 then 0 else 1
  }

  /** The announced number of sectors is the length of the padded image. */
  lemma SectorsHoldImage(s: seq<Byte>, sector: nat)
    requires sector > 0
    ensures |Padded(s, sector)| == Sectors(|s|, sector) * sector
  {
    var q, r := |s| / sector, |s| % sector;
    assert |s| == q * sector + r;
    assert (q + 1) * sector == q * sector + sector;
  }

  /**
   The raw reads of the send loop when each is full: `pos` bytes of the file are read and `filesend`
   bytes, counting padding, sent. The loop compares the latter with the file's size.
  */
  function Reads(file: seq<Byte>, pos: nat, filesend: nat, max: nat, sector: nat): (rs: seq<seq<Byte>>)
    requires 0 < max && 0 < sector && pos <= |file| && pos <= filesend
    ensures forall r :: r in rs ==> 0 < |r| <= max
    decreases |file| - pos
  {
    if filesend >= |file| then []
    else
      var n := Min(max, |file| - pos);
      [file[pos..pos + n]] + Reads(file, pos + n, filesend + n + PadLen(n, sector), max, sector)
  }

  function PadAll(rs: seq<seq<Byte>>, sector: nat): (ps: seq<seq<Byte>>)
    requires sector > 0
  {
    if rs == [] then [] else [Padded(rs[0], sector)] + PadAll(rs[1..], sector)
  }

  /** What a complete send puts on the wire. */
  function Image(file: seq<Byte>, max: nat, sector: nat): (s: seq<Byte>)
    requires 0 < max && 0 < sector
  {
    Concat(PadAll(Reads(file, 0, 0, max, sector), sector))
  }

  /** How many bytes of the file a complete send has read. */
  function BytesRead(file: seq<Byte>, max: nat, sector: nat): (n: nat)
    requires 0 < max && 0 < sector
  {
    |Concat(Reads(file, 0, 0, max, sector))|
  }

  /** The file's size or the sector size fits the payload size. */
  predicate Aligned(n: nat, max: nat, sector: nat)
    requires 0 < sector
  {
    max % sector == 0 || n <= max
  }

  /** What the reads from `pos` on amount to. */
  predicate Faithful(rs: seq<seq<Byte>>, rest: seq<Byte>, sector: nat)
    requires sector > 0
  {
    Concat(rs) == rest && Concat(PadAll(rs, sector)) == Padded(rest, sector)
  }

  lemma FaithfulStep(first: seq<Byte>, rs: seq<seq<Byte>>, rest: seq<Byte>, all: seq<seq<Byte>>, whole: seq<Byte>,
                     sector: nat)
    requires sector > 0 && Faithful(rs, rest, sector) && |first| % sector == 0 && all == [first] + rs
             && whole == first + rest
    ensures Faithful(all, whole, sector)
  {
    assert all[1..] == rs;
    ModAdd(|first|, |rest|, sector, |first| + |rest|);
    JoinPadded(first, rest, sector);
  }

  lemma ReadsStep(file: seq<Byte>, pos: nat, filesend: nat, max: nat, sector: nat, next: nat, sent: nat)
    requires 0 < max && 0 < sector && pos <= filesend < |file|
    requires next == pos + Min(max, |file| - pos) && sent == filesend + (next - pos) + PadLen(next - pos, sector)
    ensures Reads(file, pos, filesend, max, sector) == [file[pos..next]] + Reads(file, next, sent, max, sector)
  {
  }

  lemma MiddleRead(file: seq<Byte>, pos: nat, max: nat, sector: nat, next: nat)
    requires 0 < max && 0 < sector && next == pos + max < |file| && max % sector == 0
    ensures Reads(file, pos, pos, max, sector) == [file[pos..next]] + Reads(file, next, next, max, sector)
  {
    ReadsStep(file, pos, pos, max, sector, next, next);
  }

  lemma FinalRead(file: seq<Byte>, pos: nat, max: nat, sector: nat)
    requires 0 < max && 0 < sector && pos < |file| <= pos + max
    ensures Reads(file, pos, pos, max, sector) == [file[pos..]]
  {
    var n := |file| - pos;
    ReadsStep(file, pos, pos, max, sector, |file|, pos + n + PadLen(n, sector));
    assert file[pos..|file|] == file[pos..];
  }

  lemma {:induction false} AlignedReads(file: seq<Byte>, pos: nat, max: nat, sector: nat)
    requires 0 < max && 0 < sector && pos < |file| && (max % sector == 0 || |file| <= pos + max)
    ensures Faithful(Reads(file, pos, pos, max, sector), file[pos..], sector)
    decreases |file| - pos
  {
    var next := pos + max;
    if next < |file| {
      var first, rest := file[pos..next], Reads(file, next, next, max, sector);
      AlignedReads(file, next, max, sector);
      MiddleRead(file, pos, max, sector, next);
      FaithfulStep(first, rest, file[next..], [first] + rest, file[pos..], sector);
    } else {
      FinalRead(file, pos, max, sector);
      LastRead(file[pos..], sector);
    }
  }

  lemma LastRead(first: seq<Byte>, sector: nat)
    requires sector > 0
    ensures Faithful([first], first, sector)
  {
    var none: seq<seq<Byte>> := [];
    assert [first][1..] == none;
    assert Concat([first]) == first + [] == first;
    assert PadAll([first], sector) == [Padded(first, sector)];
    assert [Padded(first, sector)][1..] == none;
    assert Concat([Padded(first, sector)]) == Padded(first, sector) + [] == Padded(first, sector);
  }

  lemma JoinPadded(a: seq<Byte>, b: seq<Byte>, sector: nat)
    requires sector > 0 && |a| % sector == 0 && (|a| + |b|) % sector == |b| % sector
    ensures Padded(a, sector) + Padded(b, sector) == Padded(a + b, sector)
  {
    assert PadLen(|a| + |b|, sector) == PadLen(|b|, sector) && Zeros(0) == [];
  }

  /**
   Any file sent in aligned payloads is put on the wire as its bytes and then zeros up to a full sector, and
   counted whole.
  */
  lemma AlignedImage(file: seq<Byte>, max: nat, sector: nat)
    requires 0 < max && 0 < sector && Aligned(|file|, max, sector)
    ensures Image(file, max, sector) == Padded(file, sector) && BytesRead(file, max, sector) == |file|
  {
    assert file[0..] == file;
    if file != [] {
      AlignedReads(file, 0, max, sector);
    }
  }

  // ---- The payload buffer ----

  // Padding is written behind what was read, into a buffer of `max` bytes, without a look at its end.

  ghost predicate AllWithin(ps: seq<seq<Byte>>, max: nat) {
    forall p :: p in ps ==> |p| <= max
  }

  /** The image is the file and zeros, and no padding is written past the payload buffer. */
  ghost predicate SentRight(file: seq<Byte>, max: nat, sector: nat)
    requires 0 < max && 0 < sector
  {
    && Image(file, max, sector) == Padded(file, sector)
    && AllWithin(PadAll(Reads(file, 0, 0, max, sector), sector), max)
  }

  /** The sector size divides the payload size, or the padded file is at most one payload. */
  predicate Fits(n: nat, max: nat, sector: nat)
    requires 0 < sector
  {
    max % sector == 0 || n + PadLen(n, sector) <= max
  }

  /** Padding stays below the next multiple of the sector size. */
  lemma PadBelow(n: nat, max: nat, sector: nat)
    requires 0 < sector && n <= max && max % sector == 0
    ensures n + PadLen(n, sector) <= max
  {
    var q, q', r := n / sector, max / sector, n % sector;
    if r > 0 {
      QuotientMonotone(n, max, sector);
      if q < q' {
        AtLeastOnce(q' - q, sector);
        Distribute(q' - q, q, sector);
      }
    }
  }

  /** The first payload tells. */
  lemma FirstPayload(n: nat, max: nat, sector: nat, first: nat)
    requires 0 < sector && 0 < n && 0 < max && first == Min(n, max)
    ensures Fits(n, max, sector) <==> first + PadLen(first, sector) <= max
  {
    if max % sector == 0 {
      PadBelow(first, max, sector);
    }
  }

  lemma {:induction false} PadAllBelow(rs: seq<seq<Byte>>, max: nat, sector: nat)
    requires 0 < sector && max % sector == 0 && forall r :: r in rs ==> |r| <= max
    ensures AllWithin(PadAll(rs, sector), max)
  {
    if rs != [] {
      assert rs[0] in rs;
      PadBelow(|rs[0]|, max, sector);
      PadAllBelow(rs[1..], max, sector);
    }
  }

  lemma FitsWithin(file: seq<Byte>, max: nat, sector: nat)
    requires 0 < max && 0 < sector && Fits(|file|, max, sector)
    ensures AllWithin(PadAll(Reads(file, 0, 0, max, sector), sector), max)
  {
    if max % sector == 0 {
      PadAllBelow(Reads(file, 0, 0, max, sector), max, sector);
    } else if file != [] {
      FinalRead(file, 0, max, sector);
      assert file[0..] == file;
      var none: seq<seq<Byte>> := [];
      assert [file][1..] == none;
      assert PadAll([file], sector) == [Padded(file, sector)];
    }
  }

  /** A file is sent right exactly if it fits; otherwise its first payload already leaves the buffer. */
  lemma SentRightIff(file: seq<Byte>, max: nat, sector: nat)
    requires 0 < max && 0 < sector
    ensures SentRight(file, max, sector) <==> Fits(|file|, max, sector)
  {
    if Fits(|file|, max, sector) {
      FitsWithin(file, max, sector);
      AlignedImage(file, max, sector);
    } else {
      assert |file| > 0;
      var n := Min(|file|, max);
      var rs := Reads(file, 0, 0, max, sector);
      FirstPayload(|file|, max, sector, n);
      ReadsStep(file, 0, 0, max, sector, n, n + PadLen(n, sector));
      FirstTooLong(rs, file[0..n], max, sector);
    }
  }

  lemma FirstTooLong(rs: seq<seq<Byte>>, first: seq<Byte>, max: nat, sector: nat)
    requires 0 < sector && rs != [] && rs[0] == first && |first| + PadLen(|first|, sector) > max
    ensures !AllWithin(PadAll(rs, sector), max)
  {
    assert PadAll(rs, sector)[0] == Padded(first, sector);
    assert Padded(first, sector) in PadAll(rs, sector);
  }

  /** 500 bytes padded to a sector of 4096 do not fit a payload buffer of 1000. */
  lemma OverrunExample(file: seq<Byte>)
    requires |file| == 500
    ensures !SentRight(file, 1000, 4096) && Image(file, 1000, 4096) == Padded(file, 4096)
    ensures |Padded(file, 4096)| == 4096
  {
    SentRightIff(file, 1000, 4096);
    AlignedImage(file, 1000, 4096);
  }

  /** A file that fits is sent as its bytes and zeros up to a full sector, and is counted whole. */
  lemma ImageIsPaddedFile(file: seq<Byte>, max: nat, sector: nat)
    requires 0 < max && 0 < sector && Fits(|file|, max, sector)
    ensures SentRight(file, max, sector) && BytesRead(file, max, sector) == |file|
  {
    SentRightIff(file, max, sector);
    AlignedImage(file, max, sector);
  }

  /**
   Of files longer than a payload that the sector size does not divide, not all even leave as their bytes
   and zeros.
  */
  lemma ZerosInside(n: nat, max: nat, sector: nat)
    requires 0 < max < n && 0 < sector
    ensures (forall f: seq<Byte> | |f| == n :: Image(f, max, sector) == Padded(f, sector)) <==> max % sector == 0
  {
    if max % sector == 0 {
      forall f: seq<Byte> | |f| == n ensures Image(f, max, sector) == Padded(f, sector) {
        AlignedImage(f, max, sector);
      }
    } else {
      var ones: seq<Byte> := seq(n, _ => 1);
      var first, rs := ones[0..max], Reads(ones, 0, 0, max, sector);
      assert rs[0] == first;
      assert PadAll(rs, sector)[0] == Padded(first, sector);
      assert Image(ones, max, sector)[max] == Padded(first, sector)[max] == 0;
      assert Padded(ones, sector)[max] == 1;
      assert Image(ones, max, sector) != Padded(ones, sector);
    }
  }
}
