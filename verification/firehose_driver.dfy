/** `firehose_main` from the parsed command table on, against a target that answers as it likes. */
module FirehoseDriver {
  import opened Arith
  import opened Bytes
  import opened FirehoseImage
  import opened FirehoseFlash
  import opened FirehoseAnswers

  /**
   Why a session was given up. `Overran` is padding written past the payload buffer: what the program
   does from then on is not known.
  */
  datatype Why = Fine | NotAcked | ModeNotOn | ModeNotOff | IoFailed | Overran

  /** A session starts only if there are commands and all their files can be used. */
  datatype Outcome = NoCommands | NoFile | Ran(why: Why)

  /** `fh_fixup_program_cmd` for one table entry. */
  function Fixed(c: Cmd): (c': Cmd)
    requires c.Program? ==> c.sector > 0
  {
    if c.Program? then c.(sectors := Announced(SizeOf(c), c.sector)) else c
  }

  /** A file that is there, not empty, and whose number of sectors is not cut to 0. */
  predicate Usable(c: Cmd)
    requires c.Program? ==> c.sector > 0
  {
    c.Program? ==> c.file.Readable? && c.file.bytes != [] && Fixed(c).sectors > 0
  }

  /** A command can be used unless it is a program without a file, with an empty one, or cut to no sectors. */
  lemma UsableMeans(c: Cmd, size: nat, sectors: nat)
    requires c.Program? && c.sector > 0 && c.file != Missing && size == |c.file.bytes|
    requires sectors == size / c.sector + if size % c.sector == 0 then 0 else 1
    ensures Usable(c) <==> size > 0 && sectors % 0x1_0000_0000 != 0
    ensures !Usable(c.(file := Missing))
  {
  }

  predicate HaveSectors(t: seq<Cmd>) {
    forall c :: c in t ==> (c.Program? ==> c.sector > 0)
  }

  /** The table t with its first x entries fixed up, all of them usable. */
  predicate FixedUpTo(t: seq<Cmd>, t': seq<Cmd>, x: nat)
    requires HaveSectors(t)
  {
    && |t'| == |t| && x <= |t|
    && (forall i | 0 <= i < x :: t'[i] == Fixed(t[i]) && Usable(t[i]))
    && (forall i | x <= i < |t| :: t'[i] == t[i])
  }

  lemma FixedIsFlashable(t: seq<Cmd>, t': seq<Cmd>)
    requires HaveSectors(t) && FixedUpTo(t, t', |t|)
    ensures AllFlashable(t')
  {
    forall c | c in t' ensures Flashable(c) {
      var i :| 0 <= i < |t'| && t'[i] == c;
      assert t[i] in t;
    }
  }

  lemma FixedAreUsable(t: seq<Cmd>, t': seq<Cmd>)
    requires HaveSectors(t) && FixedUpTo(t, t', |t|)
    ensures forall c :: c in t ==> Usable(c)
  {
  }

  lemma {:induction false} SameTotal(t: seq<Cmd>, t': seq<Cmd>, x: nat)
    requires HaveSectors(t) && FixedUpTo(t, t', |t|) && x <= |t|
    ensures TotalSize(t', x) == TotalSize(t, x)
    decreases |t| - x
  {
    if x < |t| {
      assert t[x] in t;
      SameTotal(t, t', x + 1);
    }
  }

  lemma PassStep(t: seq<Cmd>, x: nat, next: nat, k: Kind, max: nat)
    requires max > 0 && x < |t| && next == x + 1 && AllFlashable(t)
    ensures t[x] in t
    ensures Pass(t, x, k, max) == (if KindOf(t[x]) == k then Messages(t[x], max) else []) + Pass(t, next, k, max)
  {
  }

  class Flasher {
    const responses: nat -> Response
    const io: nat -> Io

    var table: seq<Cmd>
    var maxPayload: nat
    var transferBytes: nat
    var allBytes: nat
    var wire: seq<Msg>     // complete messages sent
    var heard: nat         // responses waited for
    var ios: nat           // turns of the image loop

    constructor (table: seq<Cmd>, responses: nat -> Response, io: nat -> Io)
      ensures this.table == table && this.responses == responses && this.io == io
      ensures wire == [] && transferBytes == 0 && heard == 0 && ios == 0
    {
      this.table, this.responses, this.io := table, responses, io;
      maxPayload, transferBytes, allBytes, wire, heard, ios := 0, 0, 0, [], 0, 0;
    }

    /** The target or the disk gave reason to give up: in the last answer or the last turn of the image loop. */
    ghost predicate Justified(why: Why)
      reads this
    {
      match why
      case Fine => true
      case NotAcked => heard > 0 && !IsAck(responses(heard - 1))
      case ModeNotOn => heard > 0 && IsAck(responses(heard - 1)) && responses(heard - 1).rawmode != 1
      case ModeNotOff => heard > 0 && IsAck(responses(heard - 1)) && responses(heard - 1).rawmode != 0
      case IoFailed => ios > 0 && io(ios - 1) != Io(true, true)
      case Overran => maxPayload > 0 && AllFlashable(table) && !AllFit(table, maxPayload)
    }

    /** `fh_wait_response_cmd`. */
    method WaitResponse() returns (r: Response)
      modifies this`heard
      ensures heard == old(heard) + 1 && r == responses(old(heard))
    {
      r := responses(heard);
      heard := heard + 1;
    }

    /** The loop over the table before the session: sector counts filled in, sizes added up. */
    method Fixup() returns (ok: bool)
      requires HaveSectors(table)
      modifies this`table, this`allBytes
      ensures ok ==> FixedUpTo(old(table), table, |table|) && AllFlashable(table) && allBytes == TotalSize(table, 0)
      ensures ok <==> forall c :: c in old(table) ==> Usable(c)
    {
      ghost var t := table;
      var x, filesizes := 0, 0;
      while x < |table|
        invariant x <= |t| && FixedUpTo(t, table, x)
        invariant filesizes + TotalSize(t, x) == TotalSize(t, 0)
      {
        var c := table[x];
        assert t[x] in t && c == t[x];
        if c.Program? {
          if c.file.Missing? || c.file.bytes == [] || Fixed(c).sectors == 0 {
            assert !Usable(c);
            return false;
          }
          table := table[x := Fixed(c)];
          filesizes := filesizes + |c.file.bytes|;
        }
        x := x + 1;
      }
      allBytes, ok := filesizes, true;
      FixedAreUsable(t, table);
      FixedIsFlashable(t, table);
      SameTotal(t, table, 0);
    }

    /** `fh_send_cfg_cmd`. */
    method SendCfg() returns (ok: bool)
      requires wire == [] && heard == 0
      modifies this`wire, this`heard, this`maxPayload
      ensures wire <= Greeting(responses(0))
      ensures ok ==> wire == Greeting(responses(0)) && maxPayload == Negotiated(responses(0))
      ensures !ok ==> Justified(NotAcked)
      ensures ok <==> GreetingGood(responses)
      ensures ok ==> heard == GreetingAnswers(responses(0))
    {
      var max := DEFAULT_PAYLOAD;
      wire := wire + [Configure(max)];
      var r := WaitResponse();
      if r.NoResponse? {
        return false;
      }
      if r.value.NAK? && r.maxPayload != 0 {
        max := r.maxPayload;
        wire := wire + [Configure(max)];
        r := WaitResponse();
        if r.NoResponse? {
          return false;
        }
      }
      if !r.value.ACK? {
        return false;
      }
      maxPayload, ok := max, true;
    }

    /** The vendor and the erase loop. */
    method SendPlain(k: Kind) returns (ok: bool)
      requires !k.ProgramKind? && maxPayload > 0 && AllFlashable(table)
      modifies this`wire, this`heard
      ensures wire <= old(wire) + Pass(table, 0, k, maxPayload)
      ensures ok ==> wire == old(wire) + Pass(table, 0, k, maxPayload)
      ensures !ok ==> Justified(NotAcked)
      ensures ok <==> Acked(responses, old(heard), old(heard) + CountTo(table, |table|, k))
      ensures ok ==> heard == old(heard) + CountTo(table, |table|, k)
    {
      ghost var goal, first := wire + Pass(table, 0, k, maxPayload), heard;
      var x := 0;
      ok := true;
      while ok && x < |table|
        invariant x <= |table| && wire <= goal
        invariant if ok then Remains(x, k, goal) else Justified(NotAcked)
        invariant if ok then Answered(x, k, first) else Denied(k, first)
        decreases ok, |table| - x
      {
        var next := x + 1;
        ok := PlainTurn(x, next, k, goal, first);
        x := next;
      }
    }

    /** The commands of this kind among the first x, and no others, were answered from `first` on, and accepted. */
    ghost predicate Answered(x: nat, k: Kind, first: nat)
      requires x <= |table|
      reads this
    {
      heard == first + CountTo(table, x, k) && Acked(responses, first, heard)
    }

    /** Not all commands of this kind are accepted by the answers from `first` on. */
    ghost predicate Denied(k: Kind, first: nat)
      reads this
    {
      !Acked(responses, first, first + CountTo(table, |table|, k))
    }

    /** What is still to be sent of a pass over the table. */
    ghost predicate Remains(x: nat, k: Kind, goal: seq<Msg>)
      requires maxPayload > 0 && AllFlashable(table) && x <= |table|
      reads this
    {
      goal == wire + Pass(table, x, k, maxPayload)
    }

    /** One turn of the vendor or the erase loop. */
    method PlainTurn(x: nat, ghost next: nat, k: Kind, ghost goal: seq<Msg>, ghost first: nat) returns (ok: bool)
      requires !k.ProgramKind? && maxPayload > 0 && AllFlashable(table)
      requires x < |table| && next == x + 1 && Remains(x, k, goal) && Answered(x, k, first)
      modifies this`wire, this`heard
      ensures wire <= goal
      ensures if ok then Remains(next, k, goal) else Justified(NotAcked)
      ensures if ok then Answered(next, k, first) else Denied(k, first)
    {
      ok := true;
      PassStep(table, x, next, k, maxPayload);
      CountGrows(table, next, |table|, k);
      if KindOf(table[x]) == k {
        ghost var before := wire;
        wire := wire + [Command(table[x])];
        Prefixes(before, wire, [Command(table[x])], Pass(table, next, k, maxPayload));
        var r := WaitResponse();
        ok := IsAck(r);
      }
    }

    /** The program loop. */
    method SendPrograms() returns (why: Why)
      requires maxPayload > 0 && AllFlashable(table)
      modifies this`wire, this`heard, this`ios, this`transferBytes
      ensures wire <= old(wire) + Pass(table, 0, ProgramKind, maxPayload) && Justified(why)
      ensures why.Fine? ==> wire == old(wire) + Pass(table, 0, ProgramKind, maxPayload)
      ensures why.Fine? ==> transferBytes == old(transferBytes) + TotalRead(table, 0, maxPayload)
      ensures why.Fine? <==> ProgramsGood(table, maxPayload, responses, old(heard), io, old(ios))
      ensures why.Fine? ==> heard == old(heard) + 2 * CountTo(table, |table|, ProgramKind)
    {
      ghost var goal, at, turn := wire + Pass(table, 0, ProgramKind, maxPayload), heard, ios;
      ghost var total := transferBytes + TotalRead(table, 0, maxPayload);
      why := Fine;
      var x := 0;
      while why.Fine? && x < |table|
        invariant x <= |table| && wire <= goal && Justified(why)
        invariant why.Fine? ==> ProgramsRemain(x, goal, total)
        invariant if why.Fine? then ProgramsDone(x, at, turn)
                  else !ProgramsGood(table, maxPayload, responses, at, io, turn)
        decreases why.Fine?, |table| - x
      {
        var next := x + 1;
        why := ProgramTurn(x, next, goal, total, at, turn);
        x := next;
      }
    }

    /** The programs among the first x were answered from `at` on as they should, and transferred from `turn` on. */
    ghost predicate ProgramsDone(x: nat, at: nat, turn: nat)
      requires maxPayload > 0 && AllFlashable(table) && x <= |table|
      reads this
    {
      && heard == at + 2 * CountTo(table, x, ProgramKind) && AllSwitch(responses, at, CountTo(table, x, ProgramKind))
      && ios == turn + TurnsTo(table, x, maxPayload) && Moved(io, turn, ios)
      && forall i | 0 <= i < x :: FitsCmd(table[i], maxPayload)
    }

    ghost predicate ProgramsRemain(x: nat, goal: seq<Msg>, total: nat)
      requires maxPayload > 0 && AllFlashable(table) && x <= |table|
      reads this
    {
      && Remains(x, ProgramKind, goal)
      && total == transferBytes + TotalRead(table, x, maxPayload)
    }

    /** One turn of the program loop. */
    method ProgramTurn(x: nat, ghost next: nat, ghost goal: seq<Msg>, ghost total: nat, ghost at: nat,
                       ghost turn: nat)
      returns (why: Why)
      requires maxPayload > 0 && AllFlashable(table) && x < |table| && next == x + 1 && ProgramsRemain(x, goal, total)
      requires ProgramsDone(x, at, turn)
      modifies this`wire, this`heard, this`ios, this`transferBytes
      ensures wire <= goal && Justified(why)
      ensures why.Fine? ==> ProgramsRemain(next, goal, total)
      ensures if why.Fine? then ProgramsDone(next, at, turn)
              else !ProgramsGood(table, maxPayload, responses, at, io, turn)
    {
      why := Fine;
      PassStep(table, x, next, ProgramKind, maxPayload);
      if table[x].Program? {
        ghost var before, h, i := wire, heard, ios;
        why := SendProgram(table[x]);
        Prefixes(before, wire, Messages(table[x], maxPayload), Pass(table, next, ProgramKind, maxPayload));
        ProgramCounts(table, x, next, maxPayload, responses, at, h, io, turn, i);
      }
    }

    /** One program: command, answer with raw mode on, image, answer with raw mode off. */
    method SendProgram(c: Cmd) returns (why: Why)
      requires maxPayload > 0 && AllFlashable(table) && c in table && c.Program?
      modifies this`wire, this`heard, this`ios, this`transferBytes
      ensures wire <= old(wire) + Messages(c, maxPayload) && Justified(why)
      ensures why.Fine? ==> wire == old(wire) + Messages(c, maxPayload)
      ensures why.Fine? ==> transferBytes == old(transferBytes) + ReadOf(c, maxPayload)
      ensures why.Fine? <==> ProgramGood(c, maxPayload, responses, old(heard), io, old(ios))
      ensures why.Fine? ==> heard == old(heard) + 2 && ios == old(ios) + TurnsOf(c, maxPayload)
    {
      ghost var before, images := wire, Datas(Reads(c.file.bytes, 0, 0, maxPayload, c.sector), c.sector);
      assert before + Messages(c, maxPayload) == (before + [Command(c)]) + images;
      wire := wire + [Command(c)];
      why := AwaitMode(true);
      if !why.Fine? {
        return;
      }
      why := SendImage(c);
    }

    /** The image of a program and the answer after it. */
    method SendImage(c: Cmd) returns (why: Why)
      requires maxPayload > 0 && AllFlashable(table) && c in table && c.Program?
      modifies this`wire, this`heard, this`ios, this`transferBytes
      ensures var images := Datas(Reads(c.file.bytes, 0, 0, maxPayload, c.sector), c.sector);
              wire <= old(wire) + images && (why.Fine? ==> wire == old(wire) + images)
      ensures Justified(why) && (why.Fine? ==> transferBytes == old(transferBytes) + ReadOf(c, maxPayload))
      ensures why.Fine? <==> Transferred(c, old(ios)) && ModeIs(responses(old(heard)), 0)
      ensures why.Fine? ==> heard == old(heard) + 1 && ios == old(ios) + TurnsOf(c, maxPayload)
    {
      why := SendRawmodeImage(c.file.bytes, c.sector, ios + TurnsOf(c, maxPayload));
      if why.Fine? {
        why := AwaitMode(false);
      }
    }

    /** The program's file fits, and all its transfers from turn `i` on are complete. */
    ghost predicate Transferred(c: Cmd, i: nat)
      requires maxPayload > 0 && Flashable(c)
      reads this
    {
      FitsCmd(c, maxPayload) && Moved(io, i, i + TurnsOf(c, maxPayload))
    }

    /** An answer that must accept, with raw mode on or off. */
    method AwaitMode(raw: bool) returns (why: Why)
      modifies this`heard
      ensures Justified(why) && (why.Fine? || why.NotAcked? || why == if raw then ModeNotOn else ModeNotOff)
      ensures heard == old(heard) + 1
      ensures why.Fine? <==> ModeIs(responses(old(heard)), if raw then 1 else 0)
    {
      var r := WaitResponse();
      if !IsAck(r) {
        return NotAcked;
      }
      if raw {
        why := if r.rawmode != 1 then ModeNotOn else Fine;
      } else {
        why := if r.rawmode != 0 then ModeNotOff else Fine;
      }
    }

    /** `fh_send_rawmode_image`, with its payload buffer. */
    method SendRawmodeImage(file: seq<Byte>, sector: nat, ghost last: nat) returns (why: Why)
      requires maxPayload > 0 && sector > 0 && file != []
      requires last == ios + |Reads(file, 0, 0, maxPayload, sector)|
      modifies this`wire, this`ios, this`transferBytes
      ensures wire <= old(wire) + Datas(Reads(file, 0, 0, maxPayload, sector), sector)
      ensures why.Fine? ==> wire == old(wire) + Datas(Reads(file, 0, 0, maxPayload, sector), sector)
      ensures why.Fine? ==> transferBytes == old(transferBytes) + BytesRead(file, maxPayload, sector)
      ensures StoppedFor(why, Fits(|file|, maxPayload, sector))
      ensures why.Fine? <==> Fits(|file|, maxPayload, sector) && Moved(io, old(ios), last)
      ensures why.Fine? ==> ios == last
    {
      ghost var rs, fits := Reads(file, 0, 0, maxPayload, sector), Fits(|file|, maxPayload, sector);
      ghost var goal, total, first := wire + Datas(rs, sector), transferBytes + |Concat(rs)|, ios;
      var pbuf := new Byte[maxPayload];
      var pos, filesend := 0, 0;
      why := Fine;
      while why.Fine? && filesend < |file|
        invariant pos <= |file| && pos <= filesend
        invariant wire <= goal && StoppedFor(why, fits)
        invariant why.Fine? ==> ImageRemains(file, pos, filesend, sector, goal, total, fits)
        invariant if why.Fine? then TurnsRemain(|Reads(file, pos, filesend, maxPayload, sector)|, first, last)
                  else !fits || !Moved(io, first, last)
        decreases why.Fine?, |file| - pos
      {
        why, pos, filesend := SendPayload(pbuf, file, pos, filesend, sector, goal, total, fits, first, last);
      }
    }

    /** So many turns of the image loop are still to come, and those since `first` were complete. */
    ghost predicate TurnsRemain(turns: nat, first: nat, last: nat)
      reads this
    {
      first <= ios && ios + turns == last && Moved(io, first, ios)
    }

    /** An image is broken off for a failed transfer, or because the file does not fit the payload buffer. */
    ghost predicate StoppedFor(why: Why, fits: bool)
      reads this
    {
      match why
      case Fine => true
      case IoFailed => Justified(IoFailed)
      case Overran => !fits
      case _ => false
    }

    /** What is still to be sent of an image, and to be counted; once anything is sent, the file fits. */
    ghost predicate ImageRemains(file: seq<Byte>, pos: nat, filesend: nat, sector: nat, goal: seq<Msg>, total: nat,
                                 fits: bool)
      requires maxPayload > 0 && sector > 0 && pos <= |file| && pos <= filesend
      reads this
    {
      var rs := Reads(file, pos, filesend, maxPayload, sector);
      && goal == wire + Datas(rs, sector) && total == transferBytes + |Concat(rs)|
      && (if pos == 0 then filesend == 0 else fits && (maxPayload <= pos || pos == |file|))
    }

    /** One turn of the image loop: read, count, pad, write. */
    method SendPayload(pbuf: array<Byte>, file: seq<Byte>, pos: nat, filesend: nat, sector: nat,
                       ghost goal: seq<Msg>, ghost total: nat, ghost fits: bool, ghost first: nat, ghost last: nat)
      returns (why: Why, next: nat, sent: nat)
      requires maxPayload > 0 && sector > 0 && pos <= filesend < |file|
               && ImageRemains(file, pos, filesend, sector, goal, total, fits)
      requires TurnsRemain(|Reads(file, pos, filesend, maxPayload, sector)|, first, last)
      requires pbuf.Length == maxPayload && fits == Fits(|file|, maxPayload, sector)
      modifies this`wire, this`ios, this`transferBytes, pbuf
      ensures pos <= next <= |file| && next <= sent && wire <= goal && StoppedFor(why, fits)
      ensures why.Fine? ==> pos < next && ImageRemains(file, next, sent, sector, goal, total, fits)
      ensures if why.Fine? then TurnsRemain(|Reads(file, next, sent, maxPayload, sector)|, first, last)
              else !fits || !Moved(io, first, last)
    {
      var data, room;
      ghost var left;
      data, next, sent, room, left := NextPayload(file, pos, filesend, sector, goal, total, fits);
      why := MovePayload(pbuf, data, sector, room, fits, left, first, last);
    }

    /** One `fread` and one `fh_write`, with the padding between them. */
    method MovePayload(pbuf: array<Byte>, data: seq<Byte>, sector: nat, room: bool, ghost fits: bool, ghost left: nat,
                       ghost first: nat, ghost last: nat)
      returns (why: Why)
      requires sector > 0 && pbuf.Length == maxPayload && room == fits == HasRoom(data, sector, maxPayload)
      requires TurnsRemain(left + 1, first, last)
      modifies this`wire, this`ios, this`transferBytes, pbuf
      ensures StoppedFor(why, fits) && (why.Fine? ==> fits)
      ensures wire == old(wire) + if why.Fine? then [Data(Padded(data, sector))] else []
      ensures why.Fine? ==> transferBytes == old(transferBytes) + |data|
      ensures if why.Fine? then TurnsRemain(left, first, last) else !fits || !Moved(io, first, last)
    {
      var turn := io(ios);
      ios := ios + 1;
      assert wire + [] == wire;
      if !turn.readOk {
        return IoFailed;
      }
      transferBytes := transferBytes + |data|;
      if !room {
        return Overran;
      }
      var payload := FillBuffer(pbuf, data, sector);
      if !turn.writeOk {
        return IoFailed;
      }
      wire := wire + [Data(payload)];
      why := Fine;
    }

    /** What the next turn reads, where it leads, and whether it fits the payload buffer with its padding. */
    method NextPayload(file: seq<Byte>, pos: nat, filesend: nat, sector: nat, ghost goal: seq<Msg>, ghost total: nat,
                       ghost fits: bool)
      returns (data: seq<Byte>, next: nat, sent: nat, room: bool, ghost left: nat)
      requires maxPayload > 0 && sector > 0 && pos <= filesend < |file| && fits == Fits(|file|, maxPayload, sector)
      requires ImageRemains(file, pos, filesend, sector, goal, total, fits)
      ensures pos < next <= |file| && next <= sent && data == file[pos..next] && (maxPayload <= next || next == |file|)
      ensures room == fits == HasRoom(data, sector, maxPayload)
      ensures var rest := Reads(file, next, sent, maxPayload, sector);
              && goal == (wire + [Data(Padded(data, sector))]) + Datas(rest, sector)
              && total == transferBytes + |data| + |Concat(rest)| && left == |rest|
      ensures |Reads(file, pos, filesend, maxPayload, sector)| == left + 1
    {
      var n := Min(maxPayload, |file| - pos);
      var padded := n + PadLen(n, sector);
      next, sent, room := pos + n, filesend + padded, padded <= maxPayload;
      data := file[pos..next];
      PayloadFits(|file|, pos, maxPayload, sector, n, padded, data, fits);
      PayloadStep(wire, file, pos, filesend, maxPayload, sector, next, sent);
      left := |Reads(file, next, sent, maxPayload, sector)|;
    }

    /** The first two passes, answered up to answer `programs`. */
    method SendPlains(ghost programs: nat) returns (ok: bool)
      requires maxPayload > 0 && AllFlashable(table)
      requires programs == heard + CountTo(table, |table|, VendorKind) + CountTo(table, |table|, EraseKind)
      modifies this`wire, this`heard
      ensures wire <= old(wire) + Pass(table, 0, VendorKind, maxPayload) + Pass(table, 0, EraseKind, maxPayload)
      ensures ok ==>
                wire == old(wire) + Pass(table, 0, VendorKind, maxPayload) + Pass(table, 0, EraseKind, maxPayload)
      ensures !ok ==> Justified(NotAcked)
      ensures ok <==> Acked(responses, old(heard), programs)
      ensures ok ==> heard == programs
    {
      AckedJoin(responses, heard, heard + CountTo(table, |table|, VendorKind), programs);
      ok := SendPlain(VendorKind);
      if ok {
        ok := SendPlain(EraseKind);
      }
    }

    /** The three passes and the reset, whose answer is number `reset`. */
    method SendTable(ghost first: Response, ghost programs: nat, ghost reset: nat) returns (why: Why)
      requires AllFlashable(table) && wire == Greeting(first) && maxPayload == Negotiated(first) && ios == 0
      requires programs == heard + CountTo(table, |table|, VendorKind) + CountTo(table, |table|, EraseKind)
      requires reset == programs + 2 * CountTo(table, |table|, ProgramKind)
      modifies this`wire, this`heard, this`ios, this`transferBytes
      ensures wire <= Session(table, first) && Justified(why)
      ensures why.Fine? ==> wire == Session(table, first)
      ensures why.Fine? ==> transferBytes == old(transferBytes) + TotalRead(table, 0, maxPayload)
      ensures why.Fine? <==> Acked(responses, old(heard), programs)
                             && ProgramsGood(table, maxPayload, responses, programs, io, 0)
                             && responses(reset) != NoResponse
      ensures why.Fine? ==> heard == reset + 1
    {
      SessionParts(table, maxPayload, first, wire);
      var ok := SendPlains(programs);
      if !ok {
        return NotAcked;
      }
      why := SendRest(reset);
    }

    /** The third pass and the reset. */
    method SendRest(ghost reset: nat) returns (why: Why)
      requires maxPayload > 0 && AllFlashable(table) && reset == heard + 2 * CountTo(table, |table|, ProgramKind)
      modifies this`wire, this`heard, this`ios, this`transferBytes
      ensures wire <= old(wire) + Pass(table, 0, ProgramKind, maxPayload) + [Reset] && Justified(why)
      ensures why.Fine? ==> wire == old(wire) + Pass(table, 0, ProgramKind, maxPayload) + [Reset]
      ensures why.Fine? ==> transferBytes == old(transferBytes) + TotalRead(table, 0, maxPayload)
      ensures why.Fine? <==> ProgramsGood(table, maxPayload, responses, old(heard), io, old(ios))
                             && responses(reset) != NoResponse
      ensures why.Fine? ==> heard == reset + 1
    {
      why := SendPrograms();
      if why.Fine? {
        why := SendReset();
      }
    }

    method SendReset() returns (why: Why)
      modifies this`wire, this`heard
      ensures wire == old(wire) + [Reset] && Justified(why) && (why.Fine? || why.NotAcked?)
      ensures heard == old(heard) + 1 && (why.Fine? <==> responses(old(heard)) != NoResponse)
    {
      wire := wire + [Reset];
      var r := WaitResponse();
      why := if r.NoResponse? then NotAcked else Fine;
    }

    /** The session with the target. */
    method Run() returns (why: Why)
      requires AllFlashable(table) && wire == [] && transferBytes == 0 && heard == 0 && ios == 0
      modifies this`wire, this`heard, this`ios, this`transferBytes, this`maxPayload
      ensures Justified(why) && wire <= Session(table, responses(0))
      ensures why.Fine? ==> wire == Session(table, responses(0))
      ensures maxPayload == Negotiated(responses(0)) || why.NotAcked?
      ensures why.Fine? ==> transferBytes == TotalRead(table, 0, maxPayload)
      ensures why.Fine? <==> Good(table, responses, io)
      ensures why.Fine? ==> heard == AllAnswers(table, responses(0))
    {
      ghost var first := responses(0);
      ghost var at := GreetingAnswers(first);
      ghost var programs := at + CountTo(table, |table|, VendorKind) + CountTo(table, |table|, EraseKind);
      ghost var reset := programs + 2 * CountTo(table, |table|, ProgramKind);
      SessionParts(table, Negotiated(first), first, Greeting(first));
      GoodParts(table, responses, io, at, programs, reset);
      var ok := SendCfg();
      if !ok {
        return NotAcked;
      }
      why := SendTable(first, programs, reset);
    }

    /**
     `firehose_main`. Whatever the target answers, what has been sent is the beginning of the planned
     session. A session that ends well has sent it all and counted every byte, and the target has got
     each command once, in order, with exactly its file and zeros; padding leaves the payload buffer
     only if some file does not fit it. It ends well exactly if there are commands, all their files can be
     used, and every answer and transfer is as `Good` asks, and then it has heard just those answers.
    */
    method Flash() returns (r: Outcome)
      requires HaveSectors(table) && wire == [] && transferBytes == 0 && heard == 0 && ios == 0
      modifies this
      ensures r.NoCommands? <==> old(table) == []
      ensures r.NoFile? <==> exists c :: c in old(table) && !Usable(c)
      ensures !r.Ran? ==> wire == [] && heard == 0
      ensures r.Ran? ==> FixedUpTo(old(table), table, |table|) && AllFlashable(table) && allBytes == TotalSize(table, 0)
      ensures r.Ran? ==> Justified(r.why) && wire <= Session(table, responses(0))
      ensures r == Ran(Overran) ==> !AllFit(table, Negotiated(responses(0)))
      ensures r == Ran(Fine) ==> wire == Session(table, responses(0)) && AllFit(table, Negotiated(responses(0)))
      ensures r == Ran(Fine) ==> transferBytes == allBytes && Feed([], wire) == ItemsOf(InOrder(table))
      ensures r.Ran? ==> (r.why.Fine? <==> Good(table, responses, io))
      ensures r == Ran(Fine) ==> heard == AllAnswers(table, responses(0))
      ensures r == Ran(Fine) ==> wire != [] && wire[0] == Configure(8192) && wire[|wire| - 1] == Reset
    {
      if |table| == 0 {
        return NoCommands;
      }
      var ok := Fixup();
      if !ok {
        return NoFile;
      }
      var why := Run();
      r := Ran(why);
      if why.Fine? {
        FittingTotals(table, 0, maxPayload);
        SessionReceived(table, responses(0));
      }
    }
  }

  /** One program's two answers from `at` on and its transfers from turn `i` on are good, and its file fits. */
  ghost predicate ProgramGood(c: Cmd, max: nat, rs: Answers, at: nat, io: nat -> Io, i: nat)
    requires max > 0 && Flashable(c)
  {
    Switches(rs, at) && Moved(io, i, i + TurnsOf(c, max)) && FitsCmd(c, max)
  }

  /** The counts after one more program, and what a bad one means for all. */
  lemma ProgramCounts(t: seq<Cmd>, x: nat, next: nat, max: nat, rs: Answers, at: nat, h: nat, io: nat -> Io,
                      turn: nat, i: nat)
    requires max > 0 && AllFlashable(t) && x < |t| && next == x + 1 && t[x].Program?
    requires h == at + 2 * CountTo(t, x, ProgramKind) && i == turn + TurnsTo(t, x, max)
    requires AllSwitch(rs, at, CountTo(t, x, ProgramKind)) && Moved(io, turn, i)
    ensures CountTo(t, next, ProgramKind) == CountTo(t, x, ProgramKind) + 1
    ensures TurnsTo(t, next, max) == TurnsTo(t, x, max) + TurnsOf(t[x], max)
    ensures t[x] in t && !ProgramGood(t[x], max, rs, h, io, i) ==> !ProgramsGood(t, max, rs, at, io, turn)
    ensures ProgramGood(t[x], max, rs, h, io, i) ==>
              AllSwitch(rs, at, CountTo(t, next, ProgramKind)) && Moved(io, turn, i + TurnsOf(t[x], max))
  {
    var n := CountTo(t, x, ProgramKind);
    AllSwitchStep(rs, at, n, n + 1);
    MovedJoin(io, turn, i, i + TurnsOf(t[x], max));
    CountGrows(t, next, |t|, ProgramKind);
    TurnsGrow(t, next, |t|, max);
    MovedJoin(io, turn, turn + TurnsTo(t, next, max), turn + TurnsTo(t, |t|, max));
  }

  /** Data and its padding fit a buffer. */
  predicate HasRoom(data: seq<Byte>, sector: nat, length: nat)
    requires sector > 0
  {
    |data| + PadLen(|data|, sector) <= length
  }

  /** `fread` and `memset`: the bytes read, and behind them zeros up to a full sector. */
  method FillBuffer(pbuf: array<Byte>, data: seq<Byte>, sector: nat) returns (payload: seq<Byte>)
    requires sector > 0 && HasRoom(data, sector, pbuf.Length)
    modifies pbuf
    ensures payload == Padded(data, sector)
  {
    var n := |data|;
    forall k | 0 <= k < n {
      pbuf[k] := data[k];
    }
    var end := n;
    if n % sector != 0 {
      end := n + (sector - n % sector);
      forall k | n <= k < end {
        pbuf[k] := 0;
      }
    }
    payload := pbuf[..end];
    assert payload == data + Zeros(PadLen(n, sector));
  }

  /** Only the first payload of a file can leave the buffer, and it does exactly if the file does not fit. */
  lemma PayloadFits(size: nat, pos: nat, max: nat, sector: nat, n: nat, padded: nat,
                    data: seq<Byte>, fits: bool)
    requires 0 < sector && 0 < max && pos < size && n == Min(max, size - pos) && padded == n + PadLen(n, sector)
    requires fits == Fits(size, max, sector) && (pos > 0 ==> fits && max <= pos) && |data| == n
    ensures fits == (padded <= max) && fits == HasRoom(data, sector, max)
  {
    if pos == 0 {
      FirstPayload(size, max, sector, n);
    } else {
      PadBelow(n, max, sector);
    }
  }

  /** The messages of a whole session. */
  function Session(t: seq<Cmd>, first: Response): (ms: seq<Msg>)
    requires AllFlashable(t)
  {
    Greeting(first) + Plan(t, Negotiated(first)) + [Reset]
  }

  lemma SessionParts(t: seq<Cmd>, max: nat, first: Response, greeting: seq<Msg>)
    requires AllFlashable(t) && greeting == Greeting(first) && max == Negotiated(first)
    ensures Session(t, first) ==
            greeting + Pass(t, 0, VendorKind, max) + Pass(t, 0, EraseKind, max) + Pass(t, 0, ProgramKind, max) + [Reset]
    ensures greeting <= Session(t, first)
  {
  }

  lemma Prefixes(before: seq<Msg>, now: seq<Msg>, these: seq<Msg>, rest: seq<Msg>)
    requires now <= before + these
    ensures now <= before + (these + rest)
    ensures now == before + these ==> before + (these + rest) == now + rest
  {
    assert before + (these + rest) == (before + these) + rest;
  }

  lemma PayloadStep(wire: seq<Msg>, file: seq<Byte>, pos: nat, filesend: nat, max: nat, sector: nat, next: nat,
                    sent: nat)
    requires 0 < max && 0 < sector && pos <= filesend < |file|
    requires next == pos + Min(max, |file| - pos) && sent == filesend + (next - pos) + PadLen(next - pos, sector)
    ensures var rs, rest := Reads(file, pos, filesend, max, sector), Reads(file, next, sent, max, sector);
            && wire + Datas(rs, sector) == (wire + [Data(Padded(file[pos..next], sector))]) + Datas(rest, sector)
            && |Concat(rs)| == (next - pos) + |Concat(rest)| && |rs| == 1 + |rest|
  {
    ReadsStep(file, pos, filesend, max, sector, next, sent);
    DatasStep(wire, Reads(file, pos, filesend, max, sector), file[pos..next], Reads(file, next, sent, max, sector),
        sector);
  }

  lemma DatasStep(wire: seq<Msg>, rs: seq<seq<Byte>>, first: seq<Byte>, rest: seq<seq<Byte>>, sector: nat)
    requires sector > 0 && rs == [first] + rest
    ensures wire + Datas(rs, sector) == (wire + [Data(Padded(first, sector))]) + Datas(rest, sector)
    ensures |Concat(rs)| == |first| + |Concat(rest)|
  {
    assert rs[1..] == rest;
  }

  lemma SessionReceived(t: seq<Cmd>, first: Response)
    requires AllFlashable(t) && AllFit(t, Negotiated(first))
    ensures Feed([], Session(t, first)) == ItemsOf(InOrder(t))
  {
    var plan := Plan(t, Negotiated(first));
    FeedThree([], Greeting(first), plan, [Reset]);
    PlanIsReceived([], t, Negotiated(first));
    GreetingFeeds(first);
  }

  lemma GreetingFeeds(first: Response)
    ensures Feed([], Greeting(first)) == []
  {
    var none: seq<Msg>, ms := [], Greeting(first);
    if Counters(first) {
      assert ms[1..] == [Configure(first.maxPayload)] && ms[1..][1..] == none;
      assert Feed([], ms[1..]) == Feed([], none);
    } else {
      assert ms[1..] == none;
    }
  }

  /**
   In a table that has been fixed up, a program's sectors are the length of its padded file iff they need no
   more than 32 bits.
  */
  lemma FixedAnnounces(t: seq<Cmd>, t': seq<Cmd>, i: nat)
    requires HaveSectors(t) && FixedUpTo(t, t', |t|) && i < |t'| && t'[i].Program?
    ensures t[i] in t && Flashable(t'[i])
    ensures |ItemOf(t'[i]).data| == t'[i].sectors * t'[i].sector <==>
            Sectors(|t'[i].file.bytes|, t'[i].sector) < 0x1_0000_0000
  {
    assert t[i] in t;
    AnnouncedIff(t'[i].file.bytes, t'[i].sector);
  }
}
