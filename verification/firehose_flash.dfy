/** The flashing session of `firehose_main`: negotiation, the three passes over the command table, the counters. */
module FirehoseFlash {
  import opened Arith
  import opened Bytes
  import opened FirehoseImage

  const DEFAULT_PAYLOAD: nat := 8 * 1024

  datatype File = Missing | Readable(bytes: seq<Byte>)

  /** A command parsed from the rawprogram file. `sectors` of a program is filled in before flashing. */
  datatype Cmd = Vendor(text: string) | Erase(num: nat, start: nat) | Program(file: File, sector: nat, sectors: nat)

  datatype Kind = VendorKind | EraseKind | ProgramKind

  function KindOf(c: Cmd): (k: Kind) {
    match c
    case Vendor(_) => VendorKind
    case Erase(_, _) => EraseKind
    case Program(_, _, _) => ProgramKind
  }

  /** What goes out: the configuration with its payload size, a command, a payload of image data, the reset. */
  datatype Msg = Configure(max: nat) | Command(cmd: Cmd) | Data(bytes: seq<Byte>) | Reset

  datatype Value = ACK | NAK | OtherValue

  /** The next response that is not a log message, or none in time. */
  datatype Response = NoResponse | Response(value: Value, rawmode: nat, maxPayload: nat)

  // ---- What a run sends ----

  function Datas(rs: seq<seq<Byte>>, sector: nat): (ms: seq<Msg>)
    requires sector > 0
  {
    if rs == [] then [] else [Data(Padded(rs[0], sector))] + Datas(rs[1..], sector)
  }

  /** The bytes of the data messages. */
  function Payload(ms: seq<Msg>): (s: seq<Byte>) {
    if ms == [] then [] else (if ms[0].Data? then ms[0].bytes else []) + Payload(ms[1..])
  }

  lemma {:induction false} DatasCarryImage(rs: seq<seq<Byte>>, sector: nat)
    requires sector > 0
    ensures Payload(Datas(rs, sector)) == Concat(PadAll(rs, sector))
  {
    if rs != [] {
      DatasCarryImage(rs[1..], sector);
      var rest := Datas(rs[1..], sector);
      assert ([Data(Padded(rs[0], sector))] + rest)[1..] == rest;
    }
  }

  /** A program command that can be flashed: its file can be read, is not empty and has a sector size. */
  predicate Flashable(c: Cmd) {
    c.Program? ==> c.sector > 0 && c.file.Readable? && c.file.bytes != []
  }

  function Messages(c: Cmd, max: nat): (ms: seq<Msg>)
    requires max > 0 && Flashable(c)
  {
    [Command(c)] + if c.Program? then Datas(Reads(c.file.bytes, 0, 0, max, c.sector), c.sector) else []
  }

  predicate AllFlashable(t: seq<Cmd>) {
    forall c :: c in t ==> Flashable(c)
  }

  /** One pass over the table from entry x on: the commands of one kind, programs with their images. */
  function Pass(t: seq<Cmd>, x: nat, k: Kind, max: nat): (ms: seq<Msg>)
    requires max > 0 && x <= |t| && AllFlashable(t)
    decreases |t| - x
  {
    if x == |t| then []
    else (if KindOf(t[x]) == k then Messages(t[x], max) else []) + Pass(t, x + 1, k, max)
  }

  function Plan(t: seq<Cmd>, max: nat): (ms: seq<Msg>)
    requires max > 0 && AllFlashable(t)
  {
    Pass(t, 0, VendorKind, max) + Pass(t, 0, EraseKind, max) + Pass(t, 0, ProgramKind, max)
  }

  // ---- What the plan means ----

  function Commands(ms: seq<Msg>): (cs: seq<Cmd>) {
    if ms == [] then [] else (if ms[0].Command? then [ms[0].cmd] else []) + Commands(ms[1..])
  }

  function OfKind(t: seq<Cmd>, k: Kind): (cs: seq<Cmd>) {
    if t == [] then [] else (if KindOf(t[0]) == k then [t[0]] else []) + OfKind(t[1..], k)
  }

  lemma {:induction false} CommandsAppend(a: seq<Msg>, b: seq<Msg>)
    ensures Commands(a + b) == Commands(a) + Commands(b)
  {
    if a == [] {
      assert a + b == b;
    } else {
      var rest, first := a[1..], if a[0].Command? then [a[0].cmd] else [];
      CommandsAppend(rest, b);
      assert (a + b)[1..] == rest + b;
      assert first + (Commands(rest) + Commands(b)) == (first + Commands(rest)) + Commands(b);
    }
  }

  lemma {:induction false} DatasHaveNoCommands(rs: seq<seq<Byte>>, sector: nat)
    requires sector > 0
    ensures Commands(Datas(rs, sector)) == []
  {
    if rs != [] {
      DatasHaveNoCommands(rs[1..], sector);
    }
  }

  lemma MessagesCommand(c: Cmd, max: nat)
    requires max > 0 && Flashable(c)
    ensures Commands(Messages(c, max)) == [c]
  {
    if c.Program? {
      DatasHaveNoCommands(Reads(c.file.bytes, 0, 0, max, c.sector), c.sector);
    }
    assert Messages(c, max)[0] == Command(c);
  }

  lemma {:induction false} PassCommands(t: seq<Cmd>, x: nat, k: Kind, max: nat)
    requires max > 0 && x <= |t| && AllFlashable(t)
    ensures Commands(Pass(t, x, k, max)) == OfKind(t[x..], k)
    decreases |t| - x
  {
    if x < |t| {
      var now := if KindOf(t[x]) == k then Messages(t[x], max) else [];
      PassCommands(t, x + 1, k, max);
      CommandsAppend(now, Pass(t, x + 1, k, max));
      MessagesCommand(t[x], max);
      assert t[x..][1..] == t[x + 1..];
    }
  }

  lemma KindCounts(t: seq<Cmd>, c: Cmd, rest: seq<Cmd>, k: Kind)
    requires t != [] && c == t[0] && rest == t[1..]
    ensures multiset(OfKind(t, k)) == (if KindOf(c) == k then multiset{c} else multiset{}) + multiset(OfKind(rest, k))
  {
    if KindOf(c) == k {
      assert multiset([c] + OfKind(rest, k)) == multiset{c} + multiset(OfKind(rest, k));
    } else {
      assert [] + OfKind(rest, k) == OfKind(rest, k);
    }
  }

  lemma {:induction false} KindsPartition(t: seq<Cmd>)
    ensures multiset(OfKind(t, VendorKind) + OfKind(t, EraseKind) + OfKind(t, ProgramKind)) == multiset(t)
  {
    if t != [] {
      var c, rest := t[0], t[1..];
      KindsPartition(rest);
      assert t == [c] + rest;
      assert multiset(t) == multiset{c} + multiset(rest);
      KindCounts(t, c, rest, VendorKind);
      KindCounts(t, c, rest, EraseKind);
      KindCounts(t, c, rest, ProgramKind);
    }
  }

  /** Every command of the table goes out once: vendor commands, then erases, then programs, each in table order. */
  lemma PlanSendsEachOnce(t: seq<Cmd>, max: nat)
    requires max > 0 && AllFlashable(t)
    ensures Commands(Plan(t, max)) == InOrder(t)
    ensures multiset(Commands(Plan(t, max))) == multiset(t)
  {
    var v, e, p := Pass(t, 0, VendorKind, max), Pass(t, 0, EraseKind, max), Pass(t, 0, ProgramKind, max);
    assert t[0..] == t;
    PassCommands(t, 0, VendorKind, max);
    PassCommands(t, 0, EraseKind, max);
    PassCommands(t, 0, ProgramKind, max);
    CommandsAppend(v, e);
    CommandsAppend(v + e, p);
    KindsPartition(t);
  }

  /** The number of sectors a program command announces, a 32-bit field. */
  function Announced(n: nat, sector: nat): (k: nat)
    requires sector > 0
  {
    Sectors(n, sector) % 0x1_0000_0000
  }

  /** The announced sectors are the length of the padded file exactly if their number needs no more than 32 bits. */
  lemma AnnouncedIff(file: seq<Byte>, sector: nat)
    requires sector > 0
    ensures Announced(|file|, sector) * sector == |Padded(file, sector)| <==> Sectors(|file|, sector) < 0x1_0000_0000
  {
    var k, a := Sectors(|file|, sector), Announced(|file|, sector);
    SectorsHoldImage(file, sector);
    if a < k {
      AtLeastOnce(k - a, sector);
      Distribute(k - a, a, sector);
    }
  }

  /** Each program is followed by its file and zeros, as long as the announced sectors. */
  lemma ProgramSendsFile(c: Cmd, max: nat)
    requires max > 0 && c.Program? && Flashable(c) && Fits(|c.file.bytes|, max, c.sector)
    requires c.sectors == Announced(|c.file.bytes|, c.sector)
    ensures Payload(Messages(c, max)) == Padded(c.file.bytes, c.sector)
    ensures |Payload(Messages(c, max))| == c.sectors * c.sector <==> Sectors(|c.file.bytes|, c.sector) < 0x1_0000_0000
  {
    var rs := Reads(c.file.bytes, 0, 0, max, c.sector);
    DatasCarryImage(rs, c.sector);
    ImageIsPaddedFile(c.file.bytes, max, c.sector);
    AnnouncedIff(c.file.bytes, c.sector);
    assert Messages(c, max)[1..] == Datas(rs, c.sector);
  }

  // ---- What the target gets ----

  /** A command and the image data that came with it. */
  datatype Item = Item(cmd: Cmd, data: seq<Byte>)

  /** A session as the target reads it, on from what it has got: data belongs to the command before it. */
  function Feed(items: seq<Item>, ms: seq<Msg>): (r: seq<Item>)
    decreases |ms|
  {
    if ms == [] then items else Feed(Take(items, ms[0]), ms[1..])
  }

  function Take(items: seq<Item>, m: Msg): (r: seq<Item>) {
    match m
    case Command(c) => items + [Item(c, [])]
    case Data(bytes) =>
      if items == [] then items
      else
        var last := items[|items| - 1];
        items[..|items| - 1] + [Item(last.cmd, last.data + bytes)]
    case _ => items
  }

  lemma {:induction false} FeedAppend(items: seq<Item>, a: seq<Msg>, b: seq<Msg>, ms: seq<Msg>)
    requires ms == a + b
    ensures Feed(items, ms) == Feed(Feed(items, a), b)
    decreases |a|
  {
    if a == [] {
      assert ms == b;
    } else {
      assert ms[1..] == a[1..] + b;
      FeedAppend(Take(items, a[0]), a[1..], b, ms[1..]);
    }
  }

  lemma TakeData(items: seq<Item>, c: Cmd, d: seq<Byte>, bytes: seq<Byte>)
    ensures Take(items + [Item(c, d)], Data(bytes)) == items + [Item(c, d + bytes)]
  {
    assert (items + [Item(c, d)])[..|items|] == items;
  }

  lemma {:induction false} FeedDatas(items: seq<Item>, c: Cmd, d: seq<Byte>, rs: seq<seq<Byte>>, sector: nat,
                                     all: seq<Byte>)
    requires sector > 0 && all == d + Concat(PadAll(rs, sector))
    ensures Feed(items + [Item(c, d)], Datas(rs, sector)) == items + [Item(c, all)]
    decreases |rs|
  {
    if rs == [] {
      assert all == d;
    } else {
      var p, rest := Padded(rs[0], sector), Concat(PadAll(rs[1..], sector));
      assert PadAll(rs, sector)[1..] == PadAll(rs[1..], sector);
      assert all == (d + p) + rest;
      assert Datas(rs, sector)[1..] == Datas(rs[1..], sector);
      TakeData(items, c, d, p);
      FeedDatas(items, c, d + p, rs[1..], sector, all);
    }
  }

  /** What the target should get for a command: for a program its file and zeros up to a full sector. */
  function ItemOf(c: Cmd): (i: Item)
    requires Flashable(c)
  {
    Item(c, if c.Program? then Padded(c.file.bytes, c.sector) else [])
  }

  function ItemsOf(cs: seq<Cmd>): (items: seq<Item>)
    requires AllFlashable(cs)
    ensures |items| == |cs|
  {
    if cs == [] then [] else [ItemOf(cs[0])] + ItemsOf(cs[1..])
  }

  predicate FitsCmd(c: Cmd, max: nat)
    requires Flashable(c)
  {
    c.Program? ==> Fits(|c.file.bytes|, max, c.sector)
  }

  predicate AllFit(t: seq<Cmd>, max: nat)
    requires AllFlashable(t)
  {
    forall c :: c in t ==> FitsCmd(c, max)
  }

  lemma FeedMessages(items: seq<Item>, c: Cmd, max: nat)
    requires max > 0 && Flashable(c) && FitsCmd(c, max)
    ensures Feed(items, Messages(c, max)) == items + [ItemOf(c)]
  {
    var rest := Messages(c, max)[1..];
    assert Feed(items, Messages(c, max)) == Feed(items + [Item(c, [])], rest);
    if c.Program? {
      var rs, all := Reads(c.file.bytes, 0, 0, max, c.sector), Padded(c.file.bytes, c.sector);
      ImageIsPaddedFile(c.file.bytes, max, c.sector);
      assert all == [] + Concat(PadAll(rs, c.sector));
      assert rest == Datas(rs, c.sector);
      FeedDatas(items, c, [], rs, c.sector, all);
    } else {
      assert rest == [];
    }
  }

  lemma {:induction false} OfKindFlashable(t: seq<Cmd>, k: Kind)
    requires AllFlashable(t)
    ensures AllFlashable(OfKind(t, k))
  {
    if t != [] {
      OfKindFlashable(t[1..], k);
    }
  }

  lemma {:induction false} FeedPass(items: seq<Item>, t: seq<Cmd>, x: nat, rest: seq<Cmd>, k: Kind, max: nat)
    requires max > 0 && x <= |t| && rest == t[x..] && AllFlashable(t) && AllFit(t, max) && AllFlashable(OfKind(rest, k))
    ensures Feed(items, Pass(t, x, k, max)) == items + ItemsOf(OfKind(rest, k))
    decreases |rest|
  {
    if x < |t| {
      var next, c, later := x + 1, t[x], rest[1..];
      assert c in t && later == t[next..];
      OfKindFlashable(rest, k);
      OfKindFlashable(later, k);
      if KindOf(c) == k {
        FeedMessages(items, c, max);
        FeedAppend(items, Messages(c, max), Pass(t, next, k, max), Pass(t, x, k, max));
        FeedPass(items + [ItemOf(c)], t, next, later, k, max);
        ItemsOne(c, OfKind(later, k), OfKind(rest, k), items);
      } else {
        assert Pass(t, x, k, max) == Pass(t, next, k, max) && OfKind(rest, k) == OfKind(later, k);
        FeedPass(items, t, next, later, k, max);
      }
    }
  }

  lemma ItemsOne(c: Cmd, cs: seq<Cmd>, all: seq<Cmd>, items: seq<Item>)
    requires AllFlashable(all) && all == [c] + cs
    ensures AllFlashable(cs) && Flashable(c) && items + ItemsOf(all) == (items + [ItemOf(c)]) + ItemsOf(cs)
  {
    assert all[0] in all && all[1..] == cs;
  }

  lemma {:induction false} ItemsAppend(a: seq<Cmd>, b: seq<Cmd>, ab: seq<Cmd>)
    requires AllFlashable(ab) && ab == a + b
    ensures AllFlashable(a) && AllFlashable(b) && ItemsOf(ab) == ItemsOf(a) + ItemsOf(b)
    decreases |a|
  {
    assert forall c :: c in a || c in b ==> c in ab;
    if a == [] {
      assert ab == b;
    } else {
      var rest, items := a[1..], ItemsOf(b);
      assert ab[1..] == rest + b;
      ItemsAppend(rest, b, ab[1..]);
      Associate([ItemOf(a[0])], ItemsOf(rest), items);
    }
  }

  /** The commands of a table in the order in which they are sent. */
  function InOrder(t: seq<Cmd>): (cs: seq<Cmd>)
    ensures AllFlashable(t) ==> AllFlashable(cs)
  {
    OfKindsAre(t);
    OfKind(t, VendorKind) + OfKind(t, EraseKind) + OfKind(t, ProgramKind)
  }

  lemma OfKindsAre(t: seq<Cmd>)
    ensures AllFlashable(t) ==>
              AllFlashable(OfKind(t, VendorKind)) && AllFlashable(OfKind(t, EraseKind))
                  && AllFlashable(OfKind(t, ProgramKind))
  {
    if AllFlashable(t) {
      OfKindFlashable(t, VendorKind);
      OfKindFlashable(t, EraseKind);
      OfKindFlashable(t, ProgramKind);
    }
  }

  /** From the plan of a table whose programs all fit, the target gets every command with exactly its file and zeros. */
  lemma PlanIsReceived(items: seq<Item>, t: seq<Cmd>, max: nat)
    requires max > 0 && AllFlashable(t) && AllFit(t, max)
    ensures Feed(items, Plan(t, max)) == items + ItemsOf(InOrder(t))
  {
    var v, e, p := Pass(t, 0, VendorKind, max), Pass(t, 0, EraseKind, max), Pass(t, 0, ProgramKind, max);
    OfKindsAre(t);
    WholePass(items, t, VendorKind, max, v);
    var afterV := items + ItemsOf(OfKind(t, VendorKind));
    WholePass(afterV, t, EraseKind, max, e);
    var afterE := afterV + ItemsOf(OfKind(t, EraseKind));
    WholePass(afterE, t, ProgramKind, max, p);
    FeedThree(items, v, e, p);
    ItemsThree(items, OfKind(t, VendorKind), OfKind(t, EraseKind), OfKind(t, ProgramKind), InOrder(t));
  }

  lemma WholePass(items: seq<Item>, t: seq<Cmd>, k: Kind, max: nat, ms: seq<Msg>)
    requires max > 0 && AllFlashable(t) && AllFit(t, max) && ms == Pass(t, 0, k, max)
    ensures AllFlashable(OfKind(t, k)) && Feed(items, ms) == items + ItemsOf(OfKind(t, k))
  {
    assert t[0..] == t;
    OfKindFlashable(t, k);
    FeedPass(items, t, 0, t, k, max);
  }

  lemma ItemsThree(items: seq<Item>, a: seq<Cmd>, b: seq<Cmd>, c: seq<Cmd>, abc: seq<Cmd>)
    requires AllFlashable(abc) && abc == a + b + c
    ensures AllFlashable(a) && AllFlashable(b) && AllFlashable(c)
    ensures items + ItemsOf(a) + ItemsOf(b) + ItemsOf(c) == items + ItemsOf(abc)
  {
    var ab := a + b;
    ItemsAppend(ab, c, abc);
    ItemsAppend(a, b, ab);
    Regroup(items, ItemsOf(a), ItemsOf(b), ItemsOf(c));
  }

  lemma Associate<T>(x: seq<T>, y: seq<T>, z: seq<T>)
    ensures x + (y + z) == (x + y) + z
  {
  }

  lemma Regroup<T>(w: seq<T>, x: seq<T>, y: seq<T>, z: seq<T>)
    ensures w + x + y + z == w + ((x + y) + z)
  {
  }

  lemma FeedThree(items: seq<Item>, a: seq<Msg>, b: seq<Msg>, c: seq<Msg>)
    ensures Feed(items, a + b + c) == Feed(Feed(Feed(items, a), b), c)
  {
    FeedAppend(items, a + b, c, a + b + c);
    FeedAppend(items, a, b, a + b);
  }

  // ---- Progress counters ----

  function SizeOf(c: Cmd): (n: nat) {
    if c.Program? && c.file.Readable? then |c.file.bytes| else 0
  }

  function TotalSize(t: seq<Cmd>, x: nat): (n: nat)
    requires x <= |t|
    decreases |t| - x
  {
    if x == |t| then 0 else SizeOf(t[x]) + TotalSize(t, x + 1)
  }

  /** The bytes to transfer, command by command. */
  lemma {:induction false} TotalAppend(t: seq<Cmd>, c: Cmd, x: nat)
    requires x <= |t|
    ensures TotalSize(t + [c], x) == TotalSize(t, x) + if c.Program? && c.file.Readable? then |c.file.bytes| else 0
    decreases |t| - x
  {
    if x < |t| {
      TotalAppend(t, c, x + 1);
    }
  }

  function ReadOf(c: Cmd, max: nat): (n: nat)
    requires max > 0 && Flashable(c)
  {
    if c.Program? then BytesRead(c.file.bytes, max, c.sector) else 0
  }

  function TotalRead(t: seq<Cmd>, x: nat, max: nat): (n: nat)
    requires max > 0 && x <= |t| && AllFlashable(t)
    decreases |t| - x
  {
    if x == |t| then 0 else ReadOf(t[x], max) + TotalRead(t, x + 1, max)
  }

  lemma {:induction false} FittingTotals(t: seq<Cmd>, x: nat, max: nat)
    requires max > 0 && x <= |t| && AllFlashable(t) && AllFit(t, max)
    ensures TotalRead(t, x, max) == TotalSize(t, x)
    decreases |t| - x
  {
    if x < |t| {
      FittingTotals(t, x + 1, max);
      assert t[x] in t;
      if t[x].Program? {
        ImageIsPaddedFile(t[x].file.bytes, max, t[x].sector);
      }
    }
  }
}
