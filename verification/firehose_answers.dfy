/** What a flashing session needs of the target and the disk to succeed: answer by answer, payload by payload. */
module FirehoseAnswers {
  import opened Bytes
  import opened FirehoseImage
  import opened FirehoseFlash

  /** Whether one `fread` and one `fh_write` of the image loop are complete. */
  datatype Io = Io(readOk: bool, writeOk: bool)

  predicate IsAck(r: Response) {
    r.Response? && r.value.ACK?
  }

  /** A refusal that names another payload size. */
  predicate Counters(r: Response) {
    r.Response? && r.value.NAK? && r.maxPayload != 0
  }

  /** The payload size after `fh_send_cfg_cmd`: a refusal that names another size is taken up once. */
  function Negotiated(first: Response): (max: nat)
    ensures max > 0
  {
    if Counters(first) then first.maxPayload else DEFAULT_PAYLOAD
  }

  function Greeting(first: Response): (ms: seq<Msg>) {
    [Configure(DEFAULT_PAYLOAD)] + if Counters(first) then [Configure(first.maxPayload)] else []
  }

  // ---- How much is to be answered and transferred ----

  /** Commands of one kind among the first x. */
  function CountTo(t: seq<Cmd>, x: nat, k: Kind): (n: nat)
    requires x <= |t|
  {
    if x == 0 then 0 else CountTo(t, x - 1, k) + if KindOf(t[x - 1]) == k then 1 else 0
  }

  function TurnsOf(c: Cmd, max: nat): (n: nat)
    requires max > 0 && Flashable(c)
  {
    if c.Program? then |Reads(c.file.bytes, 0, 0, max, c.sector)| else 0
  }

  /** Turns of the image loop for the first x commands. */
  function TurnsTo(t: seq<Cmd>, x: nat, max: nat): (n: nat)
    requires max > 0 && x <= |t| && AllFlashable(t)
  {
    if x == 0 then 0 else TurnsTo(t, x - 1, max) + TurnsOf(t[x - 1], max)
  }

  lemma {:induction false} CountGrows(t: seq<Cmd>, x: nat, y: nat, k: Kind)
    requires x <= y <= |t|
    ensures CountTo(t, x, k) <= CountTo(t, y, k)
  {
    if x < y {
      CountGrows(t, x, y - 1, k);
    }
  }

  lemma {:induction false} TurnsGrow(t: seq<Cmd>, x: nat, y: nat, max: nat)
    requires max > 0 && x <= y <= |t| && AllFlashable(t)
    ensures TurnsTo(t, x, max) <= TurnsTo(t, y, max)
  {
    if x < y {
      TurnsGrow(t, x, y - 1, max);
    }
  }

  /** The kinds make up the table, so a session is answered as often as there are commands, and for programs twice. */
  lemma {:induction false} CountsAddUp(t: seq<Cmd>, x: nat)
    requires x <= |t|
    ensures CountTo(t, x, VendorKind) + CountTo(t, x, EraseKind) + CountTo(t, x, ProgramKind) == x
  {
    if x > 0 {
      CountsAddUp(t, x - 1);
    }
  }

  // ---- What must be answered ----

  type Answers = nat -> Response

  /** The answers from `lo` to `hi` all accept. */
  ghost predicate Acked(rs: Answers, lo: nat, hi: nat) {
    forall i: nat | lo <= i < hi :: IsAck(rs(i))
  }

  /** The answer accepts, with this raw mode. */
  predicate ModeIs(r: Response, rawmode: nat) {
    IsAck(r) && r.rawmode == rawmode
  }

  /** Two answers accept, the first with raw mode on, the second with raw mode off. */
  predicate Switches(rs: Answers, at: nat) {
    ModeIs(rs(at), 1) && ModeIs(rs(at + 1), 0)
  }

  /** So do n pairs of answers from `at` on. */
  ghost predicate AllSwitch(rs: Answers, at: nat, n: nat) {
    forall j: nat | j < n :: Switches(rs, at + 2 * j)
  }

  /** Turns `lo` to `hi` of the image loop read and write all they should. */
  ghost predicate Moved(io: nat -> Io, lo: nat, hi: nat) {
    forall i: nat | lo <= i < hi :: io(i) == Io(true, true)
  }

  /** The answers to the configuration: one, or two if the first counters. */
  function GreetingAnswers(first: Response): (n: nat) {
    if Counters(first) then 2 else 1
  }

  ghost predicate GreetingGood(rs: Answers) {
    IsAck(rs(GreetingAnswers(rs(0)) - 1))
  }

  /** The programs of the table, answered from `at` on and transferred from turn `ios` on. */
  ghost predicate ProgramsGood(t: seq<Cmd>, max: nat, rs: Answers, at: nat, io: nat -> Io, ios: nat)
    requires max > 0 && AllFlashable(t)
  {
    && AllSwitch(rs, at, CountTo(t, |t|, ProgramKind))
    && Moved(io, ios, ios + TurnsTo(t, |t|, max))
    && AllFit(t, max)
  }

  /** What a whole session needs of the answers and the transfers. */
  ghost predicate Good(t: seq<Cmd>, rs: Answers, io: nat -> Io)
    requires AllFlashable(t)
  {
    var at := GreetingAnswers(rs(0));
    var programs := at + CountTo(t, |t|, VendorKind) + CountTo(t, |t|, EraseKind);
    && GreetingGood(rs)
    && Acked(rs, at, programs)
    && ProgramsGood(t, Negotiated(rs(0)), rs, programs, io, 0)
    && rs(programs + 2 * CountTo(t, |t|, ProgramKind)) != NoResponse
  }

  /** How many answers a session hears that ends well. */
  function AllAnswers(t: seq<Cmd>, first: Response): (n: nat) {
    GreetingAnswers(first) + CountTo(t, |t|, VendorKind) + CountTo(t, |t|, EraseKind)
    + 2 * CountTo(t, |t|, ProgramKind) + 1
  }

  // ---- Steps ----

  lemma AckedJoin(rs: Answers, lo: nat, mid: nat, hi: nat)
    requires lo <= mid <= hi
    ensures Acked(rs, lo, hi) <==> Acked(rs, lo, mid) && Acked(rs, mid, hi)
  {
  }

  lemma MovedJoin(io: nat -> Io, lo: nat, mid: nat, hi: nat)
    requires lo <= mid <= hi
    ensures Moved(io, lo, hi) <==> Moved(io, lo, mid) && Moved(io, mid, hi)
  {
  }

  lemma AllSwitchStep(rs: Answers, at: nat, n: nat, next: nat)
    requires next == n + 1
    ensures AllSwitch(rs, at, next) <==> AllSwitch(rs, at, n) && Switches(rs, at + 2 * n)
  {
  }

  /** The greeting offers 8192 bytes, then what a refusal names, and the last offer is what is agreed on. */
  lemma GreetingMeans(first: Response)
    ensures var counters := first.Response? && first.value == NAK && first.maxPayload > 0;
            && Greeting(first) == [Configure(8192)] + (if counters then [Configure(first.maxPayload)] else [])
            && Negotiated(first) == (if counters then first.maxPayload else 8192)
            && |Greeting(first)| == GreetingAnswers(first)
  {
  }

  lemma AckMeans(r: Response)
    ensures IsAck(r) <==> r.Response? && r.value == ACK
    ensures Counters(r) <==> r.Response? && r.value == NAK && r.maxPayload > 0
  {
  }

  lemma SwitchesMeans(rs: Answers, at: nat)
    ensures Switches(rs, at) <==>
            && rs(at).Response? && rs(at).value == ACK && rs(at).rawmode == 1
            && rs(at + 1).Response? && rs(at + 1).value == ACK && rs(at + 1).rawmode == 0
  {
  }

  /**
   Where in the answers a session's parts begin, for a table with so many programs: the passes, the
   programs, the reset.
  */
  datatype Parts = Parts(passes: nat, programs: nat, reset: nat)

  function PartsOf(t: seq<Cmd>, first: Response): (p: Parts)
    ensures p.passes == if first.Response? && first.value == NAK && first.maxPayload > 0 then 2 else 1
    ensures p.programs == p.passes + |t| - CountTo(t, |t|, ProgramKind)
    ensures p.reset == p.programs + 2 * CountTo(t, |t|, ProgramKind)
  {
    CountsAddUp(t, |t|);
    var passes := GreetingAnswers(first);
    var programs := passes + |t| - CountTo(t, |t|, ProgramKind);
    Parts(passes, programs, programs + 2 * CountTo(t, |t|, ProgramKind))
  }

  /**
   A session in the plain terms of its answers: which must accept, with which raw mode, how many there are;
   besides, every transfer is complete, every file fits, and the reset is answered.
  */
  lemma GoodMeans(t: seq<Cmd>, rs: Answers, io: nat -> Io, p: Parts)
    requires AllFlashable(t) && p == PartsOf(t, rs(0))
    ensures AllAnswers(t, rs(0)) == p.reset + 1
    ensures Good(t, rs, io) <==>
              && IsAck(rs(p.passes - 1))
              && Acked(rs, p.passes, p.programs)
              && AllSwitch(rs, p.programs, CountTo(t, |t|, ProgramKind))
              && Moved(io, 0, TurnsTo(t, |t|, Negotiated(rs(0))))
              && AllFit(t, Negotiated(rs(0)))
              && rs(p.reset) != NoResponse
  {
    CountsAddUp(t, |t|);
    GoodParts(t, rs, io, p.passes, p.programs, p.reset);
  }

  lemma GoodParts(t: seq<Cmd>, rs: Answers, io: nat -> Io, at: nat, programs: nat, reset: nat)
    requires AllFlashable(t) && at == GreetingAnswers(rs(0))
    requires programs == at + CountTo(t, |t|, VendorKind) + CountTo(t, |t|, EraseKind)
    requires reset == programs + 2 * CountTo(t, |t|, ProgramKind)
    ensures Good(t, rs, io) <==>
              && GreetingGood(rs)
              && Acked(rs, at, programs)
              && ProgramsGood(t, Negotiated(rs(0)), rs, programs, io, 0)
              && rs(reset) != NoResponse
    ensures AllAnswers(t, rs(0)) == reset + 1
  {
  }
}
