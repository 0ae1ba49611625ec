/**
 What a step of the host does, field by field and in terms of plain states, codes and flags: when the power
 state moves, when the wake doorbell is set and cleared, when a channel's doorbell is rung, which buffers are
 taken, and where each state change leads.
*/
module HostLaws {
  import opened Rings
  import opened ChannelSpec
  import opened PmStates
  import opened WakeSpec
  import opened HostSpec
  import opened HostInvariant
  import opened HostSteps
  import opened HostTheorems

  // ---- The power state ----

  /** Each step's move of the power state, by the states it starts from. */
  ghost function PmAfter(pm: Pm, a: Action): (r: Pm) {
    match a
    case PmMove(t) =>
      (match t
       case SysErrDetect =>
         if pm.Por? || pm.M0? || pm.M2? || pm.M3Enter? || pm.M3? || pm.M3Exit? || pm.FwDlErr? then t else pm
       case SysErrProcess => if pm.SysErrDetect? then t else pm
       case ShutdownProcess => if pm.Disable? then pm else t
       case LdErrFatal => if pm.Disable? then pm else t
       case FwDlErr => if pm.Por? || pm.M0? then t else pm
       case Disable => if pm.Por? || pm.ShutdownProcess? then t else pm
       case _ => pm)
    case PanicDump => LdErrFatal
    case PowerUp => Disable
    case PowerUpPor => Por
    case BeginReady => if pm.Disable? || pm.SysErrProcess? then Por else pm
    case BeginM0 => if pm.Por? || pm.M2? || pm.M3Exit? then M0 else pm
    case EnterM2 => if pm.M0? then M2 else pm
    case EnterM3 => if pm.M0? then M3Enter else pm
    case ReachM3 => if pm.M3Enter? then M3 else pm
    case ExitM3 => if pm.M3? then M3Exit else pm
    case _ => pm
  }

  lemma PmMoves(pm: Pm, t: Pm)
    requires t.SysErrDetect? || t.SysErrProcess? || t.ShutdownProcess? || t.LdErrFatal? || t.FwDlErr? || t.Disable?
    ensures TrySet(pm, t) == PmAfter(pm, PmMove(t))
  {
  }

  lemma PmFollows(cfg: Config, h: Host, a: Action, h': Host)
    requires Steps(cfg, h, a, h')
    ensures h'.pm == PmAfter(h.pm, a)
  {
    if a.PmMove? {
      PmMoves(h.pm, a.target);
    }
  }

  /** On the state word: into the low-power states and back, and out of an error by shutdown and a new start. */
  lemma WordCycles()
    ensures TrySetWord(0x1, 0x2) == 0x2 && TrySetWord(0x2, 0x4) == 0x4
    ensures TrySetWord(0x4, 0x8) == 0x8 && TrySetWord(0x8, 0x4) == 0x4
    ensures TrySetWord(0x4, 0x10) == 0x10 && TrySetWord(0x10, 0x20) == 0x20
    ensures TrySetWord(0x20, 0x40) == 0x40 && TrySetWord(0x40, 0x4) == 0x4
    ensures TrySetWord(0x100, 0x200) == 0x200 && TrySetWord(0x200, 0x2) == 0x2
    ensures TrySetWord(0x800, 0x400) == 0x400 && TrySetWord(0x400, 0x1) == 0x1
  {
  }

  // ---- The wake doorbell ----

  /** States in which a forced vote rings the wake doorbell and the last vote given back clears it. */
  ghost predicate Wakeable(pm: Pm) {
    pm.M0? || pm.M2? || pm.M3Exit?
  }

  ghost predicate Errored(pm: Pm) {
    pm.FwDlErr? || pm.SysErrDetect? || pm.SysErrProcess? || pm.ShutdownProcess? || pm.LdErrFatal?
  }

  /** A queue call gets past its checks. */
  ghost predicate PastChecks(cfg: Config, h: Host, a: Action)
    requires Shape(cfg, h)
  {
    && (a.QueueBuf? || a.QueueSkb?) && a.c < |h.chans|
    && !Errored(h.pm) && |h.chans[a.c].accepted| - |h.chans[a.c].delivered| < cfg.chans[a.c].elements - 1
  }

  /** It queues: past its checks, and the buffer could be mapped. */
  ghost predicate Queues(cfg: Config, h: Host, a: Action)
    requires Shape(cfg, h)
  {
    PastChecks(cfg, h, a) && a.mapOk
  }

  /** A step that toggles the wake doorbell where M2 doorbells are not allowed. */
  ghost predicate Toggles(cfg: Config, h: Host, a: Action)
    requires Shape(cfg, h)
  {
    cfg.m2NoDb && (a.WakeToggle? || (a.QueueSkb? && PastChecks(cfg, h, a)) || (a.QueueBuf? && Queues(cfg, h, a)))
  }

  /** When the wake doorbell is set after a step. */
  ghost predicate AwakeAfter(cfg: Config, h: Host, a: Action)
    requires Shape(cfg, h) && Guard(cfg, h, a)
  {
    var on, count := h.wake.asserted, h.wake.count;
    match a
    case WakeM0 => on || Wakeable(h.pm)
    case BeginGetSync => on || Wakeable(h.pm)
    case DeviceGet(_) => on || Wakeable(h.pm)
    case KickM2 => on || Wakeable(h.pm)
    case HoldForSuspend => on || (h.pm.M2? && count == 0)
    case EndM0 => on && !(count == 1 && Wakeable(h.pm))
    case ReleaseSuspend => on && !(count == 1 && Wakeable(h.pm))
    case AbandonGetSync => on && !(count == 1 && Wakeable(h.pm))
    case DevicePut(_) => on && !(count == 1 && Wakeable(h.pm))
    case RemoveDevice(d) => on && !(0 < h.votes[d] == count && Wakeable(h.pm))
    case FinishReady(wakeDb) => on && (!wakeDb || h.pm.Disable? || h.pm.M3? || h.pm.LdErrFatal?)
    case _ => on || (Toggles(cfg, h, a) && h.pm.M2? && count == 0)
  }

  ghost function CountAfter(h: Host, a: Action): (count: int)
    requires a.RemoveDevice? ==> a.dev < |h.votes|
  {
    match a
    case WakeM0 => h.wake.count + 1
    case BeginGetSync => h.wake.count + 1
    case DeviceGet(_) => h.wake.count + 1
    case HoldForSuspend => h.wake.count + 1
    case EndM0 => h.wake.count - 1
    case ReleaseSuspend => h.wake.count - 1
    case AbandonGetSync => h.wake.count - 1
    case DevicePut(_) => h.wake.count - 1
    case RemoveDevice(d) => h.wake.count - h.votes[d]
    case PowerUp => 0
    case _ => h.wake.count
  }

  /** The doorbell writes of a step: one if the doorbell changes; register initialisation forgets them all. */
  ghost function WritesAfter(cfg: Config, h: Host, a: Action): (log: seq<bool>)
    requires Shape(cfg, h) && Guard(cfg, h, a)
  {
    if a.FinishReady? && a.wakeDb && !h.pm.Disable? && !h.pm.M3? && !h.pm.LdErrFatal? then []
    else if AwakeAfter(cfg, h, a) == h.wake.asserted then h.wake.log
    else h.wake.log + [AwakeAfter(cfg, h, a)]
  }

  /** Giving back n of at least n votes clears the doorbell exactly if they are all there are. */
  lemma {:induction false} PutAllClears(w: Wake, pm: Pm, n: nat)
    requires n <= w.count
    ensures var r := PutAll(w, pm, n);
            && r.count == w.count - n
            && (r.asserted <==> w.asserted && !(0 < n == w.count && Wakeable(pm)))
            && r.log == if r.asserted == w.asserted then w.log else w.log + [false]
    decreases n
  {
    if n > 0 {
      PutAllClears(Put(w, pm, false), pm, n - 1);
    }
  }

  lemma {:induction false} VotesAtMost(votes: seq<nat>, d: nat, k: nat)
    requires d < k <= |votes|
    ensures votes[d] <= VotesTo(votes, k)
  {
    if d < k - 1 {
      VotesAtMost(votes, d, k - 1);
    }
  }

  ghost predicate WakeStep(cfg: Config, h: Host, a: Action, w: Wake)
    requires Shape(cfg, h) && Guard(cfg, h, a)
  {
    w == Wake(CountAfter(h, a), AwakeAfter(cfg, h, a), WritesAfter(cfg, h, a))
  }

  lemma GetWakes(cfg: Config, h: Host, a: Action, h': Host)
    requires Steps(cfg, h, a, h') && GetAction(a)
    ensures WakeStep(cfg, h, a, h'.wake)
  {
  }

  lemma PutWakes(cfg: Config, h: Host, a: Action, h': Host)
    requires Steps(cfg, h, a, h') && PutAction(a)
    ensures WakeStep(cfg, h, a, h'.wake)
  {
  }

  lemma QueueBufWakes(cfg: Config, h: Host, a: Action, h': Host)
    requires Steps(cfg, h, a, h') && a.QueueBuf?
    ensures WakeStep(cfg, h, a, h'.wake)
  {
  }

  lemma QueueSkbWakes(cfg: Config, h: Host, a: Action, h': Host)
    requires Steps(cfg, h, a, h') && a.QueueSkb?
    ensures WakeStep(cfg, h, a, h'.wake)
  {
  }

  lemma RemoveWakes(cfg: Config, h: Host, a: Action, h': Host)
    requires Inv(cfg, h) && Steps(cfg, h, a, h') && a.RemoveDevice?
    ensures WakeStep(cfg, h, a, h'.wake)
  {
    VotesAtMost(h.votes, a.dev, |h.votes|);
    PutAllClears(h.wake, h.pm, h.votes[a.dev]);
  }

  lemma OtherWakes(cfg: Config, h: Host, a: Action, h': Host)
    requires Steps(cfg, h, a, h')
    requires !GetAction(a) && !PutAction(a) && !a.QueueBuf? && !a.QueueSkb? && !a.RemoveDevice?
    ensures WakeStep(cfg, h, a, h'.wake)
  {
    assert !Toggles(cfg, h, a);
  }

  /** The whole wake state after any step: the count of votes, the doorbell, and the writes to it. */
  lemma WakeFollows(cfg: Config, h: Host, a: Action, h': Host)
    requires Inv(cfg, h) && Steps(cfg, h, a, h')
    ensures WakeStep(cfg, h, a, h'.wake)
  {
    if GetAction(a) {
      GetWakes(cfg, h, a, h');
    } else if PutAction(a) {
      PutWakes(cfg, h, a, h');
    } else if a.QueueBuf? {
      QueueBufWakes(cfg, h, a, h');
    } else if a.QueueSkb? {
      QueueSkbWakes(cfg, h, a, h');
    } else if a.RemoveDevice? {
      RemoveWakes(cfg, h, a, h');
    } else {
      OtherWakes(cfg, h, a, h');
    }
  }

  /**
   Over every run: the unforced vote of a suspend, and a buffer queued while M2 doorbells are not allowed,
   wake a device in M2 that nobody else holds; the buffer leaves no vote behind.
  */
  lemma M2IsLeftWhenNeeded(cfg: Config, hs: seq<Host>, actions: seq<Action>, k: nat)
    requires IsRun(cfg, hs, actions) && k < |actions| && hs[k].pm.M2? && hs[k].wake.count == 0
    ensures Shape(cfg, hs[k])
    ensures actions[k].HoldForSuspend? ==> hs[k + 1].wake.asserted && hs[k + 1].wake.count == 1
    ensures Queues(cfg, hs[k], actions[k]) && cfg.m2NoDb ==> hs[k + 1].wake.asserted && hs[k + 1].wake.count == 0
    ensures actions[k].KickM2? ==> hs[k + 1].wake.asserted && hs[k + 1].wake.count == 0
  {
    RunInvariant(cfg, hs, actions, k);
    assert Steps(cfg, hs[k], actions[k], hs[k + 1]);
    WakeFollows(cfg, hs[k], actions[k], hs[k + 1]);
  }

  // ---- Channel doorbells ----

  ghost predicate MayRing(cfg: Config, h: Host) {
    h.pm.M0? || (h.pm.M2? && !cfg.m2NoDb)
  }

  /** The step takes a doorbell-mode event for enabled channel c off a ring. */
  ghost predicate DbEventFor(h: Host, a: Action, c: nat)
    requires c < |h.chans|
  {
    && a.Consume? && a.r < |h.events| && h.events[a.r] != [] && h.chans[c].state.Enabled?
    && var e := h.events[a.r][0]; e.Tx? && e.chan == c && (e.code == Oob || e.code == DbMode)
  }

  /** Doorbell mode is switched on again before anything is rung. */
  ghost predicate Rearms(cfg: Config, h: Host, a: Action, c: nat)
    requires Shape(cfg, h) && c < |h.chans|
  {
    DbEventFor(h, a, c) || (a.RingM0? && h.m0 == Ringing(c) && cfg.chans[c].resetReq)
  }

  /** The step announces channel c's write pointer. */
  ghost predicate Announces(cfg: Config, h: Host, a: Action, c: nat)
    requires Shape(cfg, h) && c < |h.chans|
  {
    || (Queues(cfg, h, a) && a.c == c && MayRing(cfg, h))
    || (|h.chans[c].accepted| > |h.chans[c].delivered|
        && ((a.RingM0? && h.m0 == Ringing(c)) || (DbEventFor(h, a, c) && MayRing(cfg, h))))
  }

  ghost predicate Starts(a: Action, c: nat) {
    a.PrepareChan? && a.c == c && a.allocOk
  }

  /** The doorbell bookkeeping of channel c before and after a step, by what the step does. */
  ghost predicate DoorbellSteps(cfg: Cfg, ch: Chan, ch': Chan, starts: bool, announces: bool, rearms: bool) {
    && ch'.ctxtWp == (if starts then 0 else if announces then ch'.wp else ch.ctxtWp)
    && ch'.dbReg == (if announces && (!cfg.burst || ch.dbMode || rearms) then ch'.wp else ch.dbReg)
    && ch'.dbMode == (starts || ((ch.dbMode || rearms) && !(announces && cfg.burst)))
  }

  ghost predicate SameDoorbell(ch: Chan, ch': Chan) {
    ch'.ctxtWp == ch.ctxtWp && ch'.dbReg == ch.dbReg && ch'.dbMode == ch.dbMode
  }

  /** A completion changes the delivered buffers and the read pointer of its channel, and nothing else. */
  ghost predicate OnlyReturns(ch: Chan, ch': Chan) {
    ch' == ch.(delivered := ch'.delivered, rp := ch'.rp)
  }

  lemma HandleReturns(cfg: Config, h: Host, r: nat, h': Host, c: nat)
    requires Inv(cfg, h) && r < |h.events| && h.events[r] != [] && HeadOk(cfg, h, r) && h' == Handle(cfg, h, r)
    requires var e := h.events[r][0]; e.Tx? && e.chan < |h.chans| && CompletionFor(h, Consume(r), e.chan)
    requires c < |h.chans|
    ensures |h'.chans| == |h.chans| && OnlyReturns(h.chans[c], h'.chans[c])
    ensures c != h.events[r][0].chan ==> h'.chans[c] == h.chans[c]
  {
    var e := h.events[r][0];
    CompleteDelivers(h.chans[e.chan], Elements(cfg, e.chan), e.slot, e.len, EventStatus(e.code));
  }

  lemma HandleRings(cfg: Config, h: Host, r: nat, h': Host, c: nat)
    requires Shape(cfg, h) && r < |h.events| && h.events[r] != [] && HeadOk(cfg, h, r) && h' == Handle(cfg, h, r)
    requires var e := h.events[r][0];
             e.Tx? && e.chan < |h.chans| && h.chans[e.chan].state.Enabled? ==>
               e.code != Overflow && e.code != Eob && e.code != Eot
    requires c < |h.chans|
    ensures |h'.chans| == |h.chans|
    ensures var ch, ch', a := h.chans[c], h'.chans[c], Consume(r);
            && ch' == ch.(ctxtWp := ch'.ctxtWp, dbReg := ch'.dbReg, dbMode := ch'.dbMode)
            && DoorbellSteps(cfg.chans[c], ch, ch', false, Announces(cfg, h, a, c), DbEventFor(h, a, c))
  {
  }

  lemma ConsumeFollows(cfg: Config, h: Host, a: Action, h': Host, c: nat)
    requires Inv(cfg, h) && Steps(cfg, h, a, h') && a.Consume? && c < |h.chans|
    ensures |h'.chans| == |h.chans| && ChannelSteps(cfg, h, a, c, h'.chans[c])
    ensures DoorbellSteps(cfg.chans[c], h.chans[c], h'.chans[c], false, Announces(cfg, h, a, c), Rearms(cfg, h, a, c))
  {
    var e := h.events[a.r][0];
    if e.Tx? && e.chan < |h.chans| && CompletionFor(h, a, e.chan) {
      HandleReturns(cfg, h, a.r, h', c);
    } else {
      HandleRings(cfg, h, a.r, h', c);
    }
  }

  lemma ResetIsFlush(cfg: Config, h: Host, r: nat, state: ChState, h': Host, c: nat)
    requires Shape(cfg, h) && r < |h.chans| && c < |h.chans| && h' == Reset(cfg, h, r, state)
    ensures |h'.chans| == |h.chans| && (c != r ==> h'.chans[c] == h.chans[c])
    ensures c == r ==> OnlyReturns(h.chans[c].(state := state), h'.chans[c])
  {
    FlushDelivers(h.chans[r], Elements(cfg, r));
  }

  lemma ResetFollows(cfg: Config, h: Host, a: Action, h': Host, c: nat)
    requires Inv(cfg, h) && Steps(cfg, h, a, h') && (a.ResetChan? || a.SuspendChan?) && c < |h.chans|
    ensures |h'.chans| == |h.chans| && SameDoorbell(h.chans[c], h'.chans[c])
    ensures ChannelSteps(cfg, h, a, c, h'.chans[c])
  {
    ResetIsFlush(cfg, h, a.c, if a.ResetChan? then Disabled else Suspended, h', c);
  }

  /** What a queue call does to the channels, whichever call it is. */
  ghost predicate QueueSteps(cfg: Config, h: Host, a: Action, h': Host)
    requires Shape(cfg, h) && (a.QueueBuf? || a.QueueSkb?) && a.c < |h.chans|
  {
    if Queues(cfg, h, a) then
      var q := h.chans[a.c].(accepted := h.chans[a.c].accepted + [a.b],
                             wp := Wrap(h.chans[a.c].wp + 1, cfg.chans[a.c].elements));
      h'.chans == h.chans[a.c := if MayRing(cfg, h) then q.RingDb(cfg.chans[a.c].burst) else q]
    else h'.chans == h.chans
  }

  lemma QueueBufStep(cfg: Config, h: Host, a: Action, h': Host)
    requires Steps(cfg, h, a, h') && a.QueueBuf?
    ensures QueueSteps(cfg, h, a, h')
  {
  }

  lemma QueueSkbStep(cfg: Config, h: Host, a: Action, h': Host)
    requires Steps(cfg, h, a, h') && a.QueueSkb?
    ensures QueueSteps(cfg, h, a, h')
  {
  }

  lemma QueueFollows(cfg: Config, h: Host, a: Action, h': Host, c: nat)
    requires Shape(cfg, h) && (a.QueueBuf? || a.QueueSkb?) && a.c < |h.chans| && QueueSteps(cfg, h, a, h')
    requires c < |h.chans|
    ensures |h'.chans| == |h.chans|
    ensures DoorbellSteps(cfg.chans[c], h.chans[c], h'.chans[c], false, Announces(cfg, h, a, c), false)
    ensures ChannelSteps(cfg, h, a, c, h'.chans[c])
  {
  }

  /** Steps that leave all channels as they are. */
  ghost predicate LeavesChannels(a: Action) {
    || PmAction(a) || GetAction(a) || PutAction(a)
    || a.PowerUp? || a.Post? || a.CreateDevice? || a.ResetRings?
  }

  lemma ChannelsStay(cfg: Config, h: Host, a: Action, h': Host)
    requires Steps(cfg, h, a, h') && LeavesChannels(a)
    ensures h'.chans == h.chans
  {
  }

  lemma StaysAlike(cfg: Config, h: Host, a: Action, c: nat)
    requires Shape(cfg, h) && LeavesChannels(a) && c < |h.chans|
    ensures DoorbellSteps(cfg.chans[c], h.chans[c], h.chans[c], Starts(a, c), Announces(cfg, h, a, c),
                Rearms(cfg, h, a, c))
    ensures ChannelSteps(cfg, h, a, c, h.chans[c])
  {
  }

  /** Steps in the life of a channel that are no reset. */
  ghost predicate LifeAction(a: Action) {
    a.RingM0? || a.StopChan? || a.PrepareChan? || a.RemoveDevice?
  }

  lemma LifeDoorbell(cfg: Config, h: Host, a: Action, h': Host, c: nat)
    requires Shape(cfg, h) && Steps(cfg, h, a, h') && LifeAction(a) && c < |h.chans|
    ensures |h'.chans| == |h.chans|
    ensures DoorbellSteps(cfg.chans[c], h.chans[c], h'.chans[c], Starts(a, c), Announces(cfg, h, a, c),
                Rearms(cfg, h, a, c))
  {
  }

  /**
   For any step and channel: the context word and the doorbell register move exactly when the step announces
   the channel, or starts it; in burst mode the register only while doorbell mode is on, which that ends.
  */
  lemma DoorbellFollows(cfg: Config, h: Host, a: Action, h': Host, c: nat)
    requires Inv(cfg, h) && Steps(cfg, h, a, h') && c < |h.chans|
    ensures |h'.chans| == |h.chans|
    ensures DoorbellSteps(cfg.chans[c], h.chans[c], h'.chans[c], Starts(a, c), Announces(cfg, h, a, c),
                Rearms(cfg, h, a, c))
  {
    if a.Consume? {
      ConsumeFollows(cfg, h, a, h', c);
    } else if a.QueueBuf? {
      QueueBufStep(cfg, h, a, h');
      QueueFollows(cfg, h, a, h', c);
    } else if a.QueueSkb? {
      QueueSkbStep(cfg, h, a, h');
      QueueFollows(cfg, h, a, h', c);
    } else if a.ResetChan? || a.SuspendChan? {
      ResetFollows(cfg, h, a, h', c);
    } else if LifeAction(a) {
      LifeDoorbell(cfg, h, a, h', c);
    } else {
      ChannelsStay(cfg, h, a, h');
      StaysAlike(cfg, h, a, c);
    }
  }

  /** Over every run: a channel leaves doorbell mode only in a step that rings its doorbell at its write pointer. */
  lemma ModeLeftByRinging(cfg: Config, hs: seq<Host>, actions: seq<Action>, k: nat, c: nat)
    requires IsRun(cfg, hs, actions) && k < |actions| && c < |cfg.chans|
    ensures |hs[k].chans| == |hs[k + 1].chans| == |cfg.chans|
    ensures var ch, ch' := hs[k].chans[c], hs[k + 1].chans[c];
            ch.dbMode && !ch'.dbMode ==> cfg.chans[c].burst && ch'.dbReg == ch'.wp && ch'.ctxtWp == ch'.wp
  {
    RunInvariant(cfg, hs, actions, k);
    assert Steps(cfg, hs[k], actions[k], hs[k + 1]);
    DoorbellFollows(cfg, hs[k], actions[k], hs[k + 1], c);
  }

  // ---- What a channel takes and gives back ----

  /** The step takes a completion for enabled channel c off a ring. */
  ghost predicate CompletionFor(h: Host, a: Action, c: nat)
    requires c < |h.chans|
  {
    && a.Consume? && a.r < |h.events| && h.events[a.r] != [] && h.chans[c].state.Enabled?
    && var e := h.events[a.r][0]; e.Tx? && e.chan == c && (e.code == Overflow || e.code == Eob || e.code == Eot)
  }

  ghost predicate Resets(a: Action, c: nat) {
    (a.ResetChan? || a.SuspendChan?) && a.c == c
  }

  /** Where a step leaves the life cycle of channel c. */
  ghost function StateAfter(cfg: Config, h: Host, a: Action, c: nat): (s: ChState)
    requires Shape(cfg, h) && c < |h.chans|
  {
    match a
    case StopChan(q) => if q == c then Resetting else h.chans[c].state
    case ResetChan(q) => if q == c then Disabled else h.chans[c].state
    case SuspendChan(q) => if q == c then Suspended else h.chans[c].state
    case PrepareChan(q, allocOk, started) =>
      if q == c && allocOk && started && !Errored(h.pm) then Enabled else h.chans[c].state
    case RemoveDevice(d) => if cfg.chans[c].dev == d then Disabled else h.chans[c].state
    case _ => h.chans[c].state
  }

  /**
   Histories, pointers and life cycle of channel c after a step; what comes back is said by the theorems on
   batches.
  */
  ghost predicate ChannelSteps(cfg: Config, h: Host, a: Action, c: nat, ch': Chan)
    requires Shape(cfg, h) && c < |h.chans|
  {
    var ch, queued := h.chans[c], Queues(cfg, h, a) && a.c == c;
    && ch'.state == StateAfter(cfg, h, a, c)
    && ch'.accepted == (if queued then ch.accepted + [a.b] else ch.accepted)
    && ch'.start == (if Starts(a, c) then |ch.accepted| else ch.start)
    && ch'.wp == (if Starts(a, c) then 0 else if queued then Wrap(ch.wp + 1, cfg.chans[c].elements) else ch.wp)
    && (Starts(a, c) ==> ch'.rp == 0)
    && (!CompletionFor(h, a, c) && !Resets(a, c) ==> ch'.delivered == ch.delivered && (Starts(a, c) || ch'.rp == ch.rp))
  }

  lemma LifeChannel(cfg: Config, h: Host, a: Action, h': Host, c: nat)
    requires Shape(cfg, h) && Steps(cfg, h, a, h') && LifeAction(a) && c < |h.chans|
    ensures |h'.chans| == |h.chans| && ChannelSteps(cfg, h, a, c, h'.chans[c])
  {
  }

  /**
   For any step and channel: a buffer is appended exactly by a queue call that gets past its checks and maps it;
   buffers come back only by a completion for the enabled channel or by its reset; a start begins a session with
   both pointers at the first slot; and the life cycle moves as the step says, for no other channel.
  */
  lemma ChannelFollows(cfg: Config, h: Host, a: Action, h': Host, c: nat)
    requires Inv(cfg, h) && Steps(cfg, h, a, h') && c < |h.chans|
    ensures |h'.chans| == |h.chans| && ChannelSteps(cfg, h, a, c, h'.chans[c])
  {
    if a.Consume? {
      ConsumeFollows(cfg, h, a, h', c);
    } else if a.QueueBuf? {
      QueueBufStep(cfg, h, a, h');
      QueueFollows(cfg, h, a, h', c);
    } else if a.QueueSkb? {
      QueueSkbStep(cfg, h, a, h');
      QueueFollows(cfg, h, a, h', c);
    } else if a.ResetChan? || a.SuspendChan? {
      ResetFollows(cfg, h, a, h', c);
    } else if LifeAction(a) {
      LifeChannel(cfg, h, a, h', c);
    } else {
      ChannelsStay(cfg, h, a, h');
      StaysAlike(cfg, h, a, c);
    }
  }

  // ---- Events, votes, devices and handlers ----

  /** Where a step leaves the unread events; what a reset marks is said by `ResetMarksOnlyItsOwn`. */
  ghost predicate EventsStep(h: Host, a: Action, es: seq<seq<Event>>) {
    match a
    case Post(r, e) => r < |h.events| && es == h.events[r := h.events[r] + [e]]
    case Consume(r) => r < |h.events| && h.events[r] != [] && es == h.events[r := h.events[r][1..]]
    case PowerUp => |es| == |h.events| && forall r :: 0 <= r < |es| ==> es[r] == []
    case ResetRings => |es| == |h.events| && forall r :: 0 <= r < |es| ==> es[r] == []
    case ResetChan(_) => |es| == |h.events|
    case SuspendChan(_) => |es| == |h.events|
    case _ => es == h.events
  }

  /** Steps of the PM code and the wake votes leave events and devices alone. */
  lemma PmLeavesEvents(cfg: Config, h: Host, a: Action, h': Host)
    requires Steps(cfg, h, a, h') && (PmAction(a) || GetAction(a) || PutAction(a))
    ensures h'.events == h.events && h'.present == h.present
  {
  }

  lemma EventsFollow(cfg: Config, h: Host, a: Action, h': Host)
    requires Steps(cfg, h, a, h')
    ensures EventsStep(h, a, h'.events)
  {
    if PmAction(a) || GetAction(a) || PutAction(a) {
      PmLeavesEvents(cfg, h, a, h');
    }
  }

  ghost function VotesAfter(h: Host, a: Action): (votes: seq<nat>)
    requires a.FinishGetSync? || a.DeviceGet? || a.DevicePut? || a.RemoveDevice? ==> a.dev < |h.votes|
    requires a.DevicePut? ==> h.votes[a.dev] > 0
  {
    match a
    case FinishGetSync(d) => h.votes[d := h.votes[d] + 1]
    case DeviceGet(d) => h.votes[d := h.votes[d] + 1]
    case DevicePut(d) => h.votes[d := h.votes[d] - 1]
    case RemoveDevice(d) => h.votes[d := 0]
    case _ => h.votes
  }

  lemma VotesFollow(cfg: Config, h: Host, a: Action, h': Host)
    requires Steps(cfg, h, a, h')
    ensures h'.votes == VotesAfter(h, a)
  {
  }

  ghost function Change(up: bool, down: bool): (d: int) {
    (if up then 1 else 0) - (if down then 1 else 0)
  }

  /** The temporary holders of a wake vote come and go one by one. */
  lemma HoldersFollow(cfg: Config, h: Host, a: Action, h': Host)
    requires Steps(cfg, h, a, h')
    ensures h'.syncHolds - h.syncHolds == Change(a.BeginGetSync?, a.FinishGetSync? || a.AbandonGetSync?)
    ensures h'.suspendHolds - h.suspendHolds == Change(a.HoldForSuspend?, a.ReleaseSuspend?)
  {
  }

  /** Devices come and go one by one. */
  lemma DevicesFollow(cfg: Config, h: Host, a: Action, h': Host, d: nat)
    requires Steps(cfg, h, a, h') && d < |h.present|
    ensures |h'.present| == |h.present|
    ensures h'.present[d] <==> (h.present[d] || (a.CreateDevice? && a.dev == d)) && !(a.RemoveDevice? && a.dev == d)
  {
    if PmAction(a) || GetAction(a) || PutAction(a) {
      PmLeavesEvents(cfg, h, a, h');
    }
  }

  /** The M0 handler goes on from phase to phase, as soon as M0 is reached and until the last channel is done. */
  ghost function PhaseAfter(h: Host, a: Action, pm: Pm): (p: M0Phase) {
    match a
    case BeginM0 => if pm.M0? then Entered else Idle
    case WakeM0 => Ringing(0)
    case RingM0 => if h.m0.Ringing? then Ringing(h.m0.next + 1) else Idle
    case EndM0 => Idle
    case _ => h.m0
  }

  lemma HandlersFollow(cfg: Config, h: Host, a: Action, h': Host)
    requires Steps(cfg, h, a, h')
    ensures h'.m0 == PhaseAfter(h, a, h'.pm)
    ensures h'.readying <==> if a.BeginReady? then h'.pm.Por? else h.readying && !a.FinishReady?
  {
  }
}
