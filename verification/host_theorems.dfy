/** What holds along every run of the host. */
module HostTheorems {
  import opened Rings
  import opened ChannelSpec
  import opened PmStates
  import opened WakeSpec
  import opened HostSpec
  import opened HostInvariant
  import opened HostSteps

  ghost predicate Steps(cfg: Config, h: Host, a: Action, h': Host) {
    && Shape(cfg, h) && Guard(cfg, h, a)
    && (a.Consume? ==> HeadOk(cfg, h, a.r))
    && h' == Next(cfg, h, a)
  }

  /** `hs` are the states before, between and after the steps `actions`. */
  ghost predicate IsRun(cfg: Config, hs: seq<Host>, actions: seq<Action>) {
    && |hs| == |actions| + 1
    && Initial(cfg, hs[0])
    && forall i :: 0 <= i < |actions| ==> Steps(cfg, hs[i], actions[i], hs[i + 1])
  }

  lemma {:induction false} RunInvariant(cfg: Config, hs: seq<Host>, actions: seq<Action>, k: nat)
    requires IsRun(cfg, hs, actions) && k < |hs|
    ensures Inv(cfg, hs[k])
  {
    if k == 0 {
      InitialInv(cfg, hs[0]);
    } else {
      RunInvariant(cfg, hs, actions, k - 1);
      assert Steps(cfg, hs[k - 1], actions[k - 1], hs[k]);
      StepKeepsInv(cfg, hs[k - 1], actions[k - 1]);
    }
  }

  /**
   The completion loop is never run on a bad pointer: in every reachable state the next event of each
   ring either completes nothing or names outstanding buffers. (So `HeadOk` in `Steps` excludes no run.)
  */
  lemma EventsAlwaysAcceptable(cfg: Config, hs: seq<Host>, actions: seq<Action>, k: nat, r: nat)
    requires IsRun(cfg, hs, actions) && k < |hs| && r < |hs[k].events|
    ensures Shape(cfg, hs[k]) && HeadOk(cfg, hs[k], r)
  {
    RunInvariant(cfg, hs, actions, k);
    HeadIsOk(cfg, hs[k], r);
  }

  // ---- Buffers come back once each, in order ----

  /** The two histories of a channel only grow. */
  ghost predicate Extends(a: Chan, b: Chan) {
    a.accepted <= b.accepted && a.delivered <= b.delivered
  }

  lemma ResetExtends(cfg: Config, h: Host, c: nat, state: ChState, i: nat)
    requires Inv(cfg, h) && c < |h.chans| && i < |h.chans|
    ensures Extends(h.chans[i], Reset(cfg, h, c, state).chans[i])
  {
    FlushDelivers(h.chans[c], Elements(cfg, c));
  }

  lemma HandleExtends(cfg: Config, h: Host, r: nat, i: nat)
    requires Inv(cfg, h) && r < |h.events| && |h.events[r]| > 0 && HeadOk(cfg, h, r) && i < |h.chans|
    ensures Extends(h.chans[i], Handle(cfg, h, r).chans[i])
  {
    var e := h.events[r][0];
    if Completion(e) && e.chan < |h.chans| && h.chans[e.chan].state.Enabled? {
      CompleteDelivers(h.chans[e.chan], Elements(cfg, e.chan), e.slot, e.len, EventStatus(e.code));
    }
  }

  lemma EnqueueExtends(cfg: Config, h: Host, c: nat, b: Buf, i: nat)
    requires c < |h.chans| == |cfg.chans| && i < |h.chans|
    requires h.chans[c].WellFormed(Elements(cfg, c)) && h.chans[c].Outstanding() < Elements(cfg, c) - 1
    ensures |Enqueue(cfg, h, c, b).chans| == |h.chans| && Extends(h.chans[i], Enqueue(cfg, h, c, b).chans[i])
  {
  }

  lemma QueueBufExtends(cfg: Config, h: Host, a: Action, h': Host, i: nat)
    requires Shape(cfg, h) && Guard(cfg, h, a) && a.QueueBuf? && h' == Next(cfg, h, a) && i < |h.chans|
    ensures |h'.chans| == |h.chans| && Extends(h.chans[i], h'.chans[i])
  {
    if h'.chans != h.chans {
      EnqueueExtends(cfg, h.(wake := Toggle(h.wake, h.pm, cfg.m2NoDb)), a.c, a.b, i);
    }
  }

  lemma QueueSkbExtends(cfg: Config, h: Host, a: Action, h': Host, i: nat)
    requires Shape(cfg, h) && Guard(cfg, h, a) && a.QueueSkb? && h' == Next(cfg, h, a) && i < |h.chans|
    ensures |h'.chans| == |h.chans| && Extends(h.chans[i], h'.chans[i])
  {
    if h'.chans != h.chans {
      EnqueueExtends(cfg, h.(wake := Toggle(h.wake, h.pm, cfg.m2NoDb)), a.c, a.b, i);
    }
  }

  lemma OtherExtends(cfg: Config, h: Host, a: Action, i: nat)
    requires Inv(cfg, h) && Guard(cfg, h, a) && i < |h.chans|
    requires a.RingM0? || a.StopChan? || a.PrepareChan? || a.RemoveDevice?
    ensures Extends(h.chans[i], Next(cfg, h, a).chans[i])
  {
  }

  lemma StepGrows(cfg: Config, h: Host, a: Action, h': Host, i: nat)
    requires Inv(cfg, h) && Steps(cfg, h, a, h') && |h'.chans| == |h.chans| && i < |h.chans|
    ensures Extends(h.chans[i], h'.chans[i])
  {
    if a.Consume? {
      HandleExtends(cfg, h, a.r, i);
    } else if a.ResetChan? {
      ResetExtends(cfg, h, a.c, Disabled, i);
    } else if a.SuspendChan? {
      ResetExtends(cfg, h, a.c, Suspended, i);
    } else if a.QueueBuf? {
      QueueBufExtends(cfg, h, a, h', i);
    } else if a.QueueSkb? {
      QueueSkbExtends(cfg, h, a, h', i);
    } else if a.RingM0? || a.StopChan? || a.PrepareChan? || a.RemoveDevice? {
      OtherExtends(cfg, h, a, i);
    } else {
      assert h'.chans == h.chans;
    }
  }

  /** Between two states of a run, channel c's histories grow. */
  ghost predicate Grown(cfg: Config, h: Host, h': Host, c: nat) {
    && c < |cfg.chans| && |h.chans| == |h'.chans| == |cfg.chans|
    && Extends(h.chans[c], h'.chans[c])
  }

  lemma RunGrows(cfg: Config, hs: seq<Host>, actions: seq<Action>, k: nat, next: nat, c: nat)
    requires IsRun(cfg, hs, actions) && k < |actions| && next == k + 1 && c < |cfg.chans|
    ensures Grown(cfg, hs[k], hs[next], c)
  {
    RunInvariant(cfg, hs, actions, k);
    RunInvariant(cfg, hs, actions, next);
    assert Steps(cfg, hs[k], actions[k], hs[k + 1]);
    StepGrows(cfg, hs[k], actions[k], hs[next], c);
  }

  lemma GrownTwice(cfg: Config, a: Host, b: Host, h: Host, c: nat)
    requires Grown(cfg, a, b, c) && Grown(cfg, b, h, c)
    ensures Grown(cfg, a, h, c)
  {
  }

  /** Neither history of a channel is ever revised. */
  lemma {:induction false} HistoriesGrow(cfg: Config, hs: seq<Host>, actions: seq<Action>, j: nat, k: nat, c: nat)
    requires IsRun(cfg, hs, actions) && j <= k < |hs| && c < |cfg.chans|
    ensures Grown(cfg, hs[j], hs[k], c)
  {
    if j < k {
      var before := k - 1;
      HistoriesGrow(cfg, hs, actions, j, before, c);
      RunGrows(cfg, hs, actions, before, k, c);
      GrownTwice(cfg, hs[j], hs[before], hs[k], c);
    } else {
      RunInvariant(cfg, hs, actions, k);
    }
  }

  /**
   Over every run: the i-th buffer handed to `xfer_cb` is the i-th buffer ever accepted, so each
   accepted buffer comes back at most once and in FIFO order; on a channel that is stopped,
   suspended or disabled after its reset, every accepted buffer has come back.
  */
  lemma BuffersReturnInOrder(cfg: Config, hs: seq<Host>, actions: seq<Action>, k: nat, c: nat)
    requires IsRun(cfg, hs, actions) && k < |hs| && c < |cfg.chans|
    ensures |hs[k].chans| == |cfg.chans|
    ensures var ch := hs[k].chans[c];
            && |ch.delivered| <= |ch.accepted|
            && (forall i :: 0 <= i < |ch.delivered| ==> ch.delivered[i].cb == ch.accepted[i].cb)
            && (ch.state.Disabled? || ch.state.Suspended? ==> |ch.delivered| == |ch.accepted|)
  {
    RunInvariant(cfg, hs, actions, k);
    assert ChanInv(cfg.chans[c], hs[k].chans[c], hs[k].present[cfg.chans[c].dev], MustBeAnnounced(cfg, hs[k], c));
  }

  lemma ResetReturns(cfg: Config, h: Host, c: nat, state: ChState, i: nat)
    requires c < |h.chans| == |cfg.chans| && cfg.chans[c].er < |h.events| && h.chans[c].WellFormed(Elements(cfg, c))
    requires |h.chans[c].delivered| <= i < |h.chans[c].accepted|
    ensures var ch, ch' := h.chans[c], Reset(cfg, h, c, state).chans[c];
            && |ch'.delivered| == |ch.accepted|
            && ch'.delivered[i] == Result(ch.accepted[i].cb, 0, StatusNotConn)
  {
    var ch := h.chans[c];
    FlushDelivers(ch, Elements(cfg, c));
    ReturnedAt(ch.accepted[|ch.delivered|..], i - |ch.delivered|);
  }

  /** A reset hands back exactly the outstanding buffers, in order, each with -ENOTCONN and no bytes. */
  lemma ResetReturnsTheRest(cfg: Config, hs: seq<Host>, actions: seq<Action>, k: nat, i: nat)
    requires IsRun(cfg, hs, actions) && k < |actions| && (actions[k].ResetChan? || actions[k].SuspendChan?)
    requires |hs[k].chans| == |hs[k + 1].chans| && actions[k].c < |hs[k].chans|
    requires var ch := hs[k].chans[actions[k].c]; |ch.delivered| <= i < |ch.accepted|
    ensures var ch, ch' := hs[k].chans[actions[k].c], hs[k + 1].chans[actions[k].c];
            && |ch'.delivered| == |ch.accepted|
            && ch'.delivered[i] == Result(ch.accepted[i].cb, 0, StatusNotConn)
  {
    RunInvariant(cfg, hs, actions, k);
    assert Steps(cfg, hs[k], actions[k], hs[k + 1]);
    ResetReturns(cfg, hs[k], actions[k].c, if actions[k].ResetChan? then Disabled else Suspended, i);
  }

  lemma HandleReturnsBatch(cfg: Config, h: Host, r: nat, i: nat)
    requires Inv(cfg, h) && r < |h.events| && |h.events[r]| > 0 && HeadOk(cfg, h, r)
    requires var e := h.events[r][0];
             && Completion(e) && e.chan < |h.chans| && h.chans[e.chan].state.Enabled?
             && |h.chans[e.chan].delivered| <= i <= e.id
    ensures var e := h.events[r][0];
            var ch, ch' := h.chans[e.chan], Handle(cfg, h, r).chans[e.chan];
            && e.id < |ch.accepted|
            && |ch'.delivered| == e.id + 1
            && ch'.delivered[i].cb == ch.accepted[i].cb
            && ch'.delivered[i].status == EventStatus(e.code)
            && (ch.accepted[i].len < 0x10000 && e.len < 0x10000 ==>
                  ch'.delivered[i].bytes == if i == e.id && e.len < ch.accepted[i].len then e.len
                      else ch.accepted[i].len)
  {
    assert RingInv(cfg, h, r);
    var e := h.events[r][0];
    var ch, n := h.chans[e.chan], Elements(cfg, e.chan);
    assert EventInv(cfg.chans[e.chan], ch, r, e);
    SlotCompletes(ch, n, e);
    CompleteResultAt(ch, n, e.slot, e.len, EventStatus(e.code), e.id, i);
  }

  /**
   Consuming a completion on an enabled channel hands back exactly the buffers up to the one the
   device named, all at full length but that one, which gets the smaller of event and buffer length; the
   status tells an overflow from a normal end of block or transfer.
  */
  lemma CompletionReturnsBatch(cfg: Config, hs: seq<Host>, actions: seq<Action>, k: nat, i: nat)
    requires IsRun(cfg, hs, actions) && k < |actions| && actions[k].Consume?
    requires actions[k].r < |hs[k].events| && |hs[k].events[actions[k].r]| > 0
    requires |hs[k].chans| == |hs[k + 1].chans|
    requires var e := hs[k].events[actions[k].r][0];
             && e.Tx? && (e.code == Overflow || e.code == Eob || e.code == Eot)
             && e.chan < |hs[k].chans| && hs[k].chans[e.chan].state.Enabled?
             && |hs[k].chans[e.chan].delivered| <= i <= e.id
    ensures var e := hs[k].events[actions[k].r][0];
            var ch, ch' := hs[k].chans[e.chan], hs[k + 1].chans[e.chan];
            && e.id < |ch.accepted|
            && |ch'.delivered| == e.id + 1
            && ch'.delivered[i].cb == ch.accepted[i].cb
            && ch'.delivered[i].status == (if e.code == Overflow then StatusOverflow else StatusOk)
            && (ch.accepted[i].len < 0x10000 && e.len < 0x10000 ==>
                  ch'.delivered[i].bytes == if i == e.id && e.len < ch.accepted[i].len then e.len
                      else ch.accepted[i].len)
  {
    RunInvariant(cfg, hs, actions, k);
    assert Steps(cfg, hs[k], actions[k], hs[k + 1]);
    HandleReturnsBatch(cfg, hs[k], actions[k].r, i);
  }

  // ---- Nothing queued stays hidden from the device ----

  /**
   Whenever doorbells may be rung and no M0 handling is in progress, every enabled channel has its
   context word at its write pointer; a burst-mode channel has left doorbell mode or is empty; and
   any other channel with work has its doorbell register at the write pointer. This covers buffers
   queued in POR, in M3, or in M2 when doorbells are not allowed there.
  */
  lemma NoAnnouncementLost(cfg: Config, hs: seq<Host>, actions: seq<Action>, k: nat, c: nat)
    requires IsRun(cfg, hs, actions) && k < |hs| && c < |cfg.chans|
    requires DbAccess(cfg, hs[k]) && hs[k].m0.Idle?
    ensures |hs[k].chans| == |cfg.chans|
    ensures var ch := hs[k].chans[c];
            ch.state.Enabled? ==>
              && ch.ctxtWp == ch.wp
              && (cfg.chans[c].burst ==> !ch.dbMode || |ch.accepted| == |ch.delivered|)
              && (!cfg.chans[c].burst && |ch.accepted| > |ch.delivered| ==> ch.dbReg == ch.wp)
  {
    RunInvariant(cfg, hs, actions, k);
    assert ChanInv(cfg.chans[c], hs[k].chans[c], hs[k].present[cfg.chans[c].dev], MustBeAnnounced(cfg, hs[k], c));
  }

  // ---- Sessions do not mix ----

  /**
   An unread completion for an enabled channel names a buffer accepted since the channel was last
   started, not yet delivered, and already announced; its slot is where that buffer's TRE lies.
   Hence no event of an earlier session completes a buffer of this one.
  */
  lemma NoCompletionFromEarlierSession(cfg: Config, hs: seq<Host>, actions: seq<Action>, k: nat, r: nat, i: nat)
    requires IsRun(cfg, hs, actions) && k < |hs| && r < |hs[k].events| && i < |hs[k].events[r]|
    requires var e := hs[k].events[r][i];
             Completion(e) && e.chan < |hs[k].chans| && hs[k].chans[e.chan].state.Enabled?
    ensures |hs[k].chans| == |cfg.chans|
    ensures var e := hs[k].events[r][i];
            var ch, n := hs[k].chans[e.chan], Elements(cfg, e.chan);
            && ch.start <= |ch.delivered| <= e.id < |ch.accepted|
            && e.id - |ch.delivered| < n && ch.rp < n
            && e.slot == Wrap(ch.rp + (e.id - |ch.delivered|), n)
  {
    RunInvariant(cfg, hs, actions, k);
    var h, e := hs[k], hs[k].events[r][i];
    assert RingInv(cfg, h, r);
    assert EventInv(cfg.chans[e.chan], h.chans[e.chan], r, e);
    assert ChanInv(cfg.chans[e.chan], h.chans[e.chan], h.present[cfg.chans[e.chan].dev],
           MustBeAnnounced(cfg, h, e.chan));
  }

  lemma ResetMarks(cfg: Config, h: Host, c: nat, state: ChState, r: nat, i: nat)
    requires Inv(cfg, h) && c < |h.chans| && r < |h.events| && i < |h.events[r]|
    ensures var e, h' := h.events[r][i], Reset(cfg, h, c, state);
            && |h'.events| == |h.events| && |h'.events[r]| == |h.events[r]|
            && h'.events[r][i] == if e.Tx? && e.chan == c then Stale(c) else e
  {
    assert RingInv(cfg, h, r);
    var e := h.events[r][i];
    if e.Tx? && e.chan == c {
      assert EventInv(cfg.chans[c], h.chans[c], r, e);
    }
  }

  /** A reset leaves no transfer event of its channel unread and touches no other event on any ring. */
  lemma ResetMarksOnlyItsOwn(cfg: Config, hs: seq<Host>, actions: seq<Action>, k: nat, r: nat, i: nat)
    requires IsRun(cfg, hs, actions) && k < |actions| && (actions[k].ResetChan? || actions[k].SuspendChan?)
    requires r < |hs[k].events| && i < |hs[k].events[r]|
    ensures |hs[k + 1].events| == |hs[k].events| && |hs[k + 1].events[r]| == |hs[k].events[r]|
    ensures hs[k + 1].events[r][i] ==
            if hs[k].events[r][i].Tx? && hs[k].events[r][i].chan == actions[k].c
            then Stale(actions[k].c) else hs[k].events[r][i]
  {
    RunInvariant(cfg, hs, actions, k);
    assert Steps(cfg, hs[k], actions[k], hs[k + 1]);
    ResetMarks(cfg, hs[k], actions[k].c, if actions[k].ResetChan? then Disabled else Suspended, r, i);
  }

  // ---- Conservation ----

  /** `pending_pkts` is the number of outstanding elements of all outbound channels; with no device left it is 0. */
  lemma PendingIsOutstanding(cfg: Config, hs: seq<Host>, actions: seq<Action>, k: nat)
    requires IsRun(cfg, hs, actions) && k < |hs|
    ensures |hs[k].chans| == |cfg.chans|
    ensures hs[k].pending == OutboundTo(cfg.chans, hs[k].chans, |hs[k].chans|)
    ensures NoDevices(hs[k]) ==> hs[k].pending == 0
  {
    RunInvariant(cfg, hs, actions, k);
    var h := hs[k];
    if NoDevices(h) {
      forall c | 0 <= c < |h.chans| ensures |h.chans[c].accepted| == |h.chans[c].delivered| {
        assert ChanInv(cfg.chans[c], h.chans[c], h.present[cfg.chans[c].dev], MustBeAnnounced(cfg, h, c));
      }
      OutboundZero(cfg.chans, h.chans, |h.chans|);
    }
  }

  /** A sum of outstanding counts is never negative, and 0 only if each of them is. */
  lemma {:induction false} OutboundZeroMeansEmpty(cfgs: seq<Cfg>, chans: seq<Chan>, k: nat)
    requires k <= |chans| == |cfgs|
    requires forall c :: 0 <= c < k ==> |chans[c].delivered| <= |chans[c].accepted|
    ensures OutboundTo(cfgs, chans, k) >= 0
    ensures OutboundTo(cfgs, chans, k) == 0 ==>
              forall c :: 0 <= c < k && cfgs[c].outbound ==> |chans[c].accepted| == |chans[c].delivered|
  {
    if k > 0 {
      OutboundZeroMeansEmpty(cfgs, chans, k - 1);
    }
  }

  lemma OnlySuspendEntersM3(cfg: Config, h: Host, a: Action, h': Host)
    requires Steps(cfg, h, a, h') && !h.pm.M3Enter? && h'.pm.M3Enter?
    ensures h.wake.count == 0 && h.pending == 0 && h'.chans == h.chans && h'.votes == h.votes
  {
  }

  /** At every entry to M3_ENTER all outbound rings are empty and nobody holds a wake vote. */
  lemma SuspendsOnlyWhenIdle(cfg: Config, hs: seq<Host>, actions: seq<Action>, k: nat)
    requires IsRun(cfg, hs, actions) && k < |actions| && !hs[k].pm.M3Enter? && hs[k + 1].pm.M3Enter?
    ensures |hs[k].chans| == |cfg.chans| && hs[k].chans == hs[k + 1].chans && hs[k].votes == hs[k + 1].votes
    ensures forall c :: 0 <= c < |hs[k].chans| && cfg.chans[c].outbound ==>
            |hs[k].chans[c].accepted| == |hs[k].chans[c].delivered|
    ensures forall d :: 0 <= d < |hs[k].votes| ==> hs[k].votes[d] == 0
    ensures hs[k].syncHolds == 0 && hs[k].suspendHolds == 0 && !hs[k].m0.Ringing?
  {
    RunInvariant(cfg, hs, actions, k);
    assert Steps(cfg, hs[k], actions[k], hs[k + 1]);
    OnlySuspendEntersM3(cfg, hs[k], actions[k], hs[k + 1]);
    VotesZero(hs[k].votes, |hs[k].votes|);
    OutboundZeroMeansEmpty(cfg.chans, hs[k].chans, |hs[k].chans|);
  }

  // ---- Wake votes ----

  /**
   `dev_wake` is the sum of the devices' votes and the temporary holders; `wake_set` mirrors the wake
   doorbell register, whose writes alternate since the last register initialisation; and in M0 or M2,
   once M0 handling has taken its own vote, any device's vote means the device is being kept awake.
  */
  lemma WakeVotesHonoured(cfg: Config, hs: seq<Host>, actions: seq<Action>, k: nat)
    requires IsRun(cfg, hs, actions) && k < |hs|
    ensures var h := hs[k];
            && h.wake.count == Votes(h) + h.syncHolds + h.suspendHolds + (if h.m0.Ringing? then 1 else 0)
            && h.wake.asserted == Register(h.wake)
            && (forall i :: 0 <= i < |h.wake.log| - 1 ==> h.wake.log[i] != h.wake.log[i + 1])
            && (forall d :: 0 <= d < |h.votes| && h.votes[d] > 0 && (h.pm.M0? || h.pm.M2?) && !h.m0.Entered? ==>
                h.wake.asserted)
  {
    RunInvariant(cfg, hs, actions, k);
    MirrorsMeansRegister(hs[k].wake);
    VotesZero(hs[k].votes, |hs[k].votes|);
  }

  /** The M0 handler that ends in M0 with no vote left lets the device sleep again. */
  lemma M0WithoutVotesClearsWake(cfg: Config, hs: seq<Host>, actions: seq<Action>, k: nat)
    requires IsRun(cfg, hs, actions) && k < |actions| && actions[k].EndM0? && hs[k].pm.M0?
    requires Votes(hs[k]) + hs[k].syncHolds + hs[k].suspendHolds == 0
    ensures hs[k + 1].wake.count == 0 && !hs[k + 1].wake.asserted && !Register(hs[k + 1].wake)
  {
    RunInvariant(cfg, hs, actions, k);
    RunInvariant(cfg, hs, actions, k + 1);
    assert Steps(cfg, hs[k], actions[k], hs[k + 1]);
    MirrorsMeansRegister(hs[k + 1].wake);
  }

  // ---- The power state along a run ----

  ghost function PmTrace(hs: seq<Host>): (r: seq<Pm>)
    ensures |r| == |hs| && forall i :: 0 <= i < |hs| ==> r[i] == hs[i].pm
  {
    seq(|hs|, i requires 0 <= i < |hs| => hs[i].pm)
  }

  lemma StepMovesPm(cfg: Config, h: Host, a: Action, h': Host)
    requires Inv(cfg, h) && Steps(cfg, h, a, h')
    ensures PmStates.Step(h.pm, h'.pm)
  {
  }

  lemma PmTraceIsRun(cfg: Config, hs: seq<Host>, actions: seq<Action>)
    requires IsRun(cfg, hs, actions)
    ensures PmStates.Run(PmTrace(hs))
  {
    forall i | 0 <= i < |hs| - 1 ensures PmStates.Step(PmTrace(hs)[i], PmTrace(hs)[i + 1]) {
      RunInvariant(cfg, hs, actions, i);
      assert Steps(cfg, hs[i], actions[i], hs[i + 1]);
      StepMovesPm(cfg, hs[i], actions[i], hs[i + 1]);
    }
  }

  /** Along a run of the host, M2 and the M3 states are reached only through M0. */
  lemma LowPowerOnlyThroughM0(cfg: Config, hs: seq<Host>, actions: seq<Action>, k: nat)
    requires IsRun(cfg, hs, actions) && k < |hs| && LowPower(hs[k].pm)
    ensures exists j :: 0 <= j < k && hs[j].pm.M0? && forall m :: j < m <= k ==> LowPower(hs[m].pm)
  {
    PmTraceIsRun(cfg, hs, actions);
    var r := PmTrace(hs);
    LowPowerReachedThroughM0(r, k);
    var j :| 0 <= j < k && r[j].M0? && forall m :: j < m <= k ==> LowPower(r[m]);
    forall m | j < m <= k ensures LowPower(hs[m].pm) {
      assert LowPower(r[m]);
    }
    assert hs[j].pm.M0?;
  }

  /** Along a run, shutdown and link-down are left only in DISABLE. */
  lemma FatalOnlyLeftThroughDisable(cfg: Config, hs: seq<Host>, actions: seq<Action>, i: nat, k: nat)
    requires IsRun(cfg, hs, actions) && i < k < |hs| && Fatal(hs[i].pm) && !Fatal(hs[k].pm)
    ensures exists j :: i < j <= k && hs[j].pm.Disable?
  {
    PmTraceIsRun(cfg, hs, actions);
    FatalLeftThroughDisable(PmTrace(hs), i, k);
    var j :| i < j <= k && PmTrace(hs)[j].Disable?;
    assert hs[j].pm.Disable?;
  }

  /** Along a run, an error state is left only in DISABLE or by a reset to POR. */
  lemma ErrorsOnlyLeftByReset(cfg: Config, hs: seq<Host>, actions: seq<Action>, i: nat, k: nat)
    requires IsRun(cfg, hs, actions) && i < k < |hs| && InErrorState(hs[i].pm) && !InErrorState(hs[k].pm)
    ensures exists j :: i < j <= k && (hs[j].pm.Disable? || (hs[j].pm.Por? && hs[j - 1].pm.SysErrProcess?))
  {
    PmTraceIsRun(cfg, hs, actions);
    var r := PmTrace(hs);
    ErrorLeftThroughDisableOrReset(r, i, k);
    var j :| i < j <= k && (r[j].Disable? || (r[j].Por? && r[j - 1].SysErrProcess?));
    assert hs[j].pm.Disable? || (hs[j].pm.Por? && hs[j - 1].pm.SysErrProcess?);
  }
}
