/** Every step of the host keeps the invariant. */
module HostSteps {
  import opened Rings
  import opened ChannelSpec
  import opened PmStates
  import opened WakeSpec
  import opened HostSpec
  import opened HostInvariant

  // ---- Steps that touch only the power state and the wake votes ----

  ghost predicate PmAction(a: Action) {
    || a.PmMove? || a.PanicDump? || a.PowerUpPor? || a.BeginReady? || a.BeginM0? || a.EnterM2? || a.ReachM3?
    || a.EnterM3? || a.ExitM3?
  }

  ghost predicate GetAction(a: Action) {
    a.WakeM0? || a.HoldForSuspend? || a.BeginGetSync? || a.FinishGetSync? || a.DeviceGet?
  }

  ghost predicate PutAction(a: Action) {
    a.EndM0? || a.KickM2? || a.ReleaseSuspend? || a.AbandonGetSync? || a.DevicePut? || a.WakeToggle? || a.FinishReady?
  }

  lemma PmActionKeeps(cfg: Config, h: Host, a: Action)
    requires Shape(cfg, h) && WakeInv(h) && PhaseInv(cfg, h) && Guard(cfg, h, a) && PmAction(a)
    ensures WakeInv(Next(cfg, h, a)) && PhaseInv(cfg, Next(cfg, h, a))
  {
  }

  lemma GetActionKeeps(cfg: Config, h: Host, a: Action)
    requires Shape(cfg, h) && WakeInv(h) && PhaseInv(cfg, h) && Guard(cfg, h, a) && GetAction(a)
    ensures WakeInv(Next(cfg, h, a)) && PhaseInv(cfg, Next(cfg, h, a))
  {
    GetMirrors(h.wake, h.pm, !a.HoldForSuspend?);
    match a {
      case FinishGetSync(d) => VotesUpdate(h.votes, d, h.votes[d] + 1, |h.votes|);
      case DeviceGet(d) => VotesUpdate(h.votes, d, h.votes[d] + 1, |h.votes|);
      case _ =>
    }
  }

  lemma PutActionKeeps(cfg: Config, h: Host, a: Action)
    requires Shape(cfg, h) && WakeInv(h) && PhaseInv(cfg, h) && Guard(cfg, h, a) && PutAction(a)
    ensures WakeInv(Next(cfg, h, a)) && PhaseInv(cfg, Next(cfg, h, a))
  {
    PutMirrors(h.wake, h.pm, false);
    match a {
      case KickM2 =>
        GetMirrors(h.wake, h.pm, true);
        PutMirrors(Get(h.wake, h.pm, true), h.pm, true);
      case DevicePut(d) => VotesUpdate(h.votes, d, h.votes[d] - 1, |h.votes|);
      case WakeToggle => ToggleKeeps(h.wake, h.pm, cfg.m2NoDb);
      case _ =>
    }
  }

  /** Channels, events and devices are as they were, and no announcement has become due. */
  ghost predicate Untouched(cfg: Config, h: Host, h': Host)
    requires Shape(cfg, h)
  {
    && h'.chans == h.chans && h'.events == h.events && h'.present == h.present && h'.pending == h.pending
    && |h'.votes| == |h.votes|
    && (forall d :: 0 <= d < |h.votes| && !h.present[d] ==> h'.votes[d] == h.votes[d])
    && (forall c :: 0 <= c < |h.chans| && MustBeAnnounced(cfg, h', c) ==> MustBeAnnounced(cfg, h, c))
  }

  lemma ChannelsUntouched(cfg: Config, h: Host, h': Host)
    requires Inv(cfg, h) && Untouched(cfg, h, h')
    ensures Shape(cfg, h') && PendingInv(cfg, h') && ChansInv(cfg, h') && EventsInv(cfg, h')
  {
    forall c | 0 <= c < |h'.chans|
      ensures ChanInv(cfg.chans[c], h'.chans[c], h'.present[cfg.chans[c].dev], MustBeAnnounced(cfg, h', c))
    {
      assert ChanInv(cfg.chans[c], h.chans[c], h.present[cfg.chans[c].dev], MustBeAnnounced(cfg, h, c));
    }
    forall r | 0 <= r < |h'.events| ensures RingInv(cfg, h', r) {
      assert RingInv(cfg, h, r);
    }
  }

  lemma PmLeaves(cfg: Config, h: Host, a: Action)
    requires Shape(cfg, h) && PhaseInv(cfg, h) && Guard(cfg, h, a) && PmAction(a)
    ensures Untouched(cfg, h, Next(cfg, h, a))
  {
  }

  lemma GetLeaves(cfg: Config, h: Host, a: Action)
    requires Shape(cfg, h) && PhaseInv(cfg, h) && Guard(cfg, h, a) && GetAction(a)
    ensures Untouched(cfg, h, Next(cfg, h, a))
  {
  }

  lemma PutLeaves(cfg: Config, h: Host, a: Action)
    requires Shape(cfg, h) && PhaseInv(cfg, h) && Guard(cfg, h, a) && PutAction(a)
    ensures Untouched(cfg, h, Next(cfg, h, a))
  {
  }

  lemma PmStep(cfg: Config, h: Host, a: Action)
    requires Inv(cfg, h) && Guard(cfg, h, a) && PmAction(a)
    ensures Inv(cfg, Next(cfg, h, a))
  {
    PmActionKeeps(cfg, h, a);
    PmLeaves(cfg, h, a);
    ChannelsUntouched(cfg, h, Next(cfg, h, a));
  }

  lemma GetStep(cfg: Config, h: Host, a: Action)
    requires Inv(cfg, h) && Guard(cfg, h, a) && GetAction(a)
    ensures Inv(cfg, Next(cfg, h, a))
  {
    GetActionKeeps(cfg, h, a);
    GetLeaves(cfg, h, a);
    ChannelsUntouched(cfg, h, Next(cfg, h, a));
  }

  lemma PutStep(cfg: Config, h: Host, a: Action)
    requires Inv(cfg, h) && Guard(cfg, h, a) && PutAction(a)
    ensures Inv(cfg, Next(cfg, h, a))
  {
    PutActionKeeps(cfg, h, a);
    PutLeaves(cfg, h, a);
    ChannelsUntouched(cfg, h, Next(cfg, h, a));
  }

  // ---- Steps that change one channel ----

  /** What a changed channel must satisfy for the invariant to survive, events being unchanged. */
  ghost predicate Compatible(cfg: Cfg, ch: Chan, ch': Chan) {
    && ch.WellFormed(cfg.elements) && ch'.WellFormed(cfg.elements)
    && (Active(ch) ==> Active(ch'))
    && |ch'.delivered| == |ch.delivered|
    && (Active(ch) ==> ch'.rp == ch.rp && Announced(ch, cfg.elements) <= Announced(ch', cfg.elements))
  }

  lemma OneChannel(cfg: Config, h: Host, h': Host, c: nat)
    requires Inv(cfg, h) && c < |h.chans| == |h'.chans|
    requires h' == h.(chans := h.chans[c := h'.chans[c]], m0 := h'.m0, wake := h'.wake, pending := h'.pending)
    requires Compatible(cfg.chans[c], h.chans[c], h'.chans[c])
    requires ChanInv(cfg.chans[c], h'.chans[c], h.present[cfg.chans[c].dev], MustBeAnnounced(cfg, h', c))
    requires forall i :: 0 <= i < |h.chans| && i != c && MustBeAnnounced(cfg, h', i) ==> MustBeAnnounced(cfg, h, i)
    requires h'.pending == h.pending + OutboundOf(cfg.chans[c], h'.chans[c]) - OutboundOf(cfg.chans[c], h.chans[c])
    ensures Shape(cfg, h') && PendingInv(cfg, h') && ChansInv(cfg, h') && EventsInv(cfg, h')
  {
    OutboundUpdate(cfg.chans, h.chans, c, h'.chans[c], |h.chans|);
    forall i | 0 <= i < |h'.chans|
      ensures ChanInv(cfg.chans[i], h'.chans[i], h'.present[cfg.chans[i].dev], MustBeAnnounced(cfg, h', i))
    {
      assert ChanInv(cfg.chans[i], h.chans[i], h.present[cfg.chans[i].dev], MustBeAnnounced(cfg, h, i));
    }
    forall r | 0 <= r < |h'.events| ensures RingInv(cfg, h', r) {
      OneChannelRing(cfg, h, h', c, r);
    }
  }

  lemma OneChannelRing(cfg: Config, h: Host, h': Host, c: nat, r: nat)
    requires Inv(cfg, h) && Shape(cfg, h') && c < |h.chans| && r < |h.events|
    requires |h'.events| == |h.events| && h'.chans == h.chans[c := h'.chans[c]] && h'.events[r] == h.events[r]
    requires Compatible(cfg.chans[c], h.chans[c], h'.chans[c])
    ensures RingInv(cfg, h', r)
  {
    assert RingInv(cfg, h, r);
    var es := h.events[r];
    forall i | 0 <= i < |es| && es[i].Tx? && es[i].chan < |h.chans|
      ensures EventInv(cfg.chans[es[i].chan], h'.chans[es[i].chan], r, es[i])
    {
      assert EventInv(cfg.chans[es[i].chan], h.chans[es[i].chan], r, es[i]);
    }
  }

  lemma RingM0Keeps(cfg: Cfg, ch: Chan, present: bool, announced: bool)
    requires ChanInv(cfg, ch, present, announced)
    ensures ChanInv(cfg, RingForM0(cfg, ch), present, true)
    ensures Compatible(cfg, ch, RingForM0(cfg, ch))
  {
  }

  lemma QueueKeeps(cfg: Cfg, ch: Chan, b: Buf, ring: bool, announced: bool)
    requires ChanInv(cfg, ch, true, announced) && ch.state.Enabled? && ch.Outstanding() < cfg.elements - 1
    requires announced ==> ring
    ensures var q := ch.Queue(cfg.elements, b);
            var ch' := if ring then q.RingDb(cfg.burst) else q;
            ChanInv(cfg, ch', true, announced) && Compatible(cfg, ch, ch')
  {
    var q := ch.Queue(cfg.elements, b);
    assert q.Unannounced(cfg.elements) == ch.Unannounced(cfg.elements) + 1;
    assert InOrder(q);
  }

  lemma PrepareKeeps(cfg: Cfg, ch: Chan, announced: bool, state: ChState)
    requires ChanInv(cfg, ch, true, announced) && ch.state.Disabled? && (state.Enabled? || state.Disabled?)
    ensures ChanInv(cfg, ch.Init().(state := state), true, true)
    ensures Compatible(cfg, ch, ch.Init().(state := state))
  {
  }

  lemma ToggleWake(cfg: Config, h: Host, h': Host)
    requires WakeInv(h)
    requires h'.wake == Toggle(h.wake, h.pm, cfg.m2NoDb) && h'.pm == h.pm && h'.m0 == h.m0
    requires h'.votes == h.votes && h'.syncHolds == h.syncHolds && h'.suspendHolds == h.suspendHolds
    ensures WakeInv(h')
  {
    ToggleKeeps(h.wake, h.pm, cfg.m2NoDb);
  }

  lemma EnqueueStep(cfg: Config, h: Host, h1: Host, c: nat, b: Buf)
    requires Inv(cfg, h) && c < |h.chans| && h.chans[c].state.Enabled?
    requires h.chans[c].Outstanding() < Elements(cfg, c) - 1
    requires h1 == h.(wake := Toggle(h.wake, h.pm, cfg.m2NoDb))
    ensures Inv(cfg, Enqueue(cfg, h1, c, b))
  {
    var h' := Enqueue(cfg, h1, c, b);
    ToggleWake(cfg, h, h');
    QueueKeeps(cfg.chans[c], h.chans[c], b, DbAccess(cfg, h), MustBeAnnounced(cfg, h, c));
    OneChannel(cfg, h, h', c);
  }

  lemma ToggleStep(cfg: Config, h: Host, h1: Host)
    requires Inv(cfg, h) && h1 == h.(wake := Toggle(h.wake, h.pm, cfg.m2NoDb))
    ensures Inv(cfg, h1)
  {
    ToggleWake(cfg, h, h1);
    ChannelsUntouched(cfg, h, h1);
  }

  lemma QueueStep(cfg: Config, h: Host, a: Action)
    requires Inv(cfg, h) && Guard(cfg, h, a) && (a.QueueBuf? || a.QueueSkb?)
    ensures Inv(cfg, Next(cfg, h, a))
  {
    var h1 := h.(wake := Toggle(h.wake, h.pm, cfg.m2NoDb));
    ToggleStep(cfg, h, h1);
    if h.chans[a.c].Outstanding() < Elements(cfg, a.c) - 1 {
      EnqueueStep(cfg, h, h1, a.c, a.b);
    }
  }

  lemma RingM0Step(cfg: Config, h: Host)
    requires Inv(cfg, h) && Guard(cfg, h, RingM0)
    ensures Inv(cfg, Next(cfg, h, RingM0))
  {
    var c := h.m0.next;
    RingM0Keeps(cfg.chans[c], h.chans[c], h.present[cfg.chans[c].dev], MustBeAnnounced(cfg, h, c));
    OneChannel(cfg, h, Next(cfg, h, RingM0), c);
  }

  lemma StopStep(cfg: Config, h: Host, c: nat)
    requires Inv(cfg, h) && Guard(cfg, h, StopChan(c))
    ensures Inv(cfg, Next(cfg, h, StopChan(c)))
  {
    assert ChanInv(cfg.chans[c], h.chans[c], h.present[cfg.chans[c].dev], MustBeAnnounced(cfg, h, c));
    OneChannel(cfg, h, Next(cfg, h, StopChan(c)), c);
  }

  lemma PrepareStep(cfg: Config, h: Host, a: Action)
    requires Inv(cfg, h) && a.PrepareChan? && Guard(cfg, h, a)
    ensures Inv(cfg, Next(cfg, h, a))
  {
    var h' := Next(cfg, h, a);
    if a.allocOk {
      PrepareKeeps(cfg.chans[a.c], h.chans[a.c], MustBeAnnounced(cfg, h, a.c), h'.chans[a.c].state);
      OneChannel(cfg, h, h', a.c);
    }
  }

  // ---- Steps that change event rings ----

  lemma PostStep(cfg: Config, h: Host, r: nat, e: Event)
    requires Inv(cfg, h) && Guard(cfg, h, Post(r, e))
    ensures Inv(cfg, Next(cfg, h, Post(r, e)))
  {
    var h' := Next(cfg, h, Post(r, e));
    forall q | 0 <= q < |h'.events| ensures RingInv(cfg, h', q) {
      assert RingInv(cfg, h, q);
      if q == r {
        var es, es' := h.events[r], h'.events[r];
        forall i, j | 0 <= i < j < |es'| && SameChanCompletions(es'[i], es'[j]) ensures es'[i].id < es'[j].id {
          if j < |es| {
            assert SameChanCompletions(es[i], es[j]);
          }
        }
      }
    }
    forall c | 0 <= c < |h'.chans|
      ensures ChanInv(cfg.chans[c], h'.chans[c], h'.present[cfg.chans[c].dev], MustBeAnnounced(cfg, h', c))
    {
      assert ChanInv(cfg.chans[c], h.chans[c], h.present[cfg.chans[c].dev], MustBeAnnounced(cfg, h, c));
    }
  }

  /** Taking the head off a ring leaves the rest of it, and every other ring, as good as before. */
  lemma TailRing(cfg: Config, h: Host, h': Host, r: nat, q: nat)
    requires Inv(cfg, h) && r < |h.events| && |h.events[r]| > 0 && q < |h.events|
    requires h' == h.(events := h.events[r := h.events[r][1..]])
    ensures RingInv(cfg, h', q)
  {
    assert RingInv(cfg, h, q);
    if q == r {
      var es, es' := h.events[r], h'.events[r];
      forall i, j | 0 <= i < j < |es'| && SameChanCompletions(es'[i], es'[j]) ensures es'[i].id < es'[j].id {
        assert SameChanCompletions(es[i + 1], es[j + 1]);
      }
    }
  }

  /** After a completion the other unread completions of the channel still name outstanding buffers. */
  lemma LaterCompletion(cfg: Cfg, ch: Chan, r: nat, e: Event, f: Event)
    requires ch.WellFormed(cfg.elements) && ch.state.Enabled? && Completion(e) && f.Tx?
    requires ch.Unannounced(cfg.elements) <= ch.Outstanding()
    requires EventInv(cfg, ch, r, e) && EventInv(cfg, ch, r, f)
    requires Completion(f) ==> e.id < f.id
    ensures e.slot < cfg.elements && ch.Completed(cfg.elements, e.slot) <= ch.Outstanding()
    ensures EventInv(cfg, ch.Complete(cfg.elements, e.slot, e.len, EventStatus(e.code)), r, f)
  {
    SlotCompletes(ch, cfg.elements, e);
    CompleteDelivers(ch, cfg.elements, e.slot, e.len, EventStatus(e.code));
  }

  lemma CompleteKeeps(cfg: Cfg, ch: Chan, r: nat, e: Event, present: bool, announced: bool)
    requires ChanInv(cfg, ch, present, announced) && ch.state.Enabled? && Completion(e) && EventInv(cfg, ch, r, e)
    ensures e.slot < cfg.elements && ch.Completed(cfg.elements, e.slot) <= ch.Outstanding()
    ensures ChanInv(cfg, ch.Complete(cfg.elements, e.slot, e.len, EventStatus(e.code)), present, announced)
    ensures |ch.Complete(cfg.elements, e.slot, e.len, EventStatus(e.code)).delivered| == e.id + 1
  {
    SlotCompletes(ch, cfg.elements, e);
    CompleteDelivers(ch, cfg.elements, e.slot, e.len, EventStatus(e.code));
    CompleteInOrder(ch, cfg.elements, e.slot, e.len, EventStatus(e.code));
  }

  lemma DbEventKeeps(cfg: Cfg, ch: Chan, present: bool, announced: bool, dbAccess: bool)
    requires ChanInv(cfg, ch, present, announced) && ch.state.Enabled?
    requires announced ==> dbAccess
    ensures ChanInv(cfg, ch.DbEvent(cfg.burst, dbAccess), present, announced)
    ensures Compatible(cfg, ch, ch.DbEvent(cfg.burst, dbAccess))
  {
  }

  lemma TailKeeps(cfg: Config, h: Host, h1: Host, r: nat)
    requires Inv(cfg, h) && r < |h.events| && |h.events[r]| > 0
    requires h1 == h.(events := h.events[r := h.events[r][1..]])
    ensures Inv(cfg, h1)
  {
    forall q | 0 <= q < |h1.events| ensures RingInv(cfg, h1, q) {
      TailRing(cfg, h, h1, r, q);
    }
    forall c | 0 <= c < |h1.chans|
      ensures ChanInv(cfg.chans[c], h1.chans[c], h1.present[cfg.chans[c].dev], MustBeAnnounced(cfg, h1, c))
    {
      assert ChanInv(cfg.chans[c], h.chans[c], h.present[cfg.chans[c].dev], MustBeAnnounced(cfg, h, c));
    }
  }

  /** The rings after the completion at the head of ring r was handled. */
  lemma CompletionRing(cfg: Config, h: Host, h1: Host, h': Host, r: nat, q: nat)
    requires Inv(cfg, h) && Inv(cfg, h1) && r < |h.events| && |h.events[r]| > 0 && q < |h.events|
    requires h1 == h.(events := h.events[r := h.events[r][1..]])
    requires var e := h.events[r][0];
             && Completion(e) && e.chan < |h.chans| && h.chans[e.chan].state.Enabled?
             && EventInv(cfg.chans[e.chan], h.chans[e.chan], r, e)
             && e.slot < Elements(cfg, e.chan)
                 && h.chans[e.chan].Completed(Elements(cfg, e.chan), e.slot) <= h.chans[e.chan].Outstanding()
             && h' == h1.(chans := h.chans[e.chan :=
                 h.chans[e.chan].Complete(Elements(cfg, e.chan), e.slot, e.len, EventStatus(e.code))],
                          pending := h'.pending)
    requires Shape(cfg, h')
    ensures RingInv(cfg, h', q)
  {
    var e := h.events[r][0];
    var c := e.chan;
    var es := h1.events[q];
    assert RingInv(cfg, h1, q);
    assert RingInv(cfg, h, q);
    forall i | 0 <= i < |es| && es[i].Tx? && es[i].chan < |h.chans|
      ensures EventInv(cfg.chans[es[i].chan], h'.chans[es[i].chan], q, es[i])
    {
      assert EventInv(cfg.chans[es[i].chan], h.chans[es[i].chan], q, es[i]);
      if es[i].chan == c {
        assert q == r && es[i] == h.events[r][i + 1];
        assert SameChanCompletions(e, h.events[r][i + 1]) ==> e.id < h.events[r][i + 1].id;
        assert ChanInv(cfg.chans[c], h.chans[c], h.present[cfg.chans[c].dev], MustBeAnnounced(cfg, h, c));
        LaterCompletion(cfg.chans[c], h.chans[c], r, e, es[i]);
      }
    }
  }

  lemma ConsumeCompletion(cfg: Config, h: Host, r: nat)
    requires Inv(cfg, h) && r < |h.events| && |h.events[r]| > 0
    requires var e := h.events[r][0]; Completion(e) && e.chan < |h.chans| && h.chans[e.chan].state.Enabled?
    ensures HeadOk(cfg, h, r) && Inv(cfg, Handle(cfg, h, r))
  {
    HeadIsOk(cfg, h, r);
    var e := h.events[r][0];
    var c := e.chan;
    var h1, h' := h.(events := h.events[r := h.events[r][1..]]), Handle(cfg, h, r);
    TailKeeps(cfg, h, h1, r);
    assert RingInv(cfg, h, r);
    CompleteKeeps(cfg.chans[c], h.chans[c], r, e, h.present[cfg.chans[c].dev], MustBeAnnounced(cfg, h, c));
    OutboundUpdate(cfg.chans, h.chans, c, h'.chans[c], |h.chans|);
    assert |h'.chans[c].accepted| == |h.chans[c].accepted| by {
      CompleteDelivers(h.chans[c], Elements(cfg, c), e.slot, e.len, EventStatus(e.code));
    }
    forall i | 0 <= i < |h'.chans|
      ensures ChanInv(cfg.chans[i], h'.chans[i], h'.present[cfg.chans[i].dev], MustBeAnnounced(cfg, h', i))
    {
      assert ChanInv(cfg.chans[i], h.chans[i], h.present[cfg.chans[i].dev], MustBeAnnounced(cfg, h, i));
    }
    assert Shape(cfg, h');
    forall q | 0 <= q < |h'.events| ensures RingInv(cfg, h', q) {
      CompletionRing(cfg, h, h1, h', r, q);
    }
  }

  lemma ConsumeOther(cfg: Config, h: Host, r: nat)
    requires Inv(cfg, h) && r < |h.events| && |h.events[r]| > 0
    requires var e := h.events[r][0]; Completion(e) && e.chan < |h.chans| ==> !h.chans[e.chan].state.Enabled?
    ensures HeadOk(cfg, h, r) && Inv(cfg, Handle(cfg, h, r))
  {
    HeadIsOk(cfg, h, r);
    var e := h.events[r][0];
    var h1, h' := h.(events := h.events[r := h.events[r][1..]]), Handle(cfg, h, r);
    TailKeeps(cfg, h, h1, r);
    if e.Tx? && e.chan < |h.chans| {
      var c := e.chan;
      assert ChanInv(cfg.chans[c], h.chans[c], h.present[cfg.chans[c].dev], MustBeAnnounced(cfg, h, c));
      if h.chans[c].state.Enabled? {
        DbEventKeeps(cfg.chans[c], h.chans[c], h.present[cfg.chans[c].dev], MustBeAnnounced(cfg, h, c),
            DbAccess(cfg, h));
      }
      OneChannel(cfg, h1, h', c);
    }
  }

  lemma ConsumeStep(cfg: Config, h: Host, r: nat)
    requires Inv(cfg, h) && Guard(cfg, h, Consume(r))
    ensures HeadOk(cfg, h, r) && Inv(cfg, Next(cfg, h, Consume(r)))
  {
    HeadIsOk(cfg, h, r);
    var e := h.events[r][0];
    if Completion(e) && e.chan < |h.chans| && h.chans[e.chan].state.Enabled? {
      ConsumeCompletion(cfg, h, r);
    } else {
      ConsumeOther(cfg, h, r);
    }
  }

  // ---- Channel reset, devices and power-up ----

  lemma FlushKeeps(cfg: Cfg, ch: Chan, present: bool, announced: bool, state: ChState)
    requires ChanInv(cfg, ch, present, announced) && present && (state.Disabled? || state.Suspended?)
    ensures ChanInv(cfg, ch.Flush(cfg.elements).(state := state), present, announced)
    ensures ch.Flush(cfg.elements).accepted == ch.accepted
  {
    FlushDelivers(ch, cfg.elements);
    FlushInOrder(ch, cfg.elements);
  }

  lemma ResetRing(cfg: Config, h: Host, h': Host, c: nat, q: nat)
    requires Inv(cfg, h) && c < |h.chans| && q < |h.events| && Shape(cfg, h')
    requires h'.chans == h.chans[c := h'.chans[c]]
    requires h'.events == h.events[cfg.chans[c].er := MarkStale(h.events[cfg.chans[c].er], c)]
    ensures RingInv(cfg, h', q)
  {
    assert RingInv(cfg, h, q);
    var es, es' := h.events[q], h'.events[q];
    forall i | 0 <= i < |es'| && es'[i].Tx? && es'[i].chan < |h.chans|
      ensures EventInv(cfg.chans[es'[i].chan], h'.chans[es'[i].chan], q, es'[i])
    {
      assert EventInv(cfg.chans[es[i].chan], h.chans[es[i].chan], q, es[i]);
    }
    forall i, j | 0 <= i < j < |es'| && SameChanCompletions(es'[i], es'[j]) ensures es'[i].id < es'[j].id {
      assert SameChanCompletions(es[i], es[j]);
    }
  }

  lemma ResetKeeps(cfg: Config, h: Host, c: nat, state: ChState)
    requires Inv(cfg, h) && c < |h.chans| && h.present[cfg.chans[c].dev] && (state.Disabled? || state.Suspended?)
    ensures Inv(cfg, Reset(cfg, h, c, state))
  {
    var h' := Reset(cfg, h, c, state);
    FlushKeeps(cfg.chans[c], h.chans[c], h.present[cfg.chans[c].dev], MustBeAnnounced(cfg, h, c), state);
    OutboundUpdate(cfg.chans, h.chans, c, h'.chans[c], |h.chans|);
    forall i | 0 <= i < |h'.chans|
      ensures ChanInv(cfg.chans[i], h'.chans[i], h'.present[cfg.chans[i].dev], MustBeAnnounced(cfg, h', i))
    {
      assert ChanInv(cfg.chans[i], h.chans[i], h.present[cfg.chans[i].dev], MustBeAnnounced(cfg, h, i));
    }
    assert Shape(cfg, h');
    forall q | 0 <= q < |h'.events| ensures RingInv(cfg, h', q) {
      ResetRing(cfg, h, h', c, q);
    }
  }

  lemma ResetStep(cfg: Config, h: Host, a: Action)
    requires Inv(cfg, h) && Guard(cfg, h, a) && (a.ResetChan? || a.SuspendChan?)
    ensures Inv(cfg, Next(cfg, h, a))
  {
    assert ChanInv(cfg.chans[a.c], h.chans[a.c], h.present[cfg.chans[a.c].dev], MustBeAnnounced(cfg, h, a.c));
    ResetKeeps(cfg, h, a.c, if a.ResetChan? then Disabled else Suspended);
  }

  /** With channels changed at most from SUSPENDED to DISABLED and no event added, all rings stay good. */
  lemma RingsSurvive(cfg: Config, h: Host, h': Host)
    requires Inv(cfg, h) && Shape(cfg, h')
    requires forall c :: 0 <= c < |h.chans| ==>
               || h'.chans[c] == h.chans[c]
               || (h.chans[c].state.Suspended? && h'.chans[c] == h.chans[c].(state := Disabled))
    requires h'.events == h.events || forall r :: 0 <= r < |h'.events| ==> h'.events[r] == []
    ensures EventsInv(cfg, h')
  {
    forall q | 0 <= q < |h'.events| ensures RingInv(cfg, h', q) {
      assert RingInv(cfg, h, q);
      var es := h'.events[q];
      forall i | 0 <= i < |es| && es[i].Tx? && es[i].chan < |h.chans|
        ensures EventInv(cfg.chans[es[i].chan], h'.chans[es[i].chan], q, es[i])
      {
        assert EventInv(cfg.chans[es[i].chan], h.chans[es[i].chan], q, es[i]);
      }
    }
  }

  lemma CreateStep(cfg: Config, h: Host, d: nat)
    requires Inv(cfg, h) && Guard(cfg, h, CreateDevice(d))
    ensures Inv(cfg, Next(cfg, h, CreateDevice(d)))
  {
    var h' := Next(cfg, h, CreateDevice(d));
    forall c | 0 <= c < |h'.chans|
      ensures ChanInv(cfg.chans[c], h'.chans[c], h'.present[cfg.chans[c].dev], MustBeAnnounced(cfg, h', c))
    {
      assert ChanInv(cfg.chans[c], h.chans[c], h.present[cfg.chans[c].dev], MustBeAnnounced(cfg, h, c));
    }
    RingsSurvive(cfg, h, h');
  }

  lemma RemoveKeeps(cfg: Cfg, ch: Chan, present: bool, announced: bool)
    requires ChanInv(cfg, ch, present, announced)
    ensures ch.state.Suspended? ==> ChanInv(cfg, ch.(state := Disabled), false, announced)
  {
  }

  /** The removed device's votes go, all others stay, and nobody else's vote goes unheard. */
  lemma RemoveWake(cfg: Config, h: Host, d: nat, h': Host)
    requires Shape(cfg, h) && WakeInv(h) && PhaseInv(cfg, h) && d < |h.present| && |h.votes| == |h.present|
    requires h'.votes == h.votes[d := 0] && h'.wake == PutAll(h.wake, h.pm, h.votes[d])
    requires h'.pm == h.pm && h'.m0 == h.m0 && h'.readying == h.readying
    requires h'.syncHolds == h.syncHolds && h'.suspendHolds == h.suspendHolds
    ensures WakeInv(h') && PhaseInv(cfg, h')
  {
    VotesUpdate(h.votes, d, 0, |h.votes|);
    PutAllKeeps(h.wake, h.pm, h.votes[d]);
  }

  lemma RemoveChans(cfg: Config, h: Host, d: nat, h': Host)
    requires Shape(cfg, h) && PendingInv(cfg, h) && ChansInv(cfg, h) && d < |h.present|
    requires forall c :: 0 <= c < |h.chans| && cfg.chans[c].dev == d ==> h.chans[c].state.Suspended?
    requires h'.chans == DisableOf(cfg.chans, h.chans, d) && h'.present == h.present[d := false]
    requires h'.votes == h.votes[d := 0] && h'.events == h.events && h'.pending == h.pending
    requires h'.pm == h.pm && h'.m0 == h.m0
    ensures Shape(cfg, h') && PendingInv(cfg, h') && ChansInv(cfg, h')
  {
    forall c | 0 <= c < |h'.chans|
      ensures h'.chans[c].WellFormed(cfg.chans[c].elements)
      ensures ChanInv(cfg.chans[c], h'.chans[c], h'.present[cfg.chans[c].dev], MustBeAnnounced(cfg, h', c))
    {
      assert ChanInv(cfg.chans[c], h.chans[c], h.present[cfg.chans[c].dev], MustBeAnnounced(cfg, h, c));
      RemoveKeeps(cfg.chans[c], h.chans[c], h.present[cfg.chans[c].dev], MustBeAnnounced(cfg, h, c));
    }
    OutboundSame(cfg.chans, h.chans, h'.chans, |h.chans|);
  }

  lemma RemoveStep(cfg: Config, h: Host, d: nat)
    requires Inv(cfg, h) && Guard(cfg, h, RemoveDevice(d))
    ensures Inv(cfg, Next(cfg, h, RemoveDevice(d)))
  {
    var h' := Next(cfg, h, RemoveDevice(d));
    RemoveWake(cfg, h, d, h');
    RemoveChans(cfg, h, d, h');
    RingsSurvive(cfg, h, h');
  }

  lemma ResetRingsStep(cfg: Config, h: Host)
    requires Inv(cfg, h) && Guard(cfg, h, ResetRings)
    ensures Inv(cfg, Next(cfg, h, ResetRings))
  {
    var h' := Next(cfg, h, ResetRings);
    forall c | 0 <= c < |h'.chans|
      ensures ChanInv(cfg.chans[c], h'.chans[c], h'.present[cfg.chans[c].dev], MustBeAnnounced(cfg, h', c))
    {
      assert ChanInv(cfg.chans[c], h.chans[c], h.present[cfg.chans[c].dev], MustBeAnnounced(cfg, h, c));
    }
    RingsSurvive(cfg, h, h');
  }

  lemma PowerUpStep(cfg: Config, h: Host)
    requires Inv(cfg, h) && Guard(cfg, h, PowerUp)
    ensures Inv(cfg, Next(cfg, h, PowerUp))
  {
    var h' := Next(cfg, h, PowerUp);
    forall c | 0 <= c < |h'.chans|
      ensures ChanInv(cfg.chans[c], h'.chans[c], h'.present[cfg.chans[c].dev], MustBeAnnounced(cfg, h', c))
    {
      assert ChanInv(cfg.chans[c], h.chans[c], h.present[cfg.chans[c].dev], MustBeAnnounced(cfg, h, c));
    }
    VotesZero(h.votes, |h.votes|);
    OutboundZero(cfg.chans, h.chans, |h.chans|);
    RingsSurvive(cfg, h, h');
  }

  /** The invariant is inductive. */
  lemma StepKeepsInv(cfg: Config, h: Host, a: Action)
    requires Inv(cfg, h) && Guard(cfg, h, a)
    ensures a.Consume? ==> HeadOk(cfg, h, a.r)
    ensures Inv(cfg, Next(cfg, h, a))
  {
    if PmAction(a) {
      PmStep(cfg, h, a);
    } else if GetAction(a) {
      GetStep(cfg, h, a);
    } else if PutAction(a) {
      PutStep(cfg, h, a);
    } else {
      DataStepKeepsInv(cfg, h, a);
    }
  }

  lemma DataStepKeepsInv(cfg: Config, h: Host, a: Action)
    requires Inv(cfg, h) && Guard(cfg, h, a) && !PmAction(a) && !GetAction(a) && !PutAction(a)
    ensures a.Consume? ==> HeadOk(cfg, h, a.r)
    ensures Inv(cfg, Next(cfg, h, a))
  {
    match a {
      case QueueBuf(_, _, _) => QueueStep(cfg, h, a);
      case QueueSkb(_, _, _) => QueueStep(cfg, h, a);
      case RingM0 => RingM0Step(cfg, h);
      case StopChan(c) => StopStep(cfg, h, c);
      case PrepareChan(_, _, _) => PrepareStep(cfg, h, a);
      case Post(r, e) => PostStep(cfg, h, r, e);
      case Consume(r) => ConsumeStep(cfg, h, r);
      case ResetChan(_) => ResetStep(cfg, h, a);
      case SuspendChan(_) => ResetStep(cfg, h, a);
      case CreateDevice(d) => CreateStep(cfg, h, d);
      case RemoveDevice(d) => RemoveStep(cfg, h, d);
      case ResetRings => ResetRingsStep(cfg, h);
      case PowerUp => PowerUpStep(cfg, h);
      case _ =>
    }
  }
}
