/** What every step of the host keeps. */
module HostInvariant {
  import opened Rings
  import opened ChannelSpec
  import opened PmStates
  import opened WakeSpec
  import opened HostSpec

  // ---- Sums over channels and devices ----

  ghost function OutboundOf(cfg: Cfg, ch: Chan): int {
    if cfg.outbound then |ch.accepted| - |ch.delivered| else 0
  }

  /** Outstanding elements of the outbound channels below k. */
  ghost function OutboundTo(cfgs: seq<Cfg>, chans: seq<Chan>, k: nat): int
    requires k <= |chans| == |cfgs|
  {
    if k == 0 then 0 else OutboundTo(cfgs, chans, k - 1) + OutboundOf(cfgs[k - 1], chans[k - 1])
  }

  lemma {:induction false} OutboundUpdate(cfgs: seq<Cfg>, chans: seq<Chan>, c: nat, ch: Chan, k: nat)
    requires c < |chans| == |cfgs| && k <= |chans|
    ensures OutboundTo(cfgs, chans[c := ch], k) == OutboundTo(cfgs, chans, k)
              + if c < k then OutboundOf(cfgs[c], ch) - OutboundOf(cfgs[c], chans[c]) else 0
  {
    if k > 0 {
      OutboundUpdate(cfgs, chans, c, ch, k - 1);
    }
  }

  lemma {:induction false} OutboundSame(cfgs: seq<Cfg>, a: seq<Chan>, b: seq<Chan>, k: nat)
    requires k <= |a| == |b| == |cfgs|
    requires forall c :: 0 <= c < k ==> OutboundOf(cfgs[c], a[c]) == OutboundOf(cfgs[c], b[c])
    ensures OutboundTo(cfgs, a, k) == OutboundTo(cfgs, b, k)
  {
    if k > 0 {
      OutboundSame(cfgs, a, b, k - 1);
    }
  }

  ghost function VotesTo(votes: seq<nat>, k: nat): nat
    requires k <= |votes|
  {
    if k == 0 then 0 else VotesTo(votes, k - 1) + votes[k - 1]
  }

  lemma {:induction false} VotesUpdate(votes: seq<nat>, d: nat, v: nat, k: nat)
    requires d < |votes| && k <= |votes|
    ensures VotesTo(votes[d := v], k) == VotesTo(votes, k) + if d < k then v - votes[d] else 0
  {
    if k > 0 {
      VotesUpdate(votes, d, v, k - 1);
    }
  }

  lemma {:induction false} VotesZero(votes: seq<nat>, k: nat)
    requires k <= |votes|
    ensures VotesTo(votes, k) == 0 <==> forall d :: 0 <= d < k ==> votes[d] == 0
  {
    if k > 0 {
      VotesZero(votes, k - 1);
    }
  }

  ghost function Votes(h: Host): nat {
    VotesTo(h.votes, |h.votes|)
  }

  // ---- The invariant ----

  /** `dev_wake` is the sum of all votes, and a forced vote has woken the device wherever it may be woken. */
  ghost predicate WakeInv(h: Host) {
    && Mirrors(h.wake)
    && h.wake.count == Votes(h) + h.syncHolds + h.suspendHolds + (if h.m0.Ringing? then 1 else 0)
    && ((h.pm.M0? || h.pm.M2?) && !h.m0.Entered? && Votes(h) + h.syncHolds > 0 ==> h.wake.asserted)
  }

  ghost predicate PhaseInv(cfg: Config, h: Host) {
    && (h.readying ==> !h.pm.M0? && !LowPower(h.pm))
    && (h.m0.Ringing? ==> h.m0.next <= |cfg.chans|)
    && (!h.m0.Idle? ==> !LowPower(h.pm) || h.pm.M3Enter?)
  }

  ghost predicate PendingInv(cfg: Config, h: Host)
    requires |h.chans| == |cfg.chans|
  {
    h.pending == OutboundTo(cfg.chans, h.chans, |h.chans|)
  }

  /** Nothing queued is hidden from the device. */
  ghost predicate AnnouncedInv(cfg: Cfg, ch: Chan) {
    && ch.ctxtWp == ch.wp
    && (cfg.burst ==> !ch.dbMode || |ch.accepted| == |ch.delivered|)
    && (!cfg.burst && |ch.accepted| > |ch.delivered| ==> ch.dbReg == ch.wp)
  }

  /** Doorbells may be rung, and the M0 handler, if at work, has passed channel c. */
  ghost predicate MustBeAnnounced(cfg: Config, h: Host, c: nat) {
    DbAccess(cfg, h) && (h.m0.Idle? || (h.m0.Ringing? && c < h.m0.next))
  }

  ghost predicate ChanInv(cfg: Cfg, ch: Chan, present: bool, announced: bool) {
    && ch.WellFormed(cfg.elements)
    && InOrder(ch)
    && ch.start <= |ch.delivered|
    && (Active(ch) ==> ch.Unannounced(cfg.elements) <= ch.Outstanding())
    && (!Active(ch) ==> ch.Outstanding() == 0)
    && (!present ==> ch.state.Disabled?)
    && (ch.state.Enabled? && announced ==> AnnouncedInv(cfg, ch))
  }

  ghost predicate ChansInv(cfg: Config, h: Host)
    requires Shape(cfg, h)
  {
    && (forall c :: 0 <= c < |h.chans| ==>
          ChanInv(cfg.chans[c], h.chans[c], h.present[cfg.chans[c].dev], MustBeAnnounced(cfg, h, c)))
    && (forall d :: 0 <= d < |h.present| && !h.present[d] ==> h.votes[d] == 0)
  }

  /** An unread completion names an announced, outstanding buffer of the channel's current session. */
  ghost predicate EventInv(cfg: Cfg, ch: Chan, r: nat, e: Event)
    requires ch.WellFormed(cfg.elements)
  {
    && cfg.er == r
    && (Completion(e) ==>
          && Active(ch)
          && |ch.delivered| <= e.id < Announced(ch, cfg.elements)
          && e.slot == Wrap(ch.rp + (e.id - |ch.delivered|), cfg.elements))
  }

  ghost predicate SameChanCompletions(e: Event, f: Event) {
    Completion(e) && Completion(f) && e.chan == f.chan
  }

  ghost predicate RingInv(cfg: Config, h: Host, r: nat)
    requires Shape(cfg, h) && r < |h.events|
  {
    var es := h.events[r];
    && (forall i :: 0 <= i < |es| && es[i].Tx? && es[i].chan < |h.chans| ==>
          EventInv(cfg.chans[es[i].chan], h.chans[es[i].chan], r, es[i]))
    && (forall i, j :: 0 <= i < j < |es| && SameChanCompletions(es[i], es[j]) ==> es[i].id < es[j].id)
  }

  ghost predicate EventsInv(cfg: Config, h: Host)
    requires Shape(cfg, h)
  {
    forall r :: 0 <= r < |h.events| ==> RingInv(cfg, h, r)
  }

  ghost predicate Inv(cfg: Config, h: Host) {
    && Shape(cfg, h)
    && WakeInv(h)
    && PhaseInv(cfg, h)
    && PendingInv(cfg, h)
    && ChansInv(cfg, h)
    && EventsInv(cfg, h)
  }

  lemma InitialInv(cfg: Config, h: Host)
    requires Initial(cfg, h)
    ensures Inv(cfg, h)
  {
    VotesZero(h.votes, |h.votes|);
    OutboundZero(cfg.chans, h.chans, |h.chans|);
  }

  lemma {:induction false} OutboundZero(cfgs: seq<Cfg>, chans: seq<Chan>, k: nat)
    requires k <= |chans| == |cfgs|
    requires forall c :: 0 <= c < k ==> |chans[c].accepted| == |chans[c].delivered|
    ensures OutboundTo(cfgs, chans, k) == 0
  {
    if k > 0 {
      OutboundZero(cfgs, chans, k - 1);
    }
  }

  /** The invariant makes the next event of every ring acceptable to its channel. */
  lemma HeadIsOk(cfg: Config, h: Host, r: nat)
    requires Inv(cfg, h) && r < |h.events|
    ensures HeadOk(cfg, h, r)
  {
    assert RingInv(cfg, h, r);
    if |h.events[r]| > 0 {
      var e := h.events[r][0];
      if Completion(e) && e.chan < |h.chans| {
        assert EventInv(cfg.chans[e.chan], h.chans[e.chan], r, e);
        SlotCompletes(h.chans[e.chan], Elements(cfg, e.chan), e);
      }
    }
  }

  /** Completing up to the named buffer removes exactly the elements up to it. */
  lemma SlotCompletes(ch: Chan, n: nat, e: Event)
    requires ch.WellFormed(n) && Completion(e)
    requires |ch.delivered| <= e.id < |ch.accepted|
    requires e.slot == Wrap(ch.rp + (e.id - |ch.delivered|), n)
    ensures e.slot < n && ch.Completed(n, e.slot) == e.id + 1 - |ch.delivered|
  {
    DistanceUnique(ch.rp, e.id - |ch.delivered|, n);
  }
}
