/** The controller object of the power-management code, method by method, tied to the steps of the host. */
module Controllers {
  import opened Rings
  import opened ChannelSpec
  import opened PmStates
  import opened WakeSpec
  import opened HostSpec
  import opened HostInvariant
  import opened HostSteps

  /** `mhi_pm_m0_transition` from its first to its last region, with nothing else in between. */
  ghost function AfterM0(cfg: Config, h: Host): Host
    requires Shape(cfg, h)
  {
    if !TrySet(h.pm, M0).M0? then h
    else h.(pm := M0, m0 := Idle,
            wake := Put(Get(h.wake, M0, true), M0, false),
            chans := RungTo(cfg.chans, h.chans, |h.chans|))
  }

  /** The first k channels rung for M0. */
  ghost function RungTo(cfgs: seq<Cfg>, chans: seq<Chan>, k: nat): (r: seq<Chan>)
    requires k <= |chans| == |cfgs|
    requires forall c :: 0 <= c < |chans| ==> |chans[c].delivered| <= |chans[c].accepted|
    ensures |r| == |chans|
    ensures forall c :: 0 <= c < |chans| ==> r[c] == if c < k then RingForM0(cfgs[c], chans[c]) else chans[c]
  {
    seq(|chans|, c requires 0 <= c < |chans| => if c < k then RingForM0(cfgs[c], chans[c]) else chans[c])
  }

  /** The handler's state while it rings, the first k channels done. */
  ghost function RingingAt(cfg: Config, h: Host, k: nat): Host
    requires Shape(cfg, h) && k <= |h.chans|
  {
    h.(pm := M0, m0 := Ringing(k), wake := Get(h.wake, M0, true), chans := RungTo(cfg.chans, h.chans, k))
  }

  /** Undisturbed, the atomic steps of the M0 handler lead to the state `AfterM0` describes. */
  lemma M0FirstSteps(cfg: Config, h: Host)
    requires Inv(cfg, h) && h.m0.Idle? && !h.readying && TrySet(h.pm, M0).M0?
    ensures Guard(cfg, h, BeginM0)
    ensures var h1 := Next(cfg, h, BeginM0);
            Shape(cfg, h1) && Guard(cfg, h1, WakeM0) && Next(cfg, h1, WakeM0) == RingingAt(cfg, h, 0)
  {
    assert RungTo(cfg.chans, h.chans, 0) == h.chans;
  }

  lemma M0NextStep(cfg: Config, h: Host, k: nat, next: nat)
    requires Inv(cfg, h) && k < |h.chans| && next == k + 1 && Shape(cfg, RingingAt(cfg, h, k))
    ensures Guard(cfg, RingingAt(cfg, h, k), RingM0)
    ensures Next(cfg, RingingAt(cfg, h, k), RingM0) == RingingAt(cfg, h, next)
  {
    RungNext(cfg.chans, h.chans, k, next);
  }

  lemma M0LastStep(cfg: Config, h: Host)
    requires Shape(cfg, h) && TrySet(h.pm, M0).M0? && Shape(cfg, RingingAt(cfg, h, |h.chans|))
    ensures var last := RingingAt(cfg, h, |h.chans|);
            Guard(cfg, last, EndM0) && Next(cfg, last, EndM0) == AfterM0(cfg, h)
  {
  }

  datatype QueueResult = Queued | RingFull | InError | MapFailed

  class Controller {
    const cfg: Config
    var pmState: bv32
    var devWake: int
    var wakeSet: bool
    var wakeWrites: seq<bool>   // wake doorbell writes since mhi_init_mmio
    var votes: seq<nat>         // dev_wake of each mhi_device
    var pendingPkts: int
    var chans: seq<Chan>
    ghost var pm: Pm
    ghost var rest: Host        // event rings, devices and handlers in progress

    ghost function View(): (h: Host)
      reads this
    {
      rest.(pm := pm, wake := Wake(devWake, wakeSet, wakeWrites), votes := votes,
            pending := pendingPkts, chans := chans)
    }

    ghost predicate Valid()
      reads this
    {
      pmState == Bit(pm) && Inv(cfg, View())
    }

    /** `mhi_tryset_pm_state`, on the state word and the bit table. */
    method TrySetPmState(target: Pm) returns (r: bv32)
      requires pmState == Bit(pm)
      modifies this`pmState, this`pm
      ensures pmState == Bit(pm) && pm == TrySet(old(pm), target) && r == pmState
    {
      TableIsDocumentedRule(pm, target);
      pm := TrySet(pm, target);
      var index := FindLastBit(pmState);
      if index >= TABLE_SIZE {
        return pmState;
      }
      if TableRow(index).fromState != pmState {
        return pmState;
      }
      if TableRow(index).toStates & Bit(target) == 0 {
        return pmState;
      }
      pmState := Bit(target);
      r := pmState;
    }

    /** `mhi_assert_dev_wake`. */
    method AssertDevWake(force: bool)
      requires pmState == Bit(pm)
      modifies this`devWake, this`wakeSet, this`wakeWrites
      ensures Wake(devWake, wakeSet, wakeWrites) == Get(old(Wake(devWake, wakeSet, wakeWrites)), pm, force)
      ensures devWake == old(devWake) + 1
      ensures wakeSet <==> old(wakeSet) || if force then pm.M0? || pm.M2? || pm.M3Exit? else pm.M2? && old(devWake) == 0
      ensures wakeWrites == old(wakeWrites) + if wakeSet && !old(wakeSet) then [true] else []
    {
      MasksAreStateSets(pm, false);
      if force {
        devWake := devWake + 1;
        if pmState & (0x4 | 0x8 | 0x40) != 0 && !wakeSet {
          wakeWrites := wakeWrites + [true];
          wakeSet := true;
        }
      } else {
        if devWake != 0 {
          devWake := devWake + 1;
          return;
        }
        devWake := devWake + 1;
        if devWake == 1 && pmState & 0x8 != 0 && !wakeSet {
          wakeWrites := wakeWrites + [true];
          wakeSet := true;
        }
      }
    }

    /** `mhi_deassert_dev_wake`. */
    method DeassertDevWake(override: bool)
      requires pmState == Bit(pm)
      modifies this`devWake, this`wakeSet, this`wakeWrites
      ensures Wake(devWake, wakeSet, wakeWrites) == Put(old(Wake(devWake, wakeSet, wakeWrites)), pm, override)
      ensures devWake == old(devWake) - 1
      ensures wakeSet <==> old(wakeSet) && (override || devWake != 0 || !(pm.M0? || pm.M2? || pm.M3Exit?))
      ensures wakeWrites == old(wakeWrites) + if old(wakeSet) && !wakeSet then [false] else []
    {
      MasksAreStateSets(pm, false);
      if devWake != 1 {
        devWake := devWake - 1;
        return;
      }
      devWake := devWake - 1;
      if devWake == 0 && pmState & (0x4 | 0x8 | 0x40) != 0 && !override && wakeSet {
        wakeWrites := wakeWrites + [false];
        wakeSet := false;
      }
    }

    /** `mhi_device_get`. */
    method DeviceGet(d: nat)
      requires Valid() && d < |votes| && Guard(cfg, View(), HostSpec.DeviceGet(d))
      modifies this`devWake, this`wakeSet, this`wakeWrites, this`votes
      ensures Valid() && View() == Next(cfg, old(View()), HostSpec.DeviceGet(d))
    {
      StepKeepsInv(cfg, View(), HostSpec.DeviceGet(d));
      votes := votes[d := votes[d] + 1];
      AssertDevWake(true);
    }

    /** `mhi_device_put`. */
    method DevicePut(d: nat)
      requires Valid() && d < |votes| && Guard(cfg, View(), HostSpec.DevicePut(d))
      modifies this`devWake, this`wakeSet, this`wakeWrites, this`votes
      ensures Valid() && View() == Next(cfg, old(View()), HostSpec.DevicePut(d))
    {
      StepKeepsInv(cfg, View(), HostSpec.DevicePut(d));
      votes := votes[d := votes[d] - 1];
      DeassertDevWake(false);
    }

    /**
     The last locked region of `mhi_pm_suspend`: -EBUSY, -EIO or M3_ENTER. A controller that already
     is in M3_ENTER reports success too, since a refused move returns the current state.
    */
    method AllowM3() returns (entered: bool)
      requires Valid()
      modifies this`pmState, this`pm
      ensures Valid()
      ensures View() == if Guard(cfg, old(View()), EnterM3) then Next(cfg, old(View()), EnterM3) else old(View())
      ensures entered <==> old(devWake == 0 && pendingPkts == 0 && (pm.M0? || pm.M3Enter?))
      ensures entered ==> pm.M3Enter?
    {
      if devWake != 0 || pendingPkts != 0 {
        return false;
      }
      StepKeepsInv(cfg, View(), EnterM3);
      var r := TrySetPmState(M3Enter);
      BitInjective(pm, M3Enter);
      entered := r == Bit(M3Enter);
      EnteredFromM0(old(pm));
    }

    /** `mhi_pm_m1_transition`, undisturbed: to M2, and out again at once if anybody needs the device. */
    method M1Transition()
      requires Valid() && rest.m0.Idle?
      modifies this`pmState, this`pm, this`devWake, this`wakeSet, this`wakeWrites
      ensures Valid()
      ensures var h1 := Next(cfg, old(View()), EnterM2);
              View() == if h1.pm.M2? && Guard(cfg, h1, KickM2) then Next(cfg, h1, KickM2) else h1
      ensures devWake == old(devWake) && (pm.M2? && (pendingPkts != 0 || devWake != 0) ==> wakeSet)
    {
      StepKeepsInv(cfg, View(), EnterM2);
      var state := TrySetPmState(M2);
      BitInjective(pm, M2);
      if state == Bit(M2) {
        if pendingPkts != 0 || devWake != 0 {
          KickWake();
        }
      }
    }

    /** The wake doorbell rung without a vote. */
    method KickWake()
      requires Valid() && Guard(cfg, View(), KickM2)
      modifies this`devWake, this`wakeSet, this`wakeWrites
      ensures Valid() && View() == Next(cfg, old(View()), KickM2)
      ensures devWake == old(devWake) && (pm.M0? || pm.M2? || pm.M3Exit? ==> wakeSet)
    {
      StepKeepsInv(cfg, View(), KickM2);
      AssertDevWake(true);
      DeassertDevWake(true);
    }

    /** `mhi_toggle_dev_wake`, or its no-op variant. */
    method WakeToggle()
      requires pmState == Bit(pm)
      modifies this`devWake, this`wakeSet, this`wakeWrites
      ensures Wake(devWake, wakeSet, wakeWrites) == Toggle(old(Wake(devWake, wakeSet, wakeWrites)), pm, cfg.m2NoDb)
      ensures devWake == old(devWake) && (wakeSet <==> old(wakeSet) || (cfg.m2NoDb && pm.M2? && devWake == 0))
    {
      if cfg.m2NoDb {
        AssertDevWake(false);
        DeassertDevWake(true);
      }
    }

    /** The common tail of the queue functions: ring element, packet count, doorbell. */
    method EnqueueOn(c: nat, b: Buf)
      requires pmState == Bit(pm) && c < |chans| == |cfg.chans|
      requires chans[c].WellFormed(cfg.chans[c].elements) && chans[c].Outstanding() < cfg.chans[c].elements - 1
      modifies this`pendingPkts, this`chans
      ensures View() == Enqueue(cfg, old(View()), c, b)
    {
      MasksAreStateSets(pm, cfg.m2NoDb);
      var ch := chans[c].Queue(cfg.chans[c].elements, b);
      if cfg.chans[c].outbound {
        pendingPkts := pendingPkts + 1;
      }
      if pmState & (if cfg.m2NoDb then (0x4 | 0x8) & !0x8 else 0x4 | 0x8) != 0 {
        ch := ch.RingDb(cfg.chans[c].burst);
      }
      chans := chans[c := ch];
    }

    /** `mhi_queue_skb` on a client's channel; `mapOk` is what `map_single` says. */
    method QueueSkb(c: nat, b: Buf, mapOk: bool) returns (r: QueueResult)
      requires Valid() && c < |chans| && chans[c].state.Enabled?
      modifies this`devWake, this`wakeSet, this`wakeWrites, this`pendingPkts, this`chans
      ensures Valid() && View() == Next(cfg, old(View()), HostSpec.QueueSkb(c, b, mapOk))
      ensures r == if old(chans)[c].Outstanding() == cfg.chans[c].elements - 1 then RingFull
                   else if InErrorState(pm) then InError else if mapOk then Queued else MapFailed
      ensures chans[c].accepted == old(chans)[c].accepted + if r.Queued? then [b] else []
    {
      SkbStep(cfg, View(), c, b, mapOk);
      var ch := chans[c];
      if |ch.accepted| - |ch.delivered| == cfg.chans[c].elements - 1 {
        return RingFull;
      }
      if pmState >= 0x80 {
        return InError;
      }
      r := PushSkb(c, b, mapOk);
    }

    /** `mhi_queue_skb` past its checks. */
    method PushSkb(c: nat, b: Buf, mapOk: bool) returns (r: QueueResult)
      requires pmState == Bit(pm) && c < |chans| == |cfg.chans|
      requires chans[c].WellFormed(cfg.chans[c].elements) && chans[c].Outstanding() < cfg.chans[c].elements - 1
      modifies this`devWake, this`wakeSet, this`wakeWrites, this`pendingPkts, this`chans
      ensures r == if mapOk then Queued else MapFailed
      ensures |chans| == |old(chans)| && chans[c].accepted == old(chans)[c].accepted + if mapOk then [b] else []
      ensures var h' := old(View()).(wake := Toggle(old(View()).wake, pm, cfg.m2NoDb));
              View() == if mapOk then Enqueue(cfg, h', c, b) else h'
    {
      WakeToggle();
      if !mapOk {
        return MapFailed;
      }
      EnqueueOn(c, b);
      r := Queued;
    }

    /** The loop body of `mhi_pm_m0_transition` for one channel. */
    method RingChannel(i: nat)
      requires i < |chans| == |cfg.chans| && chans[i].WellFormed(cfg.chans[i].elements)
      modifies this`chans
      ensures chans == old(chans)[i := RingForM0(cfg.chans[i], old(chans)[i])]
    {
      EmptyIffSameSlot(chans[i], cfg.chans[i].elements);
      var ch := chans[i];
      if cfg.chans[i].resetReq {
        ch := ch.(dbMode := true);
      }
      if ch.wp != ch.rp {
        ch := ch.RingDb(cfg.chans[i].burst);
      }
      chans := chans[i := ch];
    }

    /** `mhi_pm_m0_transition`, undisturbed: wake up, announce every channel with work, release the wake vote. */
    method M0Transition() returns (ok: bool)
      requires Valid() && rest.m0.Idle? && !rest.readying
      modifies this
      ensures Valid() && View() == AfterM0(cfg, old(View()))
      ensures ok <==> TrySet(old(pm), M0).M0?
      ensures ok ==> forall c :: 0 <= c < |chans| && |chans[c].accepted| > |chans[c].delivered| ==>
              chans[c].ctxtWp == chans[c].wp && (!cfg.chans[c].burst ==> chans[c].dbReg == chans[c].wp)
    {
      ghost var h := View();
      var cur := TrySetPmState(M0);
      BitInjective(pm, M0);
      if cur != Bit(M0) {
        return false;
      }
      AfterM0Inv(cfg, h);
      WakeAndRing(h);
      DeassertDevWake(false);
      ok := true;
    }

    /** The second region of the M0 handler up to its final release of the wake vote. */
    method WakeAndRing(ghost h: Host)
      requires Inv(cfg, h) && View() == h.(pm := M0) && pmState == Bit(M0)
      modifies this`devWake, this`wakeSet, this`wakeWrites, this`chans
      ensures View() == RingingAt(cfg, h, |h.chans|).(m0 := h.m0)
    {
      AssertDevWake(true);
      var i := 0;
      while i < |chans|
        invariant i <= |chans| == |h.chans|
        invariant View() == RingingAt(cfg, h, i).(m0 := h.m0)
      {
        RingChannel(i);
        RungNext(cfg.chans, h.chans, i, i + 1);
        i := i + 1;
      }
    }
  }

  /** `mhi_queue_skb` as a step, with its checks apart from what comes after them. */
  lemma SkbStep(cfg: Config, h: Host, c: nat, b: Buf, mapOk: bool)
    requires Inv(cfg, h) && c < |h.chans| && h.chans[c].state.Enabled?
    ensures Inv(cfg, Next(cfg, h, HostSpec.QueueSkb(c, b, mapOk)))
    ensures Bit(h.pm) >= 0x80 <==> InErrorState(h.pm)
  {
    StepKeepsInv(cfg, h, HostSpec.QueueSkb(c, b, mapOk));
    MasksAreStateSets(h.pm, false);
  }

  lemma RungNext(cfgs: seq<Cfg>, chans: seq<Chan>, k: nat, next: nat)
    requires k < |chans| == |cfgs| && next == k + 1
    requires forall c :: 0 <= c < |chans| ==> |chans[c].delivered| <= |chans[c].accepted|
    ensures RungTo(cfgs, chans, k)[k := RingForM0(cfgs[k], chans[k])] == RungTo(cfgs, chans, next)
  {
  }

  lemma EnteredFromM0(pm: Pm)
    ensures TrySet(pm, M3Enter).M3Enter? <==> pm.M0? || pm.M3Enter?
  {
  }

  lemma EmptyIffSameSlot(ch: Chan, n: nat)
    requires ch.WellFormed(n)
    ensures ch.wp != ch.rp <==> ch.Outstanding() > 0
  {
  }

  lemma {:induction false} RingingInv(cfg: Config, h: Host, k: nat)
    requires Inv(cfg, h) && h.m0.Idle? && !h.readying && TrySet(h.pm, M0).M0? && k <= |h.chans|
    ensures Inv(cfg, RingingAt(cfg, h, k))
  {
    if k == 0 {
      RingingStarts(cfg, h);
    } else {
      var before := k - 1;
      RingingInv(cfg, h, before);
      RingingGoesOn(cfg, h, before, k);
    }
  }

  lemma RingingStarts(cfg: Config, h: Host)
    requires Inv(cfg, h) && h.m0.Idle? && !h.readying && TrySet(h.pm, M0).M0?
    ensures Inv(cfg, RingingAt(cfg, h, 0))
  {
    StepKeepsInv(cfg, h, BeginM0);
    StepKeepsInv(cfg, Next(cfg, h, BeginM0), WakeM0);
    M0FirstSteps(cfg, h);
  }

  lemma RingingGoesOn(cfg: Config, h: Host, k: nat, next: nat)
    requires Inv(cfg, h) && k < |h.chans| && next == k + 1 && Inv(cfg, RingingAt(cfg, h, k))
    ensures Inv(cfg, RingingAt(cfg, h, next))
  {
    M0NextStep(cfg, h, k, next);
    StepKeepsInv(cfg, RingingAt(cfg, h, k), RingM0);
  }

  lemma AfterM0Inv(cfg: Config, h: Host)
    requires Inv(cfg, h) && h.m0.Idle? && !h.readying
    ensures Inv(cfg, AfterM0(cfg, h))
  {
    if TrySet(h.pm, M0).M0? {
      RingingInv(cfg, h, |h.chans|);
      M0LastStep(cfg, h);
      StepKeepsInv(cfg, RingingAt(cfg, h, |h.chans|), EndM0);
    }
  }
}
