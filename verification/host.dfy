/**
 The MHI host as a transition system. One step is one region the driver runs under a lock, or one
 whole client call; event rings are shown by the events the device posted and the host has not consumed.
*/
module HostSpec {
  import opened Rings
  import opened ChannelSpec
  import opened PmStates
  import opened WakeSpec

  /**
   An event ring element. `id` is not stored by the device: it is the position, in the channel's
   accepted history, of the buffer the completion names.
  */
  datatype Event =
    | Tx(chan: nat, code: EvCode, slot: nat, len: nat, id: nat)
    | Stale(chan: nat)
    | Control

  /** Progress of `mhi_pm_m0_transition`: state set, then wake held while channel doorbells are rung in order. */
  datatype M0Phase = Idle | Entered | Ringing(next: nat)

  datatype Config = Config(chans: seq<Cfg>, devices: nat, rings: nat, m2NoDb: bool)

  /**
   `syncHolds` counts the wake votes of `__mhi_device_get_sync` in progress, `suspendHolds` those
   of `mhi_pm_suspend`; `readying` is set between the two locked regions of `mhi_ready_state_transition`.
  */
  datatype Host = Host(
    pm: Pm, m0: M0Phase, readying: bool,
    wake: Wake, votes: seq<nat>, syncHolds: nat, suspendHolds: nat,
    present: seq<bool>, pending: int, chans: seq<Chan>, events: seq<seq<Event>>)

  datatype Action =
    | PmMove(target: Pm)                 // error detection, error processing, shutdown, disable
    | PanicDump                          // __mhi_download_rddm_in_panic
    | PowerUp                            // mhi_async_power_up, first direct write
    | PowerUpPor                         // mhi_async_power_up, second direct write
    | BeginReady | FinishReady(wakeDb: bool)      // mhi_ready_state_transition
    | BeginM0 | WakeM0 | RingM0 | EndM0  // mhi_pm_m0_transition
    | EnterM2 | KickM2                   // mhi_pm_m1_transition
    | ReachM3                            // mhi_pm_m3_transition
    | HoldForSuspend | ReleaseSuspend | EnterM3   // mhi_pm_suspend
    | ExitM3                             // mhi_pm_resume
    | BeginGetSync | FinishGetSync(dev: nat) | AbandonGetSync   // mhi_device_get_sync
    | DeviceGet(dev: nat) | DevicePut(dev: nat)
    | WakeToggle
    | QueueBuf(c: nat, b: Buf, mapOk: bool)
    | QueueSkb(c: nat, b: Buf, mapOk: bool)       // and mhi_queue_dma, whose mapping cannot fail
    | Post(r: nat, e: Event)             // the device
    | Consume(r: nat)                    // one turn of the event ring loops
    | StopChan(c: nat) | ResetChan(c: nat)        // __mhi_unprepare_channel
    | PrepareChan(c: nat, allocOk: bool, started: bool)
    | CreateDevice(dev: nat)
    | SuspendChan(c: nat) | RemoveDevice(dev: nat)  // mhi_driver_remove
    | ResetRings                         // mhi_pm_disable_transition, after the devices are gone

  function Elements(cfg: Config, c: nat): nat
    requires c < |cfg.chans|
  {
    cfg.chans[c].elements
  }

  function DbAccess(cfg: Config, h: Host): bool {
    DbAccessValid(h.pm, cfg.m2NoDb)
  }

  predicate Active(ch: Chan) {
    ch.state.Enabled? || ch.state.Resetting?
  }

  /** Buffers whose TREs the device may know of: all but those queued since the context word was written. */
  function Announced(ch: Chan, n: nat): int
    requires ch.ctxtWp < n && ch.wp < n
  {
    |ch.accepted| - ch.Unannounced(n)
  }

  predicate Completion(e: Event) {
    e.Tx? && CompletesBuffers(e.code)
  }

  // ---- Effects ----

  function Drop(cfg: Config, c: nat, before: Chan, after: Chan): int
    requires c < |cfg.chans|
  {
    if cfg.chans[c].outbound then |after.delivered| - |before.delivered| else 0
  }

  /** Queue on a channel and ring its doorbell if allowed. */
  function Enqueue(cfg: Config, h: Host, c: nat, b: Buf): Host
    requires c < |h.chans| == |cfg.chans|
    requires h.chans[c].WellFormed(Elements(cfg, c)) && h.chans[c].Outstanding() < Elements(cfg, c) - 1
  {
    var q := h.chans[c].Queue(Elements(cfg, c), b);
    h.(chans := h.chans[c := if DbAccess(cfg, h) then q.RingDb(cfg.chans[c].burst) else q],
       pending := h.pending + if cfg.chans[c].outbound then 1 else 0)
  }

  /** The M0 handler's turn for one channel. */
  function RingForM0(cfg: Cfg, ch: Chan): Chan
    requires |ch.delivered| <= |ch.accepted|
  {
    var armed := if cfg.resetReq then ch.(dbMode := true) else ch;
    if ch.Outstanding() > 0 then armed.RingDb(cfg.burst) else armed
  }

  /** `mhi_mark_stale_events`. */
  function MarkStale(es: seq<Event>, c: nat): (r: seq<Event>)
    ensures |r| == |es|
    ensures forall i :: 0 <= i < |es| ==> r[i] == if es[i].Tx? && es[i].chan == c then Stale(c) else es[i]
  {
    seq(|es|, i requires 0 <= i < |es| => if es[i].Tx? && es[i].chan == c then Stale(c) else es[i])
  }

  /** `mhi_reset_chan`, leaving the channel in the given state. */
  function Reset(cfg: Config, h: Host, c: nat, state: ChState): Host
    requires c < |h.chans| == |cfg.chans| && cfg.chans[c].er < |h.events|
    requires h.chans[c].WellFormed(Elements(cfg, c))
  {
    var ch := h.chans[c].Flush(Elements(cfg, c));
    var r := cfg.chans[c].er;
    h.(chans := h.chans[c := ch.(state := state)],
       events := h.events[r := MarkStale(h.events[r], c)],
       pending := h.pending - Drop(cfg, c, h.chans[c], ch))
  }

  /** The channels once `mhi_driver_remove` is done with those of device d. */
  function DisableOf(cfgs: seq<Cfg>, chans: seq<Chan>, d: nat): (r: seq<Chan>)
    requires |cfgs| == |chans|
    ensures |r| == |chans|
    ensures forall c :: 0 <= c < |chans| ==> r[c] == if cfgs[c].dev == d then chans[c].(state := Disabled) else chans[c]
  {
    seq(|chans|, c requires 0 <= c < |chans| && |cfgs| == |chans| =>
          if cfgs[c].dev == d then chans[c].(state := Disabled) else chans[c])
  }

  /** One event taken off a ring and handled. */
  function Handle(cfg: Config, h: Host, r: nat): Host
    requires |h.chans| == |cfg.chans| && r < |h.events| && |h.events[r]| > 0
    requires var e := h.events[r][0];
             e.Tx? && e.chan < |h.chans| ==>
               h.chans[e.chan].WellFormed(Elements(cfg, e.chan))
               && h.chans[e.chan].EventOk(Elements(cfg, e.chan), e.code, e.slot)
  {
    var e := h.events[r][0];
    var h' := h.(events := h.events[r := h.events[r][1..]]);
    if e.Tx? && e.chan < |h.chans| then
      var ch := h.chans[e.chan].OnEvent(Elements(cfg, e.chan), e.code, e.slot, e.len, cfg.chans[e.chan].burst,
          DbAccess(cfg, h));
      h'.(chans := h.chans[e.chan := ch], pending := h.pending - Drop(cfg, e.chan, h.chans[e.chan], ch))
    else h'
  }

  // ---- What callers, the device and the scheduler promise ----

  /**
   The device posts on the channel's own ring; a completion names a TRE that was announced in this
   session and lies beyond every completion still unread. It posts no completion for a channel from
   its reset until its next start; other events it may post at any time.
  */
  ghost predicate CanPost(cfg: Config, h: Host, r: nat, e: Event)
    requires |h.chans| == |cfg.chans| && r < |h.events|
  {
    match e
    case Stale(_) => false
    case Control => true
    case Tx(c, code, slot, _, id) =>
      && c < |h.chans| && cfg.chans[c].er == r
      && (CompletesBuffers(code) ==>
            var ch, n := h.chans[c], Elements(cfg, c);
            && Active(ch) && ch.WellFormed(n)
            && |ch.delivered| <= id < Announced(ch, n)
            && slot == Wrap(ch.rp + (id - |ch.delivered|), n)
            && forall i :: 0 <= i < |h.events[r]| && Completion(h.events[r][i]) && h.events[r][i].chan == c ==>
                 h.events[r][i].id < id)
  }

  /**
   When a step may happen. Handlers of state events run one at a time; clients use only devices that
   are present and channels that are enabled, and balance their gets and puts.
  */
  ghost predicate Guard(cfg: Config, h: Host, a: Action)
    requires Shape(cfg, h)
  {
    match a
    case PmMove(t) => t.SysErrDetect? || t.SysErrProcess? || t.ShutdownProcess? || t.LdErrFatal? || t.FwDlErr?
        || t.Disable?
    case PanicDump => true
    case PowerUp => h.m0.Idle? && !h.readying && NoDevices(h) && h.syncHolds == 0 && h.suspendHolds == 0
    case PowerUpPor => h.pm.Disable? && !h.readying
    case BeginReady => h.m0.Idle? && !h.readying
    case FinishReady(_) => h.readying
    case BeginM0 => h.m0.Idle? && !h.readying
    case WakeM0 => h.m0.Entered?
    case RingM0 => h.m0.Ringing? && h.m0.next < |h.chans|
    case EndM0 => h.m0.Ringing? && h.m0.next == |h.chans|
    case EnterM2 => h.m0.Idle?
    case KickM2 => h.pending != 0 || h.wake.count != 0
    case ReachM3 => h.m0.Idle?
    case HoldForSuspend => true
    case ReleaseSuspend => h.suspendHolds > 0
    case EnterM3 => h.wake.count == 0 && h.pending == 0
    case ExitM3 => true
    case BeginGetSync => true
    case FinishGetSync(d) => h.syncHolds > 0 && d < |h.present| && h.present[d]
    case AbandonGetSync => h.syncHolds > 0
    case DeviceGet(d) => d < |h.present| && h.present[d]
    case DevicePut(d) => d < |h.present| && h.present[d] && h.votes[d] > 0
    case WakeToggle => true
    case QueueBuf(c, _, _) => c < |h.chans| && h.chans[c].state.Enabled?
    case QueueSkb(c, _, _) => c < |h.chans| && h.chans[c].state.Enabled?
    case Post(r, e) => r < |h.events| && CanPost(cfg, h, r, e)
    case Consume(r) => r < |h.events| && |h.events[r]| > 0
    case StopChan(c) => c < |h.chans| && h.chans[c].state.Enabled?
    case ResetChan(c) => c < |h.chans| && h.chans[c].state.Resetting?
    case PrepareChan(c, _, _) => c < |h.chans| && h.chans[c].state.Disabled? && h.present[cfg.chans[c].dev]
    case CreateDevice(d) => d < |h.present|
    case SuspendChan(c) => c < |h.chans| && h.present[cfg.chans[c].dev]
        && (h.chans[c].state.Disabled? || h.chans[c].state.Enabled?)
    case RemoveDevice(d) =>
      d < |h.present| && forall c :: 0 <= c < |h.chans| && cfg.chans[c].dev == d ==> h.chans[c].state.Suspended?
    case ResetRings => h.m0.Idle? && NoDevices(h)
  }

  ghost predicate NoDevices(h: Host) {
    forall d :: 0 <= d < |h.present| ==> !h.present[d]
  }

  /** Array sizes and per-channel configuration. */
  ghost predicate Shape(cfg: Config, h: Host) {
    && |h.chans| == |cfg.chans|
    && |h.votes| == |h.present| == cfg.devices
    && |h.events| == cfg.rings
    && forall c :: 0 <= c < |h.chans| ==>
         cfg.chans[c].er < cfg.rings && cfg.chans[c].dev < cfg.devices
         && h.chans[c].WellFormed(cfg.chans[c].elements)
  }

  /** The one fact a step needs beyond shape: the next event of each ring is acceptable to its channel. */
  ghost predicate HeadOk(cfg: Config, h: Host, r: nat)
    requires Shape(cfg, h) && r < |h.events|
  {
    |h.events[r]| > 0 ==>
      var e := h.events[r][0];
      e.Tx? && e.chan < |h.chans| ==> h.chans[e.chan].EventOk(Elements(cfg, e.chan), e.code, e.slot)
  }

  ghost function Next(cfg: Config, h: Host, a: Action): Host
    requires Shape(cfg, h) && Guard(cfg, h, a)
    requires a.Consume? ==> HeadOk(cfg, h, a.r)
  {
    match a
    case PmMove(t) => h.(pm := TrySet(h.pm, t))
    case PanicDump => h.(pm := LdErrFatal)
    case PowerUp => h.(pm := Disable, wake := h.wake.(count := 0), pending := 0, events := seq(|h.events|, _ => []))
    case PowerUpPor => h.(pm := Por)
    case BeginReady => h.(pm := TrySet(h.pm, Por), readying := TrySet(h.pm, Por).Por?)
    case FinishReady(wakeDb) =>
      // mhi_init_mmio clears the wake doorbell once it has read where it is, whatever it fails at later
      h.(readying := false, wake := if RegAccessValid(h.pm) && wakeDb then Wake(h.wake.count, false, []) else h.wake)
    case BeginM0 => var pm := TrySet(h.pm, M0); h.(pm := pm, m0 := if pm.M0? then Entered else Idle)
    case WakeM0 => h.(wake := Get(h.wake, h.pm, true), m0 := Ringing(0))
    case RingM0 =>
      var next := h.m0.next;
      h.(chans := h.chans[next := RingForM0(cfg.chans[next], h.chans[next])], m0 := Ringing(next + 1))
    case EndM0 => h.(wake := Put(h.wake, h.pm, false), m0 := Idle)
    case EnterM2 => h.(pm := TrySet(h.pm, M2))
    case KickM2 => h.(wake := Put(Get(h.wake, h.pm, true), h.pm, true))
    case ReachM3 => h.(pm := TrySet(h.pm, M3))
    case HoldForSuspend => h.(wake := Get(h.wake, h.pm, false), suspendHolds := h.suspendHolds + 1)
    case ReleaseSuspend => h.(wake := Put(h.wake, h.pm, false), suspendHolds := h.suspendHolds - 1)
    case EnterM3 => h.(pm := TrySet(h.pm, M3Enter))
    case ExitM3 => h.(pm := TrySet(h.pm, M3Exit))
    case BeginGetSync => h.(wake := Get(h.wake, h.pm, true), syncHolds := h.syncHolds + 1)
    case FinishGetSync(d) => h.(syncHolds := h.syncHolds - 1, votes := h.votes[d := h.votes[d] + 1])
    case AbandonGetSync => h.(wake := Put(h.wake, h.pm, false), syncHolds := h.syncHolds - 1)
    case DeviceGet(d) => h.(wake := Get(h.wake, h.pm, true), votes := h.votes[d := h.votes[d] + 1])
    case DevicePut(d) => h.(wake := Put(h.wake, h.pm, false), votes := h.votes[d := h.votes[d] - 1])
    case WakeToggle => h.(wake := Toggle(h.wake, h.pm, cfg.m2NoDb))
    case QueueBuf(c, b, mapOk) =>
      if InErrorState(h.pm) || h.chans[c].Outstanding() == Elements(cfg, c) - 1 || !mapOk then h
      else Enqueue(cfg, h.(wake := Toggle(h.wake, h.pm, cfg.m2NoDb)), c, b)
    case QueueSkb(c, b, mapOk) =>
      if InErrorState(h.pm) || h.chans[c].Outstanding() == Elements(cfg, c) - 1 then h
      else
        var h' := h.(wake := Toggle(h.wake, h.pm, cfg.m2NoDb));
        if mapOk then Enqueue(cfg, h', c, b) else h'
    case Post(r, e) => h.(events := h.events[r := h.events[r] + [e]])
    case Consume(r) => Handle(cfg, h, r)
    case StopChan(c) => h.(chans := h.chans[c := h.chans[c].(state := Resetting)])
    case ResetChan(c) => Reset(cfg, h, c, Disabled)
    case PrepareChan(c, allocOk, started) =>
      if !allocOk then h
      else
        var state := if started && !InErrorState(h.pm) then Enabled else Disabled;
        h.(chans := h.chans[c := h.chans[c].Init().(state := state)])
    case CreateDevice(d) => h.(present := h.present[d := true])
    case SuspendChan(c) => Reset(cfg, h, c, Suspended)
    case RemoveDevice(d) =>
      h.(present := h.present[d := false], chans := DisableOf(cfg.chans, h.chans, d),
         votes := h.votes[d := 0], wake := PutAll(h.wake, h.pm, h.votes[d]))
    case ResetRings => h.(events := seq(|h.events|, _ => []))
  }

  /** A powered-down controller right after `mhi_async_power_up` wrote DISABLE for the first time. */
  ghost predicate Initial(cfg: Config, h: Host) {
    && Shape(cfg, h)
    && h.pm.Disable? && h.m0.Idle? && !h.readying
    && h.wake == Wake(0, false, []) && h.syncHolds == 0 && h.suspendHolds == 0 && h.pending == 0
    && (forall d :: 0 <= d < cfg.devices ==> h.votes[d] == 0 && !h.present[d])
    && (forall c :: 0 <= c < |h.chans| ==>
          h.chans[c].state.Disabled? && h.chans[c].accepted == [] && h.chans[c].delivered == []
              && h.chans[c].start == 0)
    && (forall r :: 0 <= r < |h.events| ==> h.events[r] == [])
  }
}
