/** From the words of an event ring element to the host's step: one event taken off a ring and given to its channel. */
module Dispatch {
  import opened Rings
  import opened ChannelSpec
  import opened Channels
  import opened HostSpec
  import E = EventRings

  /** MHI_EV_CC_*: the completion code in an event word. */
  function CodeOf(raw: nat): (code: EvCode) {
    match raw
    case 2 => Eot
    case 3 => Overflow
    case 4 => Eob
    case 5 => Oob
    case 6 => DbMode
    case _ => OtherCode
  }

  /** The codes by number: 2 and 4 end a transfer or a block, 3 is an overflow, 5 and 6 ask for doorbells. */
  lemma CodesByNumber(raw: nat)
    ensures CompletesBuffers(CodeOf(raw)) <==> 2 <= raw <= 4
    ensures IsDbEvent(CodeOf(raw)) <==> 5 <= raw <= 6
    ensures EventStatus(CodeOf(raw)) == (if raw == 3 then StatusOverflow else StatusOk)
  {
  }

  /**
   The ring element t is the event e, for `maxChan` channels whose transfer rings the device sees at
   `bases`. An element for a channel that does not exist is as good as any other control event.
  */
  ghost predicate Reads(t: E.EvTre, e: Event, bases: nat -> nat, maxChan: nat) {
    match e
    case Tx(chan, code, slot, len, _) =>
      && E.EvType(t) == E.TYPE_TX && E.EvChid(t) == chan < maxChan
      && CodeOf(E.EvCode(t)) == code && E.EvLen(t) == len
      && (CompletesBuffers(code) ==> t.ptr == bases(chan) + Offset(slot, TRE_SIZE))
    case Stale(chan) => E.EvType(t) == E.TYPE_STALE && E.EvChid(t) == chan
    case Control => !E.IsTransfer(t, maxChan) && E.EvType(t) != E.TYPE_STALE
  }

  /** The words a device writes for a transfer of channel `chan` that ends at `slot` are read as just that. */
  lemma DeviceWords(chan: nat, code: nat, slot: nat, len: nat, id: nat, bases: nat -> nat, maxChan: nat)
    requires chan < maxChan && chan < 0x100 && code < 0x100 && len < 0x10000
    ensures Reads(E.EvTre(bases(chan) + slot * 16, E.EvDword0(code, len), E.EvDword1(chan, 0x22)),
                Tx(chan, CodeOf(code), slot, len, id), bases, maxChan)
  {
    E.EventRoundTrip(bases(chan) + slot * 16, code, len, chan, 0x22);
    OffsetIndex(slot, TRE_SIZE);
  }

  ghost predicate AllRead(ts: seq<E.EvTre>, es: seq<Event>, bases: nat -> nat, maxChan: nat) {
    |ts| == |es| && forall i :: 0 <= i < |ts| ==> Reads(ts[i], es[i], bases, maxChan)
  }

  /** Marking the ring's elements stale is marking the host's events stale. */
  lemma MarkedAlike(ts: seq<E.EvTre>, es: seq<Event>, bases: nat -> nat, maxChan: nat, c: nat)
    requires AllRead(ts, es, bases, maxChan) && c < maxChan && c < 0x100
    ensures AllRead(E.StaledAll(ts, c), HostSpec.MarkStale(es, c), bases, maxChan)
  {
    forall i | 0 <= i < |ts| ensures Reads(E.StaledAll(ts, c)[i], HostSpec.MarkStale(es, c)[i], bases, maxChan) {
      assert Reads(ts[i], es[i], bases, maxChan);
      E.Dword1RoundTrip(ts[i], c, E.TYPE_STALE);
    }
  }

  /** Channel c of the host is this object. */
  ghost predicate IsChannel(cfg: Config, h: Host, c: nat, ch: Channel, bases: nat -> nat)
    reads ch, ch.Repr()
  {
    && c < |h.chans| == |cfg.chans| && ch.Valid() && h.chans[c] == ch.View()
    && ch.tre.elements == cfg.chans[c].elements && ch.tre.iommuBase == bases(c)
    && ch.outbound == cfg.chans[c].outbound && ch.burst == cfg.chans[c].burst
  }

  /** The unread events of ring r are this object's. */
  ghost predicate IsRing(h: Host, r: nat, er: E.EventRing, bases: nat -> nat)
    reads er, er.ring, er.mem
  {
    r < |h.events| && er.Valid() && AllRead(er.Unread(), h.events[r], bases, |h.chans|)
  }

  /** What becomes of channel c when the next event of ring r is for it, or for no channel. */
  ghost function After(cfg: Config, h: Host, r: nat, c: nat): (ch: Chan)
    requires Shape(cfg, h) && r < |h.events| && h.events[r] != [] && HeadOk(cfg, h, r) && c < |h.chans|
    requires h.events[r][0].Tx? ==> h.events[r][0].chan == c
  {
    var e := h.events[r][0];
    if e.Tx? then h.chans[c].OnEvent(Elements(cfg, c), e.code, e.slot, e.len, cfg.chans[c].burst, DbAccess(cfg, h))
    else h.chans[c]
  }

  lemma HandleIs(cfg: Config, h: Host, r: nat, c: nat, h': Host)
    requires Shape(cfg, h) && r < |h.events| && h.events[r] != [] && HeadOk(cfg, h, r) && c < |h.chans|
    requires (h.events[r][0].Tx? ==> h.events[r][0].chan == c) && h' == Handle(cfg, h, r)
    ensures |h'.chans| == |h.chans| && h'.chans[c] == After(cfg, h, r, c)
    ensures |h'.events| == |h.events| && h'.events[r] == h.events[r][1..]
    ensures h'.pending == h.pending - Drop(cfg, c, h.chans[c], h'.chans[c])
  {
  }

  /** The event's way through `parse_xfer_event`, if it is a transfer event. */
  method ParseNext(t: E.EvTre, ch: Channel, pending: PendingPkts, maxChan: nat, dbAccess: bool,
                   ghost cfg: Config, ghost h: Host, ghost h': Host, ghost r: nat, ghost c: nat,
                   ghost bases: nat -> nat)
    requires Shape(cfg, h) && r < |h.events| && h.events[r] != [] && HeadOk(cfg, h, r) && h' == Handle(cfg, h, r)
    requires Reads(t, h.events[r][0], bases, maxChan)
    requires IsChannel(cfg, h, c, ch, bases) && (h.events[r][0].Tx? ==> h.events[r][0].chan == c)
    requires maxChan == |h.chans| && dbAccess == DbAccess(cfg, h) && pending.value == h.pending
    modifies ch`results, ch`dbReg, ch`dbMode, ch`ctxtIx, ch`dbIx
    modifies ch.tre`rp, ch.tre`rpIx, ch.tre`ctxtWp, ch.buf`rp, ch.buf`rpIx, pending
    ensures IsChannel(cfg, h', c, ch, bases) && pending.value == h'.pending
  {
    ghost var e := h.events[r][0];
    HandleIs(cfg, h, r, c, h');
    if E.EvChid(t) < maxChan && E.EvType(t) == E.TYPE_TX {
      ch.ParseXferEvent(CodeOf(E.EvCode(t)), t.ptr, E.EvLen(t), dbAccess, pending, e.slot);
    }
  }

  /** The event is taken off its ring. */
  method RecycleNext(er: E.EventRing, ghost h: Host, ghost r: nat, ghost h': Host, ghost bases: nat -> nat)
    requires IsRing(h, r, er, bases) && er.Unread() != []
    requires |h'.chans| == |h.chans| && |h'.events| == |h.events| && h'.events[r] == h.events[r][1..]
    modifies er.ring`rp, er.ring`rpIx, er.ring`wp, er.ring`wpIx, er.ring`ctxtWp
    ensures IsRing(h', r, er, bases)
  {
    er.Recycle();
  }

  /** One event of `mhi_process_data_event_ring`: read off the ring, parsed for its channel, recycled. */
  method HandleNext(er: E.EventRing, ch: Channel, pending: PendingPkts, maxChan: nat, dbAccess: bool,
                    ghost cfg: Config, ghost h: Host, ghost r: nat, ghost c: nat, ghost bases: nat -> nat)
    requires Shape(cfg, h) && IsRing(h, r, er, bases) && er.Unread() != [] && HeadOk(cfg, h, r)
    requires IsChannel(cfg, h, c, ch, bases) && (h.events[r][0].Tx? ==> h.events[r][0].chan == c)
    requires maxChan == |h.chans| && dbAccess == DbAccess(cfg, h) && pending.value == h.pending
    requires er.ring != ch.tre && er.ring != ch.buf
    modifies ch`results, ch`dbReg, ch`dbMode, ch`ctxtIx, ch`dbIx
    modifies ch.tre`rp, ch.tre`rpIx, ch.tre`ctxtWp, ch.buf`rp, ch.buf`rpIx, pending
    modifies er.ring`rp, er.ring`rpIx, er.ring`wp, er.ring`wpIx, er.ring`ctxtWp
    ensures IsRing(Handle(cfg, h, r), r, er, bases)
    ensures IsChannel(cfg, Handle(cfg, h, r), c, ch, bases)
    ensures pending.value == Handle(cfg, h, r).pending
  {
    ghost var h' := Handle(cfg, h, r);
    var t := er.Head();
    assert Reads(t, h.events[r][0], bases, maxChan);
    HandleIs(cfg, h, r, c, h');
    ParseNext(t, ch, pending, maxChan, dbAccess, cfg, h, h', r, c, bases);
    RecycleNext(er, h, r, h', bases);
  }
}
