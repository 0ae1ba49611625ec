/** When the receive loop of the MBIM driver ends: it has no check against a cyclic chain of NDPs. */
module MbimChain {
  import opened Bytes
  import opened Mbim
  import opened Chains

  /** The offset the loop goes on with after the NDP at `at`; 0 when it stops, on an error too. */
  ghost function Hop(mem: seq<Byte>, len: nat, at: nat): (next: nat)
    ensures next < 0x10000
  {
    if at == 0 || len > |mem| then 0
    else match ReadNdp(mem, len, at)
      case Bad(_) => 0
      case Past(_) => 0
      case Good(_, next) => next
  }

  ghost function Links(mem: seq<Byte>, len: nat): (hop: nat -> nat)
    ensures Linked(hop) && forall at :: hop(at) == Hop(mem, len, at)
  {
    (at: nat) => Hop(mem, len, at)
  }

  /** The loop is still running after some turns exactly when the offset reached is not 0. */
  lemma {:induction false} RunningIffHops(mem: seq<Byte>, len: nat, at: nat, turns: nat)
    requires len <= |mem|
    ensures WalkNdps(mem, len, at, turns).Running? <==> Hops(Links(mem, len), at, turns) > 0
    decreases turns
  {
    if turns > 0 {
      var rest := turns - 1;
      var next := Hop(mem, len, at);
      RunningIffHops(mem, len, next, rest);
      if next == 0 {
        HopsOfZero(Links(mem, len), rest);
      }
    }
  }

  /** An offset comes up twice along the chain of NDPs that starts at `at`. */
  ghost predicate CyclicNdps(mem: seq<Byte>, len: nat, at: nat) {
    Cyclic(Links(mem, len), at)
  }

  /** The receive loop ends within 65536 turns exactly when no NDP offset comes up twice along the chain. */
  lemma EndsIffNotCyclic(mem: seq<Byte>, len: nat, at: nat, turns: nat)
    requires len <= |mem| && at < 0x10000 && turns == TURNS
    ensures !WalkNdps(mem, len, at, turns).Running? <==> !CyclicNdps(mem, len, at)
  {
    Chains.EndsIffNotCyclic(Links(mem, len), at, turns);
    RunningIffHops(mem, len, at, turns);
  }

  /** On a cyclic chain it never ends. */
  lemma CyclicNeverStops(mem: seq<Byte>, len: nat, at: nat, turns: nat)
    requires len <= |mem| && CyclicNdps(mem, len, at)
    ensures WalkNdps(mem, len, at, turns).Running?
  {
    CyclicNeverEnds(Links(mem, len), at, turns);
    RunningIffHops(mem, len, at, turns);
  }

  /** An NDP that names itself as the next one is enough to keep the loop running. */
  lemma SelfLinkNeverEnds(mem: seq<Byte>, len: nat, at: nat, turns: nat)
    requires len <= |mem| && at > 0
    requires ReadNdp(mem, len, at).Good? && ReadNdp(mem, len, at).next == at
    ensures WalkNdps(mem, len, at, turns).Running?
  {
    var hop := Links(mem, len);
    assert Hops(hop, at, 1) == Hops(hop, hop(at), 0);
    assert Meets(hop, at, 0, 1);
    CyclicNeverStops(mem, len, at, turns);
  }
}
