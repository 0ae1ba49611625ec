/** What the network drivers look at in Ethernet frames and IP packets. */
module Ethernet {
  import opened Bytes

  const ETH_HLEN: nat := 14
  const VLAN_ETH_HLEN: nat := 18
  const ETH_P_IP: nat := 0x0800
  const ETH_P_IPV6: nat := 0x86dd
  const ETH_P_8021Q: nat := 0x8100
  const ETH_P_8021AD: nat := 0x88a8

  predicate IsIpProto(proto: nat) {
    proto == ETH_P_IP || proto == ETH_P_IPV6
  }

  /** What an IPv4 or an IPv6 packet starts with. */
  predicate StartsIp(b: Byte) {
    0x40 <= b <= 0x4f || 0x60 <= b <= 0x6f
  }

  /** The test on the upper half of a packet's first byte, as the receive sides make it. */
  predicate IpNibble(b: Byte): (r: bool)
    ensures r <==> StartsIp(b)
  {
    b as int / 16 == 4 || b as int / 16 == 6
  }

  /** The frame carries a VLAN header the drivers look at. */
  predicate Tagged(skb: seq<Byte>) {
    |skb| > VLAN_ETH_HLEN && (Be16At(skb, 12) == ETH_P_8021Q || Be16At(skb, 12) == ETH_P_8021AD)
  }

  function LinkHeader(skb: seq<Byte>): (n: nat)
    ensures Tagged(skb) ==> n == VLAN_ETH_HLEN
    ensures |skb| > ETH_HLEN ==> n < |skb|
  {
    if Tagged(skb) then VLAN_ETH_HLEN else ETH_HLEN
  }

  /** The protocol field behind the link-layer header. */
  function Proto(skb: seq<Byte>): (proto: nat)
    requires |skb| > ETH_HLEN
  {
    Be16At(skb, if Tagged(skb) then 16 else 12)
  }

  /** These two bytes follow each other at this place. */
  predicate BytesAt(s: seq<Byte>, i: nat, a: Byte, b: Byte) {
    i + 2 <= |s| && s[i] == a && s[i + 1] == b
  }

  /** A frame in its bytes: when a VLAN header is looked at, and when what follows is IPv4 or IPv6. */
  lemma FrameTypes(skb: seq<Byte>)
    ensures Tagged(skb) <==> |skb| > 18 && (BytesAt(skb, 12, 0x81, 0x00) || BytesAt(skb, 12, 0x88, 0xa8))
    ensures LinkHeader(skb) == if Tagged(skb) then 18 else 14
    ensures |skb| > 14 ==> (IsIpProto(Proto(skb)) <==>
              BytesAt(skb, LinkHeader(skb) - 2, 0x08, 0x00) || BytesAt(skb, LinkHeader(skb) - 2, 0x86, 0xdd))
  {
  }
}
