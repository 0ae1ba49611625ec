/** Bytes of buffers and packets, and the fixed-width fields read from and written to them. */
module Bytes {
  type Byte = x: int | 0 <= x < 256

  /** Cut to 16 bits, as an assignment to a u16 does. */
  function U16(x: int): (r: nat)
    ensures r < 0x10000
  {
    x % 0x10000
  }

  function Le16(x: nat): (b: seq<Byte>)
    requires x < 0x10000
    ensures |b| == 2
  {
    [x % 256, x / 256]
  }

  function Be16(x: nat): (b: seq<Byte>)
    requires x < 0x10000
    ensures |b| == 2
  {
    [x / 256, x % 256]
  }

  function Le16At(s: seq<Byte>, i: nat): (x: nat)
    requires i + 2 <= |s|
    ensures x < 0x10000
  {
    (s[i] as int) + 256 * (s[i + 1] as int)
  }

  function Be16At(s: seq<Byte>, i: nat): (x: nat)
    requires i + 2 <= |s|
    ensures x < 0x10000
  {
    256 * (s[i] as int) + (s[i + 1] as int)
  }

  lemma Le16Reads(x: nat)
    requires x < 0x10000
    ensures Le16At(Le16(x), 0) == x && Be16At(Be16(x), 0) == x
  {
  }

  function Min(a: nat, b: nat): (r: nat) {
    if a < b then a else b
  }

  function Concat<T>(ss: seq<seq<T>>): (r: seq<T>) {
    if ss == [] then [] else ss[0] + Concat(ss[1..])
  }

  lemma {:induction false} ConcatAppend<T>(ss: seq<seq<T>>, s: seq<T>)
    ensures Concat(ss + [s]) == Concat(ss) + s
  {
    if ss == [] {
      assert ss + [s] == [s];
    } else {
      ConcatAppend(ss[1..], s);
      assert (ss + [s])[1..] == ss[1..] + [s];
    }
  }

  lemma {:induction false} ConcatAll<T>(ss: seq<seq<T>>, ts: seq<seq<T>>)
    ensures Concat(ss + ts) == Concat(ss) + Concat(ts)
  {
    if ss == [] {
      assert ss + ts == ts;
    } else {
      ConcatAll(ss[1..], ts);
      assert (ss + ts)[1..] == ss[1..] + ts;
    }
  }
}
