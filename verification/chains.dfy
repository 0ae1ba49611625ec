/** Following 16-bit links from one place to the next until 0: when does it end? */
module Chains {

  const LINKS: nat := 0x10000

  /** The place after k hops; 0 is the end and stays so. */
  ghost function Hops(hop: nat -> nat, x: nat, k: nat): (o: nat)
    decreases k
  {
    if k == 0 then x else Hops(hop, hop(x), k - 1)
  }

  ghost predicate Linked(hop: nat -> nat) {
    hop(0) == 0 && forall x :: hop(x) < LINKS
  }

  lemma {:induction false} HopsAdd(hop: nat -> nat, x: nat, i: nat, k: nat, sum: nat)
    requires sum == i + k
    ensures Hops(hop, x, sum) == Hops(hop, Hops(hop, x, i), k)
    decreases i
  {
    if i > 0 {
      HopsAdd(hop, hop(x), i - 1, k, sum - 1);
    }
  }

  lemma {:induction false} HopsOfZero(hop: nat -> nat, k: nat)
    requires Linked(hop)
    ensures Hops(hop, 0, k) == 0
  {
    if k > 0 {
      HopsOfZero(hop, k - 1);
    }
  }

  /** Once at the end, always at the end. */
  lemma EarlierHops(hop: nat -> nat, x: nat, i: nat, k: nat)
    requires Linked(hop) && i <= k && Hops(hop, x, k) > 0
    ensures Hops(hop, x, i) > 0
  {
    HopsAdd(hop, x, i, k - i, k);
    if Hops(hop, x, i) == 0 {
      HopsOfZero(hop, k - i);
    }
  }

  /** A place met again is met for ever. */
  lemma {:induction false} CycleGoesOn(hop: nat -> nat, x: nat, period: nat, k: nat)
    requires Linked(hop) && period > 0 && x > 0 && Hops(hop, x, period) == x
    ensures Hops(hop, x, k) > 0
    decreases k
  {
    if k <= period {
      EarlierHops(hop, x, k, period);
    } else {
      var rest := k - period;
      CycleGoesOn(hop, x, period, rest);
      HopsAdd(hop, x, period, rest, k);
    }
  }

  // ---- Pigeonhole ----

  ghost function Range(n: nat): (s: set<nat>)
    ensures forall x: nat :: x in s <==> x < n
  {
    if n == 0 then {} else Range(n - 1) + {n - 1}
  }

  lemma {:induction false} RangeSize(n: nat)
    ensures |Range(n)| == n
  {
    if n > 0 {
      RangeSize(n - 1);
    }
  }

  ghost function ImageOf(f: seq<nat>): (s: set<nat>)
    ensures forall x: nat :: x in s <==> x in f
  {
    if f == [] then {} else {f[0]} + ImageOf(f[1..])
  }

  ghost predicate AllDifferent(f: seq<nat>) {
    forall i, j :: 0 <= i < j < |f| ==> f[i] != f[j]
  }

  lemma {:induction false} ImageSize(f: seq<nat>)
    requires AllDifferent(f)
    ensures |ImageOf(f)| == |f|
  {
    if f != [] {
      ImageSize(f[1..]);
      assert f[0] !in f[1..];
    }
  }

  lemma SubsetSize(a: set<nat>, b: set<nat>)
    requires a <= b
    ensures |a| <= |b|
  {
    assert b == a + (b - a);
  }

  /** Among more than n numbers below n two are equal. */
  lemma Pigeonhole(f: seq<nat>, n: nat)
    requires |f| > n && forall i :: 0 <= i < |f| ==> f[i] < n
    ensures !AllDifferent(f)
  {
    if AllDifferent(f) {
      ImageSize(f);
      RangeSize(n);
      SubsetSize(ImageOf(f), Range(n));
    }
  }

  // ---- The walk ends unless it is cyclic ----

  ghost predicate Meets(hop: nat -> nat, x: nat, i: nat, j: nat) {
    i < j && Hops(hop, x, i) == Hops(hop, x, j) > 0
  }

  ghost predicate Cyclic(hop: nat -> nat, x: nat) {
    exists i: nat, j: nat :: Meets(hop, x, i, j)
  }

  lemma CyclicNeverEnds(hop: nat -> nat, x: nat, k: nat)
    requires Linked(hop) && Cyclic(hop, x)
    ensures Hops(hop, x, k) > 0
  {
    var i: nat, j: nat :| Meets(hop, x, i, j);
    var period, sum := j - i, i + k;
    HopsAdd(hop, x, i, period, j);
    CycleGoesOn(hop, Hops(hop, x, i), period, k);
    HopsAdd(hop, x, i, k, sum);
    EarlierHops(hop, x, k, sum);
  }

  ghost function Trail(hop: nat -> nat, x: nat, n: nat): (f: seq<nat>)
    ensures |f| == n && forall i :: 0 <= i < n ==> f[i] == Hops(hop, x, i)
  {
    seq(n, i requires 0 <= i < n => Hops(hop, x, i))
  }

  lemma HopsBounded(hop: nat -> nat, x: nat, k: nat)
    requires Linked(hop) && x < LINKS
    ensures Hops(hop, x, k) < LINKS
    decreases k
  {
    if k > 0 {
      HopsBounded(hop, hop(x), k - 1);
    }
  }

  lemma LongWalkIsCyclic(hop: nat -> nat, x: nat, n: nat)
    requires Linked(hop) && x < LINKS && n == LINKS && Hops(hop, x, n) > 0
    ensures Cyclic(hop, x)
  {
    var f := Trail(hop, x, n + 1);
    forall i | 0 <= i < |f| ensures f[i] < LINKS {
      HopsBounded(hop, x, i);
    }
    Pigeonhole(f, n);
    var i, j :| 0 <= i < j < |f| && f[i] == f[j];
    EarlierHops(hop, x, j, n);
    assert Meets(hop, x, i, j);
  }

  /** Following the links ends exactly when no place comes up twice, and then within 65536 hops. */
  lemma EndsIffNotCyclic(hop: nat -> nat, x: nat, n: nat)
    requires Linked(hop) && x < LINKS && n == LINKS
    ensures (exists k: nat :: Hops(hop, x, k) == 0) <==> !Cyclic(hop, x)
    ensures !Cyclic(hop, x) <==> Hops(hop, x, n) == 0
  {
    if Cyclic(hop, x) {
      forall k: nat ensures Hops(hop, x, k) > 0 {
        CyclicNeverEnds(hop, x, k);
      }
    } else {
      if Hops(hop, x, n) > 0 {
        LongWalkIsCyclic(hop, x, n);
      }
      assert Hops(hop, x, n) == 0;
    }
  }
}
