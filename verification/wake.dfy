/** The device-wake vote counter and its doorbell (`mhi_assert_dev_wake`, `mhi_deassert_dev_wake`). */
module WakeSpec {
  import opened PmStates

  /**
   `count` is `dev_wake`, `asserted` is `wake_set`; `log` lists the doorbell writes since the last
   `mhi_init_mmio`.
  */
  datatype Wake = Wake(count: int, asserted: bool, log: seq<bool>)

  /** `mhi_assert_dev_wake`. */
  function Get(w: Wake, pm: Pm, force: bool): (r: Wake) {
    var rings := !w.asserted && if force then WakeDbClearValid(pm) else w.count == 0 && WakeDbSetValid(pm);
    if rings then Wake(w.count + 1, true, w.log + [true]) else w.(count := w.count + 1)
  }

  /** `mhi_deassert_dev_wake`. */
  function Put(w: Wake, pm: Pm, override: bool): (r: Wake) {
    if w.count == 1 && WakeDbClearValid(pm) && !override && w.asserted then Wake(0, false, w.log + [false])
    else w.(count := w.count - 1)
  }

  /** The loop at the end of `mhi_driver_remove`: n votes given back one by one. */
  function PutAll(w: Wake, pm: Pm, n: nat): (r: Wake)
    decreases n
  {
    if n == 0 then w else PutAll(Put(w, pm, false), pm, n - 1)
  }

  /** `mhi_toggle_dev_wake`, a no-op when doorbells may be rung in M2. */
  function Toggle(w: Wake, pm: Pm, m2NoDb: bool): (r: Wake) {
    if m2NoDb then Put(Get(w, pm, false), pm, true) else w
  }

  /** The wake doorbell register: its last write, 0 after `mhi_init_mmio`. */
  function Register(w: Wake): bool {
    |w.log| > 0 && w.log[|w.log| - 1]
  }

  /** The writes alternate 1, 0, 1, ... and the flag mirrors the register. */
  ghost predicate Mirrors(w: Wake) {
    && (forall i :: 0 <= i < |w.log| ==> w.log[i] == (i % 2 == 0))
    && w.asserted == (|w.log| % 2 == 1)
  }

  lemma MirrorsMeansRegister(w: Wake)
    requires Mirrors(w)
    ensures w.asserted == Register(w)
    ensures forall i :: 0 <= i < |w.log| - 1 ==> w.log[i] != w.log[i + 1]
  {
  }

  lemma GetMirrors(w: Wake, pm: Pm, force: bool)
    requires Mirrors(w)
    ensures Mirrors(Get(w, pm, force))
  {
  }

  lemma PutMirrors(w: Wake, pm: Pm, override: bool)
    requires Mirrors(w)
    ensures Mirrors(Put(w, pm, override))
  {
  }

  lemma ToggleKeeps(w: Wake, pm: Pm, m2NoDb: bool)
    requires Mirrors(w)
    ensures var t := Toggle(w, pm, m2NoDb); Mirrors(t) && t.count == w.count && (w.asserted ==> t.asserted)
  {
    GetMirrors(w, pm, false);
    PutMirrors(Get(w, pm, false), pm, true);
  }

  /** Giving votes back keeps the flag and the register together, and never clears them while a vote is left. */
  lemma {:induction false} PutAllKeeps(w: Wake, pm: Pm, n: nat)
    requires Mirrors(w) && n <= w.count
    ensures var r := PutAll(w, pm, n);
            Mirrors(r) && r.count == w.count - n && (r.count > 0 && w.asserted ==> r.asserted)
    decreases n
  {
    if n > 0 {
      PutMirrors(w, pm, false);
      PutAllKeeps(Put(w, pm, false), pm, n - 1);
    }
  }
}
