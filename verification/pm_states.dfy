/**
 The power-management state machine of the host: the transition table as the driver keeps it, in
 bit masks, and what every run through it keeps.
*/
module PmStates {

  datatype Pm =
    | Disable | Por | M0 | M2 | M3Enter | M3 | M3Exit | FwDlErr
    | SysErrDetect | SysErrProcess | ShutdownProcess | LdErrFatal

  function Bit(s: Pm): bv32 {
    match s
    case Disable => 0x1
    case Por => 0x2
    case M0 => 0x4
    case M2 => 0x8
    case M3Enter => 0x10
    case M3 => 0x20
    case M3Exit => 0x40
    case FwDlErr => 0x80
    case SysErrDetect => 0x100
    case SysErrProcess => 0x200
    case ShutdownProcess => 0x400
    case LdErrFatal => 0x800
  }

  /** One row of `dev_state_transitions`. */
  datatype Row = Row(fromState: bv32, toStates: bv32)

  const TABLE_SIZE: nat := 12

  function TableRow(i: nat): (r: Row)
    requires i < TABLE_SIZE
  {
    match i
    case 0 => Row(0x1, 0x2)                                                // DISABLE
    case 1 => Row(0x2, 0x2 | 0x1 | 0x4 | 0x100 | 0x400 | 0x800 | 0x80)     // POR
    case 2 => Row(0x4, 0x4 | 0x8 | 0x10 | 0x100 | 0x400 | 0x800 | 0x80)    // M0
    case 3 => Row(0x8, 0x4 | 0x100 | 0x400 | 0x800)                        // M2
    case 4 => Row(0x10, 0x20 | 0x100 | 0x400 | 0x800)                      // M3_ENTER
    case 5 => Row(0x20, 0x40 | 0x100 | 0x400 | 0x800)                      // M3
    case 6 => Row(0x40, 0x4 | 0x100 | 0x400 | 0x800)                       // M3_EXIT
    case 7 => Row(0x80, 0x80 | 0x100 | 0x400 | 0x800)                      // FW_DL_ERR
    case 8 => Row(0x100, 0x200 | 0x400 | 0x800)                            // SYS_ERR_DETECT
    case 9 => Row(0x200, 0x2 | 0x400 | 0x800)                              // SYS_ERR_PROCESS
    case 10 => Row(0x400, 0x1 | 0x800)                                     // SHUTDOWN_PROCESS
    case _ => Row(0x800, 0x800 | 0x400)                                    // LD_ERR_FATAL_DETECT
  }

  /** `find_last_bit(&state, 32)`: the highest set bit, 32 for zero; 12 stands for every bit past the table. */
  function FindLastBit(state: bv32): (i: nat) {
    if state >= 0x1000 then 12
    else if state >= 0x800 then 11
    else if state >= 0x400 then 10
    else if state >= 0x200 then 9
    else if state >= 0x100 then 8
    else if state >= 0x80 then 7
    else if state >= 0x40 then 6
    else if state >= 0x20 then 5
    else if state >= 0x10 then 4
    else if state >= 0x8 then 3
    else if state >= 0x4 then 2
    else if state >= 0x2 then 1
    else if state == 1 then 0
    else 32
  }

  /** `mhi_tryset_pm_state` on the raw word: the state afterwards, unchanged when refused. */
  function TrySetWord(cur: bv32, target: bv32): (r: bv32) {
    var index := FindLastBit(cur);
    if index >= TABLE_SIZE then cur
    else if TableRow(index).fromState != cur then cur
    else if TableRow(index).toStates & target == 0 then cur
    else target
  }

  /** The levels the comment above the table describes. */
  function Level(s: Pm): nat {
    match s
    case SysErrDetect | SysErrProcess => 1
    case ShutdownProcess => 2
    case LdErrFatal => 3
    case _ => 0
  }

  /** Moves that stay within a level, or go down, as the comment lists them. */
  predicate Listed(s: Pm, t: Pm) {
    match s
    case Disable => t.Por?
    case Por => t.Por? || t.Disable? || t.M0? || t.FwDlErr?
    case M0 => t.M0? || t.M2? || t.M3Enter? || t.FwDlErr?
    case M2 => t.M0?
    case M3Enter => t.M3?
    case M3 => t.M3Exit?
    case M3Exit => t.M0?
    case FwDlErr => t.FwDlErr?
    case SysErrDetect => t.SysErrProcess?
    case SysErrProcess => t.Por?
    case ShutdownProcess => t.Disable?
    case LdErrFatal => t.LdErrFatal? || t.ShutdownProcess?
  }

  /** The documented rule: a listed move, or from any state but DISABLE the entry state of a higher level. */
  predicate Allowed(s: Pm, t: Pm) {
    || Listed(s, t)
    || (!s.Disable? && Level(s) < Level(t) && (t.SysErrDetect? || t.ShutdownProcess? || t.LdErrFatal?))
  }

  function TrySet(s: Pm, t: Pm): (r: Pm) {
    if Allowed(s, t) then t else s
  }

  predicate OneHot(w: bv32) {
    exists s: Pm :: w == Bit(s)
  }

  lemma RowOf(s: Pm)
    ensures FindLastBit(Bit(s)) < TABLE_SIZE
    ensures TableRow(FindLastBit(Bit(s))).fromState == Bit(s)
  {
  }

  /** The bit table grants exactly the documented moves, and keeps the state one-hot. */
  lemma TableIsDocumentedRule(s: Pm, t: Pm)
    ensures TrySetWord(Bit(s), Bit(t)) == Bit(TrySet(s, t))
  {
    RowOf(s);
    match s {
      case Disable => case Por => case M0 => case M2 => case M3Enter => case M3 => case M3Exit =>
      case FwDlErr => case SysErrDetect => case SysErrProcess => case ShutdownProcess => case LdErrFatal =>
    }
  }

  /** The table only ever acts on a one-hot word. */
  lemma TableNeedsOneHot(w: bv32, target: bv32)
    ensures TrySetWord(w, target) == w || OneHot(w)
  {
    var index := FindLastBit(w);
    if index < TABLE_SIZE && TableRow(index).fromState == w {
      assert w == Bit(Disable) || w == Bit(Por) || w == Bit(M0) || w == Bit(M2) || w == Bit(M3Enter) || w == Bit(M3)
          || w == Bit(M3Exit) || w == Bit(FwDlErr) || w == Bit(SysErrDetect) || w == Bit(SysErrProcess)
          || w == Bit(ShutdownProcess) || w == Bit(LdErrFatal);
    }
  }

  lemma BitInjective(s: Pm, t: Pm)
    ensures Bit(s) == Bit(t) <==> s == t
  {
  }

  // ---- The access predicates, as masks over the word and as sets of states ----

  predicate RegAccessValid(s: Pm) { !s.Disable? && !s.M3? && !s.LdErrFatal? }
  predicate InErrorState(s: Pm) { s.FwDlErr? || Level(s) > 0 }
  predicate WakeDbClearValid(s: Pm) { s.M0? || s.M2? || s.M3Exit? }
  predicate WakeDbSetValid(s: Pm) { s.M2? }
  predicate InSuspendState(s: Pm) { s.M3Enter? || s.M3? }
  predicate EventAccessInvalid(s: Pm) { s.Disable? || InErrorState(s) }

  /** `db_access` is M0 and M2, without M2 when the controller sets `m2_no_db`. */
  predicate DbAccessValid(s: Pm, m2NoDb: bool) { s.M0? || (s.M2? && !m2NoDb) }

  lemma MasksAreStateSets(s: Pm, m2NoDb: bool)
    ensures Bit(s) & (0x2 | 0x4 | 0x8 | 0x10 | 0x40 | 0x100 | 0x200 | 0x400 | 0x80) != 0 <==> RegAccessValid(s)
    ensures Bit(s) >= 0x80 <==> InErrorState(s)
    ensures Bit(s) & (0x4 | 0x8 | 0x40) != 0 <==> WakeDbClearValid(s)
    ensures Bit(s) & 0x8 != 0 <==> WakeDbSetValid(s)
    ensures Bit(s) & (0x10 | 0x20) != 0 <==> InSuspendState(s)
    ensures Bit(s) == 0x1 || Bit(s) >= 0x80 <==> EventAccessInvalid(s)
    ensures Bit(s) & (if m2NoDb then (0x4 | 0x8) & !0x8 else 0x4 | 0x8) != 0 <==> DbAccessValid(s, m2NoDb)
  {
    match s {
      case Disable => case Por => case M0 => case M2 => case M3Enter => case M3 => case M3Exit =>
      case FwDlErr => case SysErrDetect => case SysErrProcess => case ShutdownProcess => case LdErrFatal =>
    }
  }

  // ---- Runs ----

  /**
   Every way `pm_state` is written: through the table, or directly, by power-up (DISABLE, then POR
   from DISABLE) and by the panic RAM dump (LD_ERR_FATAL_DETECT).
  */
  ghost predicate Step(s: Pm, t: Pm) {
    || t == s
    || Allowed(s, t)
    || t.Disable?
    || (s.Disable? && t.Por?)
    || t.LdErrFatal?
  }

  ghost predicate Run(r: seq<Pm>) {
    forall i :: 0 <= i < |r| - 1 ==> Step(r[i], r[i + 1])
  }

  predicate Fatal(s: Pm) { s.ShutdownProcess? || s.LdErrFatal? }

  /** Shutdown and link-down states are left only through DISABLE. */
  lemma {:induction false} FatalLeftThroughDisable(r: seq<Pm>, i: nat, k: nat)
    requires Run(r) && i < k < |r| && Fatal(r[i]) && !Fatal(r[k])
    ensures exists j :: i < j <= k && r[j].Disable?
    decreases k - i
  {
    assert Step(r[i], r[i + 1]);
    if Fatal(r[i + 1]) {
      FatalLeftThroughDisable(r, i + 1, k);
    }
  }

  /** Error states are left only through DISABLE, or from SYS_ERR_PROCESS to POR. */
  lemma {:induction false} ErrorLeftThroughDisableOrReset(r: seq<Pm>, i: nat, k: nat)
    requires Run(r) && i < k < |r| && InErrorState(r[i]) && !InErrorState(r[k])
    ensures exists j :: i < j <= k && (r[j].Disable? || (r[j].Por? && r[j - 1].SysErrProcess?))
    decreases k - i
  {
    assert Step(r[i], r[i + 1]);
    if InErrorState(r[i + 1]) {
      ErrorLeftThroughDisableOrReset(r, i + 1, k);
    } else {
      assert r[i + 1].Disable? || (r[i + 1].Por? && r[i + 1 - 1].SysErrProcess?);
    }
  }

  predicate LowPower(s: Pm) { s.M2? || s.M3Enter? || s.M3? || s.M3Exit? }

  /** The low-power states are reached only through M0, with no other level in between. */
  lemma {:induction false} LowPowerReachedThroughM0(r: seq<Pm>, k: nat)
    requires Run(r) && k < |r| && !LowPower(r[0]) && LowPower(r[k])
    ensures exists j :: 0 <= j < k && r[j].M0? && forall m :: j < m <= k ==> LowPower(r[m])
    decreases k
  {
    assert Step(r[k - 1], r[k]);
    if LowPower(r[k - 1]) {
      LowPowerReachedThroughM0(r, k - 1);
    } else {
      assert r[k - 1].M0?;
    }
  }
}
