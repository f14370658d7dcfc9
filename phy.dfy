/**
 * PHY configuration of the transmitter (hdmi_phy_configure): the guards on
 * pixel repetition and colour resolution, the MPLL/GMP and CURRCTRL tables
 * keyed by pixel clock and colour resolution, the board overrides of the
 * PHY's CKSYMTXCTRL, VLEVCTRL and TXTERM registers, and the bounded polls
 * for PLL lock and for I2C completion. The writes are recorded as a log of
 * steps; the status registers read while polling are oracles indexed by the
 * number of the read.
 */
module Phy {

  type u16 = x: int | 0 <= x < 0x1_0000
  type u32 = x: int | 0 <= x < 0x1_0000_0000

  /** The board-specific PHY settings (struct hdmi_phy_reg_config). */
  datatype BoardConfig = BoardConfig(vlev: u16, cksymtx: u16, txterm: u16)

  /**
   * One step of the configuration sequence:
   * FlowCtrl     HDMI_MC_FLOWCTRL, with the CSC in the path or bypassed;
   * ResetPhy     transmitter power off, PDDQ on, PHY reset pulse, HEAC PHY
   *              reset and selection of the PHY's I2C slave address;
   * Write        hdmi_phy_i2c_write of a 16-bit value to a PHY register;
   * PowerUp      PHY power on, TMDS toggled, transmitter power on, PDDQ off;
   * PowerDown    data-enable polarity and interface control selected, TMDS
   *              and PHY power off (the head of each mxc_hdmi_phy_init round);
   * Shutdown     overflow interrupts off, PHY held in reset, TMDS, power and
   *              transmitter off, PDDQ on (mxc_hdmi_phy_disable).
   */
  datatype Step = FlowCtrl(cscInPath: bool) | ResetPhy | Write(addr: nat, data: u16) | PowerUp | PowerDown | Shutdown

  /** PHY register addresses. */
  const OPMODE_PLLCFG: nat := 0x06
  const PLLCURRCTRL: nat := 0x10
  const PLLPHBYCTRL: nat := 0x13
  const PLLGMPCTRL: nat := 0x15
  const PLLDIVCTRL: nat := 0x17
  const TXTERM: nat := 0x19
  const CKSYMTXCTRL: nat := 0x09
  const VLEVCTRL: nat := 0x0E
  const CKCALCTRL: nat := 0x05

  function W(addr: nat, data: u16): seq<Step>
  {
    [Write(addr, data)]
  }

  function When(c: bool, s: seq<Step>): seq<Step>
  {
    if c then s else []
  }

  // ---------------------------------------------------------------------
  // Bounded polling (hdmi_phy_wait_i2c_done, hdmi_edid_wait_i2c_done and
  // the PLL lock loop)
  // ---------------------------------------------------------------------

  /**
   * Read a status once, then, while it is not set, wait and read again,
   * giving up once `budget` waits have been spent. `ready(n)` is what the
   * n-th read (from 0) sees. The status is read at most budget + 1 times, the
   * poll succeeds exactly when one of those attempts sees it set, and it stops
   * at the first such read.
   */
  method PollBounded(budget: nat, ready: nat -> bool) returns (ok: bool, attempts: nat)
    ensures 1 <= attempts <= budget + 1
    ensures ok <==> exists n :: 0 <= n <= budget && ready(n)
    ensures ok ==> ready(attempts - 1) && forall n :: 0 <= n < attempts - 1 ==> !ready(n)
    ensures !ok ==> attempts == budget + 1
  {
    var msec := budget;
    attempts := 1;
    var val := ready(0);
    while !val
      invariant 1 <= attempts <= budget + 1
      invariant msec == budget - (attempts - 1)
      invariant val == ready(attempts - 1)
      invariant forall n :: 0 <= n < attempts - 1 ==> !ready(n)
      decreases msec
    {
      if msec == 0 {
        ok := false;
        return;
      }
      msec := msec - 1;
      val := ready(attempts);
      attempts := attempts + 1;
    }
    ok := true;
  }

  /** hdmi_phy_wait_i2c_done: done or error (bits 0 and 1 of HDMI_IH_I2CMPHY_STAT0), within msec waits. */
  method PhyWaitI2cDone(msec: nat, stat: nat -> bv8) returns (ok: bool)
    ensures ok <==> exists n :: 0 <= n <= msec && stat(n) & 0x3 != 0
  {
    var ready := (n: nat) => stat(n) & 0x3 != 0;
    var attempts;
    ok, attempts := PollBounded(msec, ready);
    assert forall n: nat :: ready(n) == (stat(n) & 0x3 != 0);
  }

  /** hdmi_edid_wait_i2c_done: the done bit (bit 1 of HDMI_IH_I2CM_STAT0), within msec waits. */
  method EdidWaitI2cDone(msec: nat, stat: nat -> bv8) returns (ok: bool)
    ensures ok <==> exists n :: 0 <= n <= msec && stat(n) & 0x2 != 0
  {
    var ready := (n: nat) => stat(n) & 0x2 != 0;
    var attempts;
    ok, attempts := PollBounded(msec, ready);
    assert forall n: nat :: ready(n) == (stat(n) & 0x2 != 0);
  }

  // ---------------------------------------------------------------------
  // The tables
  // ---------------------------------------------------------------------

  /**
   * What one switch over the colour resolution leaves: the writes it made
   * and whether it went on (a `break`) or returned false. The 12-bit case
   * above 45.25 MHz has no `break` and falls into `default`.
   */
  datatype Stage = Stage(writes: seq<Step>, ok: bool)

  function MpllPair(cfg: u16, gmp: u16): seq<Step>
  {
    W(OPMODE_PLLCFG, cfg) + W(PLLGMPCTRL, gmp)
  }

  /** The MPLL configuration and GMP control, by pixel-clock range (in Hz) and colour resolution. */
  function MpllStage(clock: u32, cRes: nat): Stage
  {
    if clock <= 45250000 then
      if cRes == 8 then Stage(MpllPair(0x01e0, 0x0000), true)
      else if cRes == 10 then Stage(MpllPair(0x21e1, 0x0000), true)
      else if cRes == 12 then Stage(MpllPair(0x41e2, 0x0000), true)
      else Stage([], false)
    else if clock <= 92500000 then
      if cRes == 8 then Stage(MpllPair(0x0140, 0x0005), true)
      else if cRes == 10 then Stage(MpllPair(0x2141, 0x0005), true)
      else if cRes == 12 then Stage(MpllPair(0x4142, 0x0005), false)
      else Stage([], false)
    else if clock <= 148500000 then
      if cRes == 8 then Stage(MpllPair(0x00a0, 0x000a), true)
      else if cRes == 10 then Stage(MpllPair(0x20a1, 0x000a), true)
      else if cRes == 12 then Stage(MpllPair(0x40a2, 0x000a), false)
      else Stage([], false)
    else
      if cRes == 8 then Stage(MpllPair(0x00a0, 0x000a), true)
      else if cRes == 10 then Stage(MpllPair(0x2001, 0x000f), true)
      else if cRes == 12 then Stage(MpllPair(0x4002, 0x000f), false)
      else Stage([], false)
  }

  datatype Option<T> = None | Some(value: T)

  /** The PLL current control, by pixel-clock range and colour resolution; None above 216 MHz. */
  function CurrCtrl(clock: u32, cRes: nat): Option<u16>
  {
    if cRes != 8 && cRes != 10 && cRes != 12 then None
    else if clock <= 54000000 then Some(if cRes == 12 then 0x06dc else 0x091c)
    else if clock <= 58400000 then Some(if cRes == 8 then 0x091c else 0x06dc)
    else if clock <= 72000000 then Some(if cRes == 12 then 0x091c else 0x06dc)
    else if clock <= 74250000 then Some(if cRes == 8 then 0x06dc else if cRes == 10 then 0x0b5c else 0x091c)
    else if clock <= 118800000 then Some(if cRes == 12 then 0x06dc else 0x091c)
    else if clock <= 216000000 then Some(if cRes == 8 then 0x06dc else if cRes == 10 then 0x0b5c else 0x091c)
    else None
  }

  /** The fixed settings, the board overrides, the clock-termination removal and the high-clock settings. */
  function Tail(clock: u32, board: BoardConfig): seq<Step>
  {
    W(PLLPHBYCTRL, 0x0000) + W(PLLDIVCTRL, 0x0006) + W(TXTERM, 0x0005)
    + W(CKSYMTXCTRL, 0x800d) + W(VLEVCTRL, 0x01ad)
    + When(board.cksymtx != 0, W(CKSYMTXCTRL, board.cksymtx))
    + When(board.vlev <= 1023, W(VLEVCTRL, board.vlev))
    + When(board.txterm <= 7, W(TXTERM, board.txterm))
    + W(CKCALCTRL, 0x8000)
    + When(clock > 148500000, W(CKSYMTXCTRL, 0x800b) + W(VLEVCTRL, 0x0129))
  }

  /** The colour resolution actually used: 0 stands for 8 bits. */
  function EffectiveRes(cRes: nat): nat
  {
    if cRes == 0 then 8 else cRes
  }

  /**
   * The steps hdmi_phy_configure takes, and whether it gets as far as the
   * lock poll (otherwise it has returned false).
   */
  function ConfigureSteps(pRep: nat, cRes: nat, cscOn: bool, clock: u32, board: BoardConfig): Stage
  {
    var c := EffectiveRes(cRes);
    if pRep != 0 || (c != 8 && c != 12) then Stage([], false)
    else
      var pre := [FlowCtrl(cscOn), ResetPhy];
      var m := MpllStage(clock, c);
      if !m.ok then Stage(pre + m.writes, false)
      else match CurrCtrl(clock, c)
        case None => Stage(pre + m.writes, false)
        case Some(v) => Stage(pre + m.writes + W(PLLCURRCTRL, v) + Tail(clock, board) + [PowerUp], true)
  }

  /** The lock bit is seen by one of the first budget + 1 reads. */
  ghost predicate LockSeen(locked: nat -> bool, budget: nat)
  {
    exists n :: 0 <= n <= budget && locked(n)
  }

  /**
   * hdmi_phy_configure. `locked(n)` is the PLL lock bit seen by the n-th read
   * of HDMI_PHY_STAT0; the lock is polled with 4 waits.
   */
  method Configure(pRep: nat, cRes: nat, cscOn: bool, clock: u32, board: BoardConfig, locked: nat -> bool)
    returns (ok: bool, log: seq<Step>, lockAttempts: nat)
    ensures log == ConfigureSteps(pRep, cRes, cscOn, clock, board).writes
    ensures ok <==> ConfigureSteps(pRep, cRes, cscOn, clock, board).ok && LockSeen(locked, 4)
    ensures lockAttempts <= 5
    ensures lockAttempts > 0 <==> ConfigureSteps(pRep, cRes, cscOn, clock, board).ok
  {
    log := [];
    lockAttempts := 0;
    var c := cRes;
    if c == 0 {
      c := 8;
    }
    if pRep != 0 {
      return false, log, lockAttempts;
    } else if c != 8 && c != 12 {
      return false, log, lockAttempts;
    }
    var pre := [FlowCtrl(cscOn), ResetPhy];
    var m := MpllStage(clock, c);
    log := pre + m.writes;
    if !m.ok {
      return false, log, lockAttempts;
    }
    var cc := CurrCtrl(clock, c);
    if cc.None? {
      return false, log, lockAttempts;
    }
    log := log + W(PLLCURRCTRL, cc.value) + Tail(clock, board) + [PowerUp];
    ok, lockAttempts := PollBounded(4, locked);
    assert ok <==> LockSeen(locked, 4);
  }

  // ---------------------------------------------------------------------
  // Properties of the configuration sequence
  // ---------------------------------------------------------------------

  /** The value a PHY register holds after the steps: the last value written to it. */
  function FinalValue(log: seq<Step>, addr: nat): Option<u16>
  {
    if |log| == 0 then None
    else if log[|log| - 1].Write? && log[|log| - 1].addr == addr then Some(log[|log| - 1].data)
    else FinalValue(log[..|log| - 1], addr)
  }

  lemma {:induction false} FinalValueAppend(a: seq<Step>, b: seq<Step>, addr: nat)
    ensures FinalValue(a + b, addr) == if FinalValue(b, addr).Some? then FinalValue(b, addr) else FinalValue(a, addr)
    decreases |b|
  {
    if |b| == 0 {
      assert a + b == a;
    } else {
      var ab := a + b;
      assert ab[|ab| - 1] == b[|b| - 1];
      assert ab[..|ab| - 1] == a + b[..|b| - 1];
      FinalValueAppend(a, b[..|b| - 1], addr);
    }
  }

  lemma FinalValueSingle(s: Step, addr: nat)
    ensures FinalValue([s], addr) == if s.Write? && s.addr == addr then Some(s.data) else None
  {
    assert [s][..0] == [];
  }

  lemma {:induction false} FinalValueWrite(a: seq<Step>, reg: nat, data: u16, addr: nat)
    ensures FinalValue(a + W(reg, data), addr) == if reg == addr then Some(data) else FinalValue(a, addr)
  {
    FinalValueAppend(a, W(reg, data), addr);
    FinalValueSingle(Write(reg, data), addr);
  }

  /**
   * The guards: a pixel repetition or a colour resolution other than 8 (or
   * 0) and 12 is refused before any write. In particular the 10-bit table
   * entries can never be used.
   */
  lemma {:induction false} ConfigureGuards(pRep: nat, cRes: nat, cscOn: bool, clock: u32, board: BoardConfig)
    requires pRep != 0 || (cRes != 0 && cRes != 8 && cRes != 12)
    ensures ConfigureSteps(pRep, cRes, cscOn, clock, board) == Stage([], false)
  {
  }

  /**
   * When the sequence reaches the lock poll: no pixel repetition, and either
   * 8-bit colour up to 216 MHz or 12-bit colour only up to 45.25 MHz (the
   * 12-bit cases of the higher MPLL ranges fall through to `default`).
   */
  lemma {:induction false} ConfigureReachesLock(pRep: nat, cRes: nat, cscOn: bool, clock: u32, board: BoardConfig)
    ensures ConfigureSteps(pRep, cRes, cscOn, clock, board).ok <==>
            pRep == 0 && (((cRes == 0 || cRes == 8) && clock <= 216000000) || (cRes == 12 && clock <= 45250000))
  {
    var c := EffectiveRes(cRes);
    if pRep == 0 && (c == 8 || c == 12) {
      var m := MpllStage(clock, c);
      assert m.ok <==> c == 8 || clock <= 45250000;
      assert CurrCtrl(clock, c).Some? <==> clock <= 216000000;
    }
  }

  /**
   * A 12-bit request above 45.25 MHz fails after the MPLL registers have
   * been written (with the 12-bit values of their range), and before any
   * current-control or power-up step.
   */
  lemma {:induction false} TwelveBitFallThrough(cscOn: bool, clock: u32, board: BoardConfig)
    requires clock > 45250000
    ensures var s := ConfigureSteps(0, 12, cscOn, clock, board);
            && !s.ok
            && |s.writes| == 4
            && s.writes[2] == Write(OPMODE_PLLCFG, if clock <= 92500000 then 0x4142 else if clock <= 148500000 then 0x40a2 else 0x4002)
            && s.writes[3].addr == PLLGMPCTRL
  {
  }

  /**
   * What the PHY is left with after a sequence that reaches the lock poll:
   * CKSYMTXCTRL and VLEVCTRL get the high-clock values above 148.5 MHz, and
   * otherwise the board overrides when they are valid (a non-zero CKSYMTX, a
   * VLEV up to 1023) and the defaults when not; TXTERM gets the board value
   * when it is at most 7 and 133 ohm (5) otherwise; the current control is
   * the table's; the sequence opens with the flow control and ends powered up.
   */
  lemma {:induction false} ConfigureRegisters(pRep: nat, cRes: nat, cscOn: bool, clock: u32, board: BoardConfig)
    requires ConfigureSteps(pRep, cRes, cscOn, clock, board).ok
    ensures var log := ConfigureSteps(pRep, cRes, cscOn, clock, board).writes;
            && log[0] == FlowCtrl(cscOn) && log[|log| - 1] == PowerUp
            && FinalValue(log, CKSYMTXCTRL) == Some(if clock > 148500000 then 0x800b else if board.cksymtx != 0 then board.cksymtx else 0x800d)
            && FinalValue(log, VLEVCTRL) == Some(if clock > 148500000 then 0x0129 else if board.vlev <= 1023 then board.vlev else 0x01ad)
            && FinalValue(log, TXTERM) == Some(if board.txterm <= 7 then board.txterm else 0x0005)
            && FinalValue(log, PLLCURRCTRL) == CurrCtrl(clock, EffectiveRes(cRes))
            && FinalValue(log, CKCALCTRL) == Some(0x8000)
  {
    var c := EffectiveRes(cRes);
    var pre := [FlowCtrl(cscOn), ResetPhy];
    var m := MpllStage(clock, c);
    var v := CurrCtrl(clock, c).value;
    var head := pre + m.writes + W(PLLCURRCTRL, v);
    var log := head + Tail(clock, board) + [PowerUp];
    assert log == ConfigureSteps(pRep, cRes, cscOn, clock, board).writes;
    assert log[0] == FlowCtrl(cscOn);
    forall addr | addr in {CKSYMTXCTRL, VLEVCTRL, TXTERM, CKCALCTRL}
      ensures FinalValue(log, addr) == FinalValue(Tail(clock, board), addr)
    {
      FinalValueAppend(head + Tail(clock, board), [PowerUp], addr);
      FinalValueSingle(PowerUp, addr);
      FinalValueAppend(head, Tail(clock, board), addr);
      TailSetsRegister(clock, board, addr);
    }
    TailRegisters(clock, board);
    FinalValueAppend(head + Tail(clock, board), [PowerUp], PLLCURRCTRL);
    FinalValueSingle(PowerUp, PLLCURRCTRL);
    FinalValueAppend(head, Tail(clock, board), PLLCURRCTRL);
    TailLeavesCurrCtrl(clock, board);
    FinalValueWrite(pre + m.writes, PLLCURRCTRL, v, PLLCURRCTRL);
  }

  /** The pieces of Tail, each a short concatenation. */
  function TailFixed(): seq<Step>
  {
    W(PLLPHBYCTRL, 0x0000) + W(PLLDIVCTRL, 0x0006) + W(TXTERM, 0x0005) + W(CKSYMTXCTRL, 0x800d) + W(VLEVCTRL, 0x01ad)
  }

  function TailBoard(board: BoardConfig): seq<Step>
  {
    When(board.cksymtx != 0, W(CKSYMTXCTRL, board.cksymtx))
    + When(board.vlev <= 1023, W(VLEVCTRL, board.vlev))
    + When(board.txterm <= 7, W(TXTERM, board.txterm))
  }

  function TailHigh(clock: u32): seq<Step>
  {
    W(CKCALCTRL, 0x8000) + When(clock > 148500000, W(CKSYMTXCTRL, 0x800b) + W(VLEVCTRL, 0x0129))
  }

  lemma TailSplit(clock: u32, board: BoardConfig)
    ensures Tail(clock, board) == TailFixed() + TailBoard(board) + TailHigh(clock)
  {
  }

  /** Each of the four registers named is written somewhere in Tail. */
  lemma {:induction false} TailSetsRegister(clock: u32, board: BoardConfig, addr: nat)
    requires addr in {CKSYMTXCTRL, VLEVCTRL, TXTERM, CKCALCTRL}
    ensures FinalValue(Tail(clock, board), addr).Some?
  {
    TailSplit(clock, board);
    FinalValueAppend(TailFixed() + TailBoard(board), TailHigh(clock), addr);
    FinalValueAppend(TailFixed(), TailBoard(board), addr);
    FixedRegisters(addr);
    HighRegisters(clock, addr);
  }

  lemma {:induction false} TailLeavesCurrCtrl(clock: u32, board: BoardConfig)
    ensures FinalValue(Tail(clock, board), PLLCURRCTRL).None?
  {
    TailSplit(clock, board);
    FinalValueAppend(TailFixed() + TailBoard(board), TailHigh(clock), PLLCURRCTRL);
    FinalValueAppend(TailFixed(), TailBoard(board), PLLCURRCTRL);
    FixedRegisters(PLLCURRCTRL);
    BoardRegisters(board, PLLCURRCTRL);
    HighRegisters(clock, PLLCURRCTRL);
  }

  lemma {:induction false} FixedRegisters(addr: nat)
    ensures FinalValue(TailFixed(), addr) ==
            if addr == TXTERM then Some(0x0005) else if addr == CKSYMTXCTRL then Some(0x800d)
            else if addr == VLEVCTRL then Some(0x01ad) else if addr == PLLPHBYCTRL then Some(0x0000)
            else if addr == PLLDIVCTRL then Some(0x0006) else None
  {
    var a := W(PLLPHBYCTRL, 0x0000);
    var b := a + W(PLLDIVCTRL, 0x0006);
    var c := b + W(TXTERM, 0x0005);
    var d := c + W(CKSYMTXCTRL, 0x800d);
    FinalValueSingle(Write(PLLPHBYCTRL, 0x0000), addr);
    FinalValueWrite(a, PLLDIVCTRL, 0x0006, addr);
    FinalValueWrite(b, TXTERM, 0x0005, addr);
    FinalValueWrite(c, CKSYMTXCTRL, 0x800d, addr);
    FinalValueWrite(d, VLEVCTRL, 0x01ad, addr);
  }

  lemma {:induction false} BoardRegisters(board: BoardConfig, addr: nat)
    ensures FinalValue(TailBoard(board), addr) ==
            if addr == CKSYMTXCTRL && board.cksymtx != 0 then Some(board.cksymtx)
            else if addr == VLEVCTRL && board.vlev <= 1023 then Some(board.vlev)
            else if addr == TXTERM && board.txterm <= 7 then Some(board.txterm)
            else None
  {
    var a := When(board.cksymtx != 0, W(CKSYMTXCTRL, board.cksymtx));
    var b := When(board.vlev <= 1023, W(VLEVCTRL, board.vlev));
    var c := When(board.txterm <= 7, W(TXTERM, board.txterm));
    FinalValueAppend(a + b, c, addr);
    FinalValueAppend(a, b, addr);
    WhenWrite(board.cksymtx != 0, CKSYMTXCTRL, board.cksymtx, addr);
    WhenWrite(board.vlev <= 1023, VLEVCTRL, board.vlev, addr);
    WhenWrite(board.txterm <= 7, TXTERM, board.txterm, addr);
  }

  lemma {:induction false} HighRegisters(clock: u32, addr: nat)
    ensures FinalValue(TailHigh(clock), addr) ==
            if addr == CKCALCTRL then Some(0x8000)
            else if clock > 148500000 && addr == CKSYMTXCTRL then Some(0x800b)
            else if clock > 148500000 && addr == VLEVCTRL then Some(0x0129)
            else None
  {
    var hi := W(CKSYMTXCTRL, 0x800b) + W(VLEVCTRL, 0x0129);
    FinalValueAppend(W(CKCALCTRL, 0x8000), When(clock > 148500000, hi), addr);
    FinalValueSingle(Write(CKCALCTRL, 0x8000), addr);
    FinalValueSingle(Write(CKSYMTXCTRL, 0x800b), addr);
    FinalValueWrite(W(CKSYMTXCTRL, 0x800b), VLEVCTRL, 0x0129, addr);
    assert FinalValue([], addr) == None;
  }

  lemma WhenWrite(c: bool, reg: nat, data: u16, addr: nat)
    ensures FinalValue(When(c, W(reg, data)), addr) == if c && reg == addr then Some(data) else None
  {
    FinalValueSingle(Write(reg, data), addr);
  }

  /** The register values Tail leaves, composed from its three pieces. */
  lemma {:induction false} TailRegisters(clock: u32, board: BoardConfig)
    ensures FinalValue(Tail(clock, board), CKSYMTXCTRL) == Some(if clock > 148500000 then 0x800b else if board.cksymtx != 0 then board.cksymtx else 0x800d)
    ensures FinalValue(Tail(clock, board), VLEVCTRL) == Some(if clock > 148500000 then 0x0129 else if board.vlev <= 1023 then board.vlev else 0x01ad)
    ensures FinalValue(Tail(clock, board), TXTERM) == Some(if board.txterm <= 7 then board.txterm else 0x0005)
    ensures FinalValue(Tail(clock, board), CKCALCTRL) == Some(0x8000)
  {
    TailSplit(clock, board);
    forall addr | addr in {CKSYMTXCTRL, VLEVCTRL, TXTERM, CKCALCTRL}
      ensures FinalValue(Tail(clock, board), addr) ==
              if FinalValue(TailHigh(clock), addr).Some? then FinalValue(TailHigh(clock), addr)
              else if FinalValue(TailBoard(board), addr).Some? then FinalValue(TailBoard(board), addr)
              else FinalValue(TailFixed(), addr)
    {
      FinalValueAppend(TailFixed() + TailBoard(board), TailHigh(clock), addr);
      FinalValueAppend(TailFixed(), TailBoard(board), addr);
    }
    FixedRegisters(CKSYMTXCTRL);
    FixedRegisters(VLEVCTRL);
    FixedRegisters(TXTERM);
    FixedRegisters(CKCALCTRL);
    BoardRegisters(board, CKSYMTXCTRL);
    BoardRegisters(board, VLEVCTRL);
    BoardRegisters(board, TXTERM);
    BoardRegisters(board, CKCALCTRL);
    HighRegisters(clock, CKSYMTXCTRL);
    HighRegisters(clock, VLEVCTRL);
    HighRegisters(clock, TXTERM);
    HighRegisters(clock, CKCALCTRL);
  }
}
