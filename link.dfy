/**
 * The link-state bookkeeping of the driver object: hotplug state, the HPD
 * event and mask it listens for, the default-mode latch, the PHY enable flag,
 * and the sequential steps that change them: cable connected and
 * disconnected, the hotplug worker (with its polarity flip), the
 * cable-connected worker (EDID read, single retry, dispatch), set_mode,
 * mxc_hdmi_setup, and PHY init and disable.
 *
 * Calls into the framebuffer core and the EDID reader are parameters
 * (Oracles and RawRead); what the driver does to the framebuffer core is
 * recorded as Events, what it does to the PHY as Phy.Steps.
 */
module Link {
  import opened FbMode
  import opened Edid
  import opened ModeList
  import opened Video
  import Phy

  /** enum hotplug_state. */
  datatype HotplugState = Disconnected | ConnectedNoEdid | ConnectedDvi | ConnectedHdmi

  /**
   * The HPD interrupt bit and PHY status bit of an HDMI sink, and the ones
   * used for a DVI sink. The register header is not part of this model: the
   * HDMI values follow the transmitter's register layout, the two DVI values
   * are stand-ins, and no proof depends on their values.
   */
  const HDMI_IH_PHY_STAT0_HPD: bv8 := 0x01
  const HDMI_PHY_HPD: bv8 := 0x02
  const HDMI_DVI_IH_STAT: bv8 := 0x3C
  const HDMI_DVI_STAT: bv8 := 0xF0

  const FB_BLANK_UNBLANK: int := 0
  const FB_BLANK_POWERDOWN: int := 4

  /** Requests the driver makes of the framebuffer core and the audio side. */
  datatype Event = FbBlank(level: int) | FbSetVar(mode: Mode) | CableState(plugged: bool)

  /**
   * The framebuffer-core and EDID helpers the driver calls, none of them part
   * of this model: mxc_edid_mode_to_vic, mxc_fb_find_nearest_mode (which may
   * find nothing), fb_find_nearest_mode on a non-empty list,
   * mxc_edid_fb_mode_is_equal with all fields compared, the pixel clock in
   * Hz of a mode, and the mxc_cea_mode table.
   */
  datatype Oracles = Oracles(
    toVic: Mode -> nat,
    nearestMxc: (Mode, seq<Mode>) -> Option<Mode>,
    nearestFb: (Mode, seq<Mode>) -> Mode,
    sameMode: (Mode, Mode) -> bool,
    pixelClock: Mode -> Phy.u32,
    cea: seq<Mode>)

  predicate ValidOracles(o: Oracles)
  {
    |o.cea| == MXC_CEA_MODES
  }

  // ---------------------------------------------------------------------
  // Decisions on values
  // ---------------------------------------------------------------------

  /** The four outcomes of mxc_hdmi_set_mode. */
  datatype SetModeAction = NoMode | SetupOnly | NotifySameMode | NotifyNewMode | KeepMode

  /**
   * The branch mxc_hdmi_set_mode takes, given whether the requested mode has a
   * nearest entry in the list, whether that entry equals it, and the EDID
   * status: nothing without a mode; a plain setup for the same mode and the
   * same EDID; a notification whenever the EDID changed; and neither setup nor
   * notification for a different mode with the same EDID.
   */
  function ModeAction(found: bool, equal: bool, status: EdidStatus): (a: SetModeAction)
    ensures a == NoMode <==> !found
    ensures a == SetupOnly <==> found && equal && status == Same
    ensures a == NotifySameMode <==> found && equal && status != Same
    ensures a == NotifyNewMode <==> found && !equal && status != Same
    ensures a == KeepMode <==> found && !equal && status == Same
  {
    if !found then NoMode
    else if equal && status == Same then SetupOnly
    else if equal && status != Same then NotifySameMode
    else if status != Same then NotifyNewMode
    else KeepMode
  }

  /** The mode set_mode asks for: the default mode on the first call, the saved non-VGA mode after. */
  function Requested(dftModeSet: bool, saved: Mode, defaultMode: Mode): Mode
  {
    if dftModeSet then saved else defaultMode
  }

  /**
   * The requests set_mode makes of the framebuffer core once a nearest mode
   * was found: unblank, the notification of the saved or the nearest mode
   * when there is one, then the cable reported as plugged.
   */
  function ModeEvents(a: SetModeAction, nearest: Mode, saved: Mode): seq<Event>
  {
    if a == NoMode then [] else [FbBlank(FB_BLANK_UNBLANK)] + Notification(a, nearest, saved) + [CableState(true)]
  }

  /** The fb_set_var request of a notifying branch: the saved mode for the same mode, the nearest one for a new mode. */
  function Notification(a: SetModeAction, nearest: Mode, saved: Mode): seq<Event>
  {
    match a
    case NotifySameMode => [FbSetVar(saved)]
    case NotifyNewMode => [FbSetVar(nearest)]
    case _ => []
  }

  /** fbi->var after set_mode: the saved mode for the same mode, the nearest one for a new mode, else unchanged. */
  function ModeAfter(a: SetModeAction, nearest: Mode, saved: Mode, current: Mode): Mode
  {
    match a
    case SetupOnly => saved
    case NotifySameMode => saved
    case NotifyNewMode => nearest
    case _ => current
  }

  /**
   * Once a nearest mode is found, set_mode always unblanks first and reports
   * the cable last; it notifies the framebuffer core exactly when the EDID
   * changed, with the mode that becomes current, and otherwise leaves the
   * current mode as the saved one or as it was.
   */
  lemma {:induction false} NotifiesExactlyOnNewEdid(equal: bool, status: EdidStatus, nearest: Mode, saved: Mode, current: Mode)
    ensures var a := ModeAction(true, equal, status);
            var ev := ModeEvents(a, nearest, saved);
            var after := ModeAfter(a, nearest, saved, current);
            && 2 <= |ev| && ev[0] == FbBlank(FB_BLANK_UNBLANK) && ev[|ev| - 1] == CableState(true)
            && ((exists p :: 0 <= p < |ev| && ev[p].FbSetVar?) <==> status != Same)
            && (status != Same ==> ev[1] == FbSetVar(after))
            && (status == Same ==> after == (if equal then saved else current))
  {
    var a := ModeAction(true, equal, status);
    var ev := ModeEvents(a, nearest, saved);
    if status == Same {
      assert |ev| == 2;
      assert !ev[0].FbSetVar? && !ev[1].FbSetVar?;
    } else {
      assert ev[1].FbSetVar?;
    }
  }

  /**
   * The jitter-timer delay in milliseconds: short until the default mode is
   * set, one second (HZ) after. A reference definition whose ensures only
   * split the `if`; HotplugIrq is tied to it.
   */
  function DebounceMs(dftModeSet: bool): (ms: nat)
    ensures ms == 100 <==> !dftModeSet
    ensures ms == 1000 <==> dftModeSet
  {
    if !dftModeSet then 100 else 1000
  }

  /** The value written to HDMI_PHY_POL0 by the hotplug worker. */
  function FlipPolarity(plugMask: bv8, pol0: bv8): bv8
  {
    plugMask & !pol0
  }

  /** A plug-in event: the polarity register has one of the listened-for bits set. */
  predicate PlugIn(pol0: bv8, plugMask: bv8)
  {
    pol0 & plugMask != 0
  }

  /**
   * The polarity flip: each listened-for bit is inverted and every other bit
   * cleared, so for the single HPD bit of an HDMI sink the next hotplug
   * worker sees the opposite event.
   */
  lemma {:induction false} PolarityFlips(plugMask: bv8, pol0: bv8, i: nat)
    requires i < 8
    ensures var bit := (1 as bv8) << i;
            (FlipPolarity(plugMask, pol0) & bit != 0) <==> (plugMask & bit != 0 && pol0 & bit == 0)
    ensures PlugIn(FlipPolarity(HDMI_PHY_HPD, pol0), HDMI_PHY_HPD) <==> !PlugIn(pol0, HDMI_PHY_HPD)
  {
  }

  /** The configuration left by the reads of the worker: the last read's, or the old one when EDID is ignored. */
  function ReadsCfg(ignoreEdid: bool, oldCfg: EdidCfg, previous: EdidBytes, first: RawRead, retry: RawRead): EdidCfg
  {
    if ignoreEdid then oldCfg
    else if Retries(false, Classify(previous, first)) then ReadCfg(retry)
    else ReadCfg(first)
  }

  /** The EDID bytes left by the reads of the worker: the last read's, or the old ones when EDID is ignored. */
  function ReadsEdid(ignoreEdid: bool, previous: EdidBytes, first: RawRead, retry: RawRead): EdidBytes
  {
    if ignoreEdid then previous
    else if Retries(false, Classify(previous, first)) then retry.edid
    else first.edid
  }

  /** The status the cable-connected worker dispatches on. */
  function WorkerStatus(ignoreEdid: bool, previous: EdidBytes, first: RawRead, retry: RawRead): EdidStatus
  {
    if ignoreEdid then Fail
    else
      var s := Classify(previous, first);
      if Retries(false, s) then Retried(s, Classify(first.edid, retry)) else s
  }

  /** The HDMI capability after dispatch: a failed read is taken to be an HDMI sink. */
  function DispatchCfg(status: EdidStatus, cfg: EdidCfg): (c: EdidCfg)
    ensures status == Fail ==> c.hdmiCap
    ensures status != Fail ==> c == cfg
    ensures c.(hdmiCap := cfg.hdmiCap) == cfg
  {
    if status == Fail then cfg.(hdmiCap := true) else cfg
  }

  /**
   * The worker's final status: Fail when EDID is ignored; Same exactly when
   * the first read saw the same EDID (a Same retry keeps a Fail or NoModes
   * first outcome); and whatever it is, a Fail ends as an HDMI sink while a
   * Success or NoModes ends with the capability the last read reported.
   */
  lemma {:induction false} WorkerOutcome(ignoreEdid: bool, oldCfg: EdidCfg, previous: EdidBytes, first: RawRead, retry: RawRead)
    ensures var s := WorkerStatus(ignoreEdid, previous, first, retry);
            var c := DispatchCfg(s, ReadsCfg(ignoreEdid, oldCfg, previous, first, retry));
            && (ignoreEdid ==> s == Fail)
            && (s == Same <==> !ignoreEdid && Classify(previous, first) == Same)
            && (s == Fail ==> c.hdmiCap)
            && (s != Fail ==> c == ReadsCfg(ignoreEdid, oldCfg, previous, first, retry))
            && (!ignoreEdid && Classify(previous, first) == Success ==> s == Success && c == ReadCfg(first))
  {
    var s := WorkerStatus(ignoreEdid, previous, first, retry);
    if !ignoreEdid {
      var s1 := Classify(previous, first);
      if Retries(false, s1) {
        RetryKeepsFirstOnSame(s1);
        assert s == Retried(s1, Classify(first.edid, retry));
        assert s != Same;
      } else {
        assert s == s1;
      }
    }
  }

  /**
   * The bytes a worker run stores are what the next run compares against:
   * when the next run's first read brings those bytes again without an
   * error, its status is SAME (the mode list is kept), and no second read is
   * made. A run that ignores EDID stores nothing new.
   */
  lemma {:induction false} StoredEdidDecidesNextSame(ignoreEdid: bool, previous: EdidBytes, first: RawRead, retry: RawRead,
                                                     next: RawRead, nextRetry: RawRead)
    requires !next.failed && next.edid == ReadsEdid(ignoreEdid, previous, first, retry)
    ensures WorkerStatus(false, ReadsEdid(ignoreEdid, previous, first, retry), next, nextRetry) == Same
    ensures !Retries(false, Classify(ReadsEdid(ignoreEdid, previous, first, retry), next))
    ensures ignoreEdid ==> ReadsEdid(ignoreEdid, previous, first, retry) == previous
  {
    var stored := ReadsEdid(ignoreEdid, previous, first, retry);
    assert Classify(stored, next) == Same;
    NoRetryAfterSuccessOrSame(false, Same);
  }

  /** The nearest mode's vmode, used for the AVI aspect ratio; none for an empty list. */
  function AviNearest(m: Mode, list: seq<Mode>, o: Oracles): Option<bv32>
  {
    if |list| > 0 then Some(o.nearestFb(m, list).vmode) else None
  }

  /** The VIC mxc_hdmi_setup settles on. */
  function SetupVic(requestingVga: bool, m: Mode, list: seq<Mode>, o: Oracles): int
  {
    if requestingVga || |list| == 0 then 0
    else match o.nearestMxc(m, list)
      case None => 0
      case Some(e) => o.toVic(e)
  }

  // ---------------------------------------------------------------------
  // The driver object
  // ---------------------------------------------------------------------

  /** mxc_hdmi_phy_init does nothing while the framebuffer is unregistered, the cable out or the display blanked. */
  predicate PhyGated(fbReg: bool, hp: HotplugState, blank: int)
  {
    !fbReg || hp == Disconnected || blank != FB_BLANK_UNBLANK
  }

  /** FB_EVENT_BLANK acts only on a registered framebuffer with a cable in, and only when the level changes. */
  predicate BlankChanges(fbReg: bool, hp: HotplugState, blank: int, level: int)
  {
    fbReg && hp != Disconnected && level != blank
  }

  /** The CSC is put in the PHY's data path only for a conversion towards an HDMI sink. */
  predicate CscOnFor(p: VideoParams, range: QuantRange, hp: HotplugState)
  {
    IsColorSpaceConversion(p.inFormat, p.outFormat, range, p.vic) && hp == ConnectedHdmi
  }

  /**
   * n rounds of the loop in mxc_hdmi_phy_init: each powers the PHY down, then
   * configures it for no pixel repetition and 8 bits per component.
   */
  function PhyRounds(cscOn: bool, clock: Phy.u32, board: Phy.BoardConfig, n: nat): seq<Phy.Step>
  {
    if n == 0 then []
    else PhyRounds(cscOn, clock, board, n - 1) + [Phy.PowerDown] + Phy.ConfigureSteps(0, 8, cscOn, clock, board).writes
  }

  /** HDMI_PHY_POL0, HDMI_PHY_MASK0 and HDMI_IH_MUTE_PHY_STAT0. */
  datatype HpdRegs = HpdRegs(pol0: bv8, mask0: bv8, mute0: bv8)

  /** The end of hotplug_worker: the listened-for bits are unmasked and the event is unmuted. */
  function Rearmed(h: HpdRegs, plugMask: bv8, plugEvent: bv8): (r: HpdRegs)
    ensures r.pol0 == h.pol0
    ensures r.mask0 & plugMask == 0 && r.mute0 & plugEvent == 0
    ensures r.mask0 | plugMask == h.mask0 | plugMask
  {
    h.(mask0 := h.mask0 & !plugMask, mute0 := !plugEvent)
  }

  /**
   * The hotplug interrupt's muting: the listened-for bits are masked and the
   * event muted until the hotplug worker re-arms them; nothing else changes.
   */
  function Muted(h: HpdRegs, plugMask: bv8, plugEvent: bv8): (r: HpdRegs)
    ensures r.pol0 == h.pol0
    ensures r.mask0 & plugMask == plugMask && r.mute0 & plugEvent == plugEvent
  {
    h.(mask0 := h.mask0 | plugMask, mute0 := h.mute0 | plugEvent)
  }

  /**
   * What the worker re-arms is exactly what the interrupt muted: whatever the
   * worker writes to the polarity, the listened-for mask bits end clear, every
   * other mask bit ends as it was before the interrupt (so a mask that was
   * clear there is restored), and the event is unmuted.
   */
  lemma {:induction false} RearmUndoesMute(h: HpdRegs, pol0: bv8, plugMask: bv8, plugEvent: bv8)
    ensures var r := Rearmed(Muted(h, plugMask, plugEvent).(pol0 := pol0), plugMask, plugEvent);
            && r.pol0 == pol0
            && r.mask0 == h.mask0 & !plugMask
            && (h.mask0 & plugMask == 0 ==> r.mask0 == h.mask0)
            && r.mute0 & plugEvent == 0
  {
  }

  /**
   * What mxc_hdmi_setup programs besides the PHY: DVI or HDMI mode, the frame
   * composer timings and pixel clock, the AVI InfoFrame, the packetiser, the
   * CSC configuration and scale, and the sampler's data map.
   */
  datatype Programmed = Programmed(
    dviMode: bool, composer: Composer, pixelClock: Phy.u32, avi: Option<Avi>,
    packetizer: Option<PacketizerConfig>, cscConfig: Option<CscConfig>, cscScale: nat, dataMap: Option<int>)

  // ---------------------------------------------------------------------
  // The driver object
  // ---------------------------------------------------------------------

  class MxcHdmi {
    /** The framebuffer: its mode list and its mode database. */
    const fbi: FbInfo
    /** The 3x4 CSC coefficient registers. */
    const csc: array2<int>
    const board: Phy.BoardConfig
    const defaultMode: Mode
    const rgbOutEnable: bool
    const quantSetting: QuantRange
    const enable3d: bool
    const enableFract: bool

    var hpState: HotplugState
    var plugEvent: bv8
    var plugMask: bv8
    var dftModeSet: bool
    var requestingVga: bool
    var phyEnabled: bool
    var fbReg: bool
    var blank: int
    var edidCfg: EdidCfg
    var edid: EdidBytes
    /** fbi->var, as a mode. */
    var varMode: Mode
    var previousNonVga: Mode
    /** hdmi->vic and the format choices of hdmi->hdmi_data. */
    var vic: int
    var hdmiData: VideoParams
    var out: Programmed
    var overflowIrq: bool
    var hpd: HpdRegs

    var phyLog: seq<Phy.Step>
    var events: seq<Event>

    predicate Valid()
    {
      csc.Length0 == 3 && csc.Length1 == 4
    }

    /** The state after probe: disconnected, listening for the DVI status bits, blanked. */
    constructor (fbi: FbInfo, defaultMode: Mode, board: Phy.BoardConfig, rgbOutEnable: bool,
                 quantSetting: QuantRange, enable3d: bool, enableFract: bool, cfg: EdidCfg)
      ensures Valid() && fresh(csc)
      ensures this.fbi == fbi && this.defaultMode == defaultMode && this.board == board
      ensures hpState == Disconnected && plugEvent == HDMI_DVI_IH_STAT && plugMask == HDMI_DVI_STAT
      ensures !dftModeSet && !phyEnabled && !fbReg && blank == FB_BLANK_POWERDOWN
      ensures edidCfg == cfg && phyLog == [] && events == []
    {
      this.fbi := fbi;
      this.defaultMode := defaultMode;
      this.board := board;
      this.rgbOutEnable := rgbOutEnable;
      this.quantSetting := quantSetting;
      this.enable3d := enable3d;
      this.enableFract := enableFract;
      csc := new int[3, 4];
      hpState := Disconnected;
      plugEvent := HDMI_DVI_IH_STAT;
      plugMask := HDMI_DVI_STAT;
      dftModeSet := false;
      requestingVga := false;
      phyEnabled := false;
      fbReg := false;
      blank := FB_BLANK_POWERDOWN;
      edidCfg := cfg;
      edid := seq(HDMI_EDID_LEN, _ => 0);
      varMode := defaultMode;
      previousNonVga := defaultMode;
      vic := 0;
      hdmiData := SetupParams(0, false, rgbOutEnable, cfg);
      out := Programmed(false, AvComposer(defaultMode, false), 0, None, None, None, 1, None);
      overflowIrq := false;
      hpd := HpdRegs(0, 0, 0);
      phyLog := [];
      events := [];
    }

    // Groups of fields an operation leaves alone.

    twostate predicate LinkKept()
      reads this
    {
      old(hpState) == hpState && old(plugEvent) == plugEvent && old(plugMask) == plugMask
      && old(fbReg) == fbReg && old(blank) == blank && old(hpd) == hpd
    }

    twostate predicate EdidKept()
      reads this
    {
      old(edidCfg) == edidCfg && old(edid) == edid
    }

    twostate predicate ModeKept()
      reads this
    {
      old(dftModeSet) == dftModeSet && old(requestingVga) == requestingVga && old(varMode) == varMode
    }

    twostate predicate VideoKept()
      reads this
    {
      old(vic) == vic && old(previousNonVga) == previousNonVga && old(hdmiData) == hdmiData && old(out) == out
    }

    twostate predicate PhyKept()
      reads this
    {
      old(phyEnabled) == phyEnabled && old(phyLog) == phyLog && old(overflowIrq) == overflowIrq
    }

    /**
     * mxc_hdmi_phy_init. `locked(r, n)` is the lock bit seen by the n-th read
     * of round r. The PHY is marked enabled once both rounds ran, whether or
     * not it locked.
     */
    method PhyInit(locked: (nat, nat) -> bool)
      modifies this
      ensures LinkKept() && EdidKept() && ModeKept() && VideoKept()
      ensures events == old(events) && overflowIrq == old(overflowIrq)
      ensures if PhyGated(fbReg, hpState, blank) then phyLog == old(phyLog) && phyEnabled == old(phyEnabled)
              else phyLog == old(phyLog) + PhyRounds(CscOnFor(hdmiData, GetRgbQuantRange(quantSetting, edidCfg.ceaRgbRangeSelectable), hpState),
                                                     out.pixelClock, board, 2) && phyEnabled
    {
      if !fbReg || hpState == Disconnected || blank != FB_BLANK_UNBLANK {
        return;
      }
      var cscon := IsColorSpaceConversion(hdmiData.inFormat, hdmiData.outFormat,
                                          GetRgbQuantRange(quantSetting, edidCfg.ceaRgbRangeSelectable), hdmiData.vic)
                   && hpState == ConnectedHdmi;
      for i := 0 to 2
        invariant phyLog == old(phyLog) + PhyRounds(cscon, out.pixelClock, board, i)
        invariant LinkKept() && EdidKept() && ModeKept() && VideoKept()
        invariant events == old(events) && overflowIrq == old(overflowIrq) && phyEnabled == old(phyEnabled)
      {
        PhyRoundOnce(cscon, (n: nat) => locked(i, n), i, old(phyLog));
      }
      phyEnabled := true;
    }

    /** One pass of the loop in mxc_hdmi_phy_init. */
    method PhyRoundOnce(cscOn: bool, locked: nat -> bool, ghost k: nat, ghost base: seq<Phy.Step>)
      requires phyLog == base + PhyRounds(cscOn, out.pixelClock, board, k)
      modifies this
      ensures phyLog == base + PhyRounds(cscOn, out.pixelClock, board, k + 1)
      ensures LinkKept() && EdidKept() && ModeKept() && VideoKept()
      ensures events == old(events) && overflowIrq == old(overflowIrq) && phyEnabled == old(phyEnabled)
    {
      var ok, log, attempts := Phy.Configure(0, 8, cscOn, out.pixelClock, board, locked);
      phyLog := phyLog + [Phy.PowerDown] + log;
    }

    /** mxc_hdmi_phy_disable: only an enabled PHY is shut down. */
    method PhyDisable()
      modifies this
      ensures LinkKept() && EdidKept() && ModeKept() && VideoKept() && events == old(events)
      ensures !old(phyEnabled) ==> PhyKept()
      ensures old(phyEnabled) ==> !phyEnabled && !overflowIrq && phyLog == old(phyLog) + [Phy.Shutdown]
    {
      if !phyEnabled {
        return;
      }
      overflowIrq := false;
      phyLog := phyLog + [Phy.Shutdown];
      phyEnabled := false;
    }

    /** The VIC and saved mode of mxc_hdmi_setup. */
    method ChooseVic(o: Oracles)
      modifies this
      ensures vic == SetupVic(requestingVga, varMode, fbi.modelist, o)
      ensures previousNonVga == if requestingVga then old(previousNonVga) else varMode
      ensures LinkKept() && EdidKept() && ModeKept() && PhyKept() && events == old(events)
      ensures hdmiData == old(hdmiData) && out == old(out)
    {
      vic := 0;
      if !requestingVga {
        previousNonVga := varMode;
        if |fbi.modelist| > 0 {
          var e := o.nearestMxc(varMode, fbi.modelist);
          if e.Some? {
            vic := o.toVic(e.value);
          }
        }
      }
    }

    /** The first half of mxc_hdmi_setup: DVI or HDMI mode, the format choices, the frame composer and the pixel clock. */
    method ProgramLink(o: Oracles)
      modifies this
      ensures hdmiData == SetupParams(vic, hpState == ConnectedHdmi, rgbOutEnable, edidCfg)
      ensures out == old(out).(dviMode := !(hpState == ConnectedHdmi || hpState == ConnectedNoEdid),
                               composer := AvComposer(varMode, hpState == ConnectedDvi),
                               pixelClock := o.pixelClock(varMode))
      ensures LinkKept() && EdidKept() && ModeKept() && PhyKept() && events == old(events)
      ensures vic == old(vic) && previousNonVga == old(previousNonVga)
    {
      var hdmi := hpState == ConnectedHdmi;
      out := out.(dviMode := !(hdmi || hpState == ConnectedNoEdid));
      hdmiData := SetupParams(vic, hdmi, rgbOutEnable, edidCfg);
      out := out.(composer := AvComposer(varMode, hpState == ConnectedDvi), pixelClock := o.pixelClock(varMode));
    }

    /**
     * The second half of mxc_hdmi_setup, after the PHY: the AVI InfoFrame for
     * an HDMI sink, the packetiser, the CSC, the sampler and the overflow
     * interrupts. The CSC coefficients are written here whatever the depth,
     * whereas hdmi_video_csc writes them only for a depth it supports; the
     * parameters of mxc_hdmi_setup always carry depth 8, for which
     * VideoCsc is defined (Video.SetupPipeline), so the two agree on every
     * call the driver makes.
     */
    method ProgramStream(o: Oracles)
      requires Valid()
      modifies this, csc
      ensures Valid() && LinkKept() && EdidKept() && ModeKept() && events == old(events)
      ensures vic == old(vic) && previousNonVga == old(previousNonVga) && hdmiData == old(hdmiData)
      ensures phyEnabled == old(phyEnabled) && phyLog == old(phyLog)
      ensures out.dviMode == old(out.dviMode) && out.composer == old(out.composer) && out.pixelClock == old(out.pixelClock)
      ensures out.avi == if hpState == ConnectedHdmi
                         then Some(ConfigAvi(hdmiData, edidCfg.ceaUnderscan, AviNearest(varMode, fbi.modelist, o),
                                             GetRgbQuantRange(quantSetting, edidCfg.ceaRgbRangeSelectable)))
                         else old(out.avi)
      ensures out.packetizer == VideoPacketize(hdmiData.outFormat, hdmiData.colorDepth)
      ensures out.cscConfig == VideoCsc(hdmiData.inFormat, hdmiData.outFormat, hdmiData.colorDepth)
      ensures var k := CscChoice(hdmiData.inFormat, hdmiData.outFormat, hdmiData.colorimetry,
                                 IsColorSpaceConversion(hdmiData.inFormat, hdmiData.outFormat,
                                                        GetRgbQuantRange(quantSetting, edidCfg.ceaRgbRangeSelectable), vic));
              && out.cscScale == CscScale(k)
              && forall i, j :: 0 <= i < 3 && 0 <= j < 4 ==> csc[i, j] == CoeffTable(k)[i][j]
      ensures out.dataMap == DataMap(hdmiData.inFormat, hdmiData.colorDepth)
      ensures overflowIrq == (hpState == ConnectedHdmi)
    {
      var hdmi := hpState == ConnectedHdmi;
      var range := GetRgbQuantRange(quantSetting, edidCfg.ceaRgbRangeSelectable);
      if hdmi {
        out := out.(avi := Some(ConfigAvi(hdmiData, edidCfg.ceaUnderscan, AviNearest(varMode, fbi.modelist, o), range)));
      }
      out := out.(packetizer := VideoPacketize(hdmiData.outFormat, hdmiData.colorDepth),
                  cscConfig := VideoCsc(hdmiData.inFormat, hdmiData.outFormat, hdmiData.colorDepth));
      var scale := UpdateCscCoeffs(csc, hdmiData.inFormat, hdmiData.outFormat, hdmiData.colorimetry, range, vic);
      out := out.(cscScale := scale, dataMap := DataMap(hdmiData.inFormat, hdmiData.colorDepth));
      overflowIrq := hdmi;
    }

    /**
     * What mxc_hdmi_setup leaves, given the saved mode, PHY log, PHY flag and
     * AVI frame it started from: the VIC and the saved mode; the format
     * choices; DVI or HDMI mode, the composer and the pixel clock; the PHY,
     * two rounds of it unless gated; the AVI InfoFrame for an HDMI sink only;
     * the packetiser, the CSC configuration, table and scale, the data map;
     * and the overflow interrupts, on exactly for an HDMI sink.
     */
    predicate SetUp(o: Oracles, savedBefore: Mode, logBefore: seq<Phy.Step>, enabledBefore: bool, aviBefore: Option<Avi>)
      requires Valid()
      reads this`requestingVga, this`varMode, this`vic, this`previousNonVga, this`hpState, this`hdmiData, this`out,
            this`fbReg, this`blank, this`phyLog, this`phyEnabled, this`edidCfg, this`overflowIrq, fbi`modelist, csc
    {
      var range := GetRgbQuantRange(quantSetting, edidCfg.ceaRgbRangeSelectable);
      var hdmi := hpState == ConnectedHdmi;
      var k := CscChoice(hdmiData.inFormat, hdmiData.outFormat, hdmiData.colorimetry,
                         IsColorSpaceConversion(hdmiData.inFormat, hdmiData.outFormat, range, vic));
      && vic == SetupVic(requestingVga, varMode, fbi.modelist, o)
      && previousNonVga == (if requestingVga then savedBefore else varMode)
      && hdmiData == SetupParams(vic, hdmi, rgbOutEnable, edidCfg)
      && out.dviMode == !(hdmi || hpState == ConnectedNoEdid)
      && out.composer == AvComposer(varMode, hpState == ConnectedDvi)
      && out.pixelClock == o.pixelClock(varMode)
      && (if PhyGated(fbReg, hpState, blank) then phyLog == logBefore && phyEnabled == enabledBefore
          else phyLog == logBefore + PhyRounds(CscOnFor(hdmiData, range, hpState), out.pixelClock, board, 2) && phyEnabled)
      && out.avi == (if hdmi then Some(ConfigAvi(hdmiData, edidCfg.ceaUnderscan, AviNearest(varMode, fbi.modelist, o), range))
                     else aviBefore)
      && out.packetizer == VideoPacketize(hdmiData.outFormat, hdmiData.colorDepth)
      && out.cscConfig == VideoCsc(hdmiData.inFormat, hdmiData.outFormat, hdmiData.colorDepth)
      && out.cscScale == CscScale(k)
      && (forall i, j :: 0 <= i < 3 && 0 <= j < 4 ==> csc[i, j] == CoeffTable(k)[i][j])
      && out.dataMap == DataMap(hdmiData.inFormat, hdmiData.colorDepth)
      && overflowIrq == hdmi
    }

    /** mxc_hdmi_setup. */
    method Setup(o: Oracles, locked: (nat, nat) -> bool)
      requires Valid()
      modifies this, csc
      ensures Valid() && LinkKept() && EdidKept() && ModeKept() && events == old(events)
      ensures SetUp(o, old(previousNonVga), old(phyLog), old(phyEnabled), old(out.avi))
    {
      ChooseVic(o);
      overflowIrq := false;
      ProgramLink(o);
      PhyInit(locked);
      ProgramStream(o);
    }

    /** mxc_hdmi_notify_fb: the PHY is shut down before the framebuffer core is asked to apply fbi->var. */
    method NotifyFb()
      modifies this
      ensures LinkKept() && EdidKept() && ModeKept() && VideoKept()
      ensures !old(phyEnabled) ==> PhyKept()
      ensures old(phyEnabled) ==> !phyEnabled && !overflowIrq && phyLog == old(phyLog) + [Phy.Shutdown]
      ensures events == old(events) + [FbSetVar(varMode)]
    {
      PhyDisable();
      events := events + [FbSetVar(varMode)];
    }

    /** The same mode and the same EDID: the last non-VGA mode is set up again. */
    method SetupPrevious(o: Oracles, locked: (nat, nat) -> bool)
      requires Valid()
      modifies this, csc
      ensures Valid() && LinkKept() && EdidKept() && events == old(events)
      ensures dftModeSet == old(dftModeSet) && requestingVga == old(requestingVga) && varMode == old(previousNonVga)
      ensures SetUp(o, old(previousNonVga), old(phyLog), old(phyEnabled), old(out.avi))
    {
      varMode := previousNonVga;
      Setup(o, locked);
    }

    /** A new EDID: the mode m is handed to the frame-buffer layer, after the PHY is shut down. */
    method NotifyMode(m: Mode)
      modifies this
      ensures LinkKept() && EdidKept() && VideoKept()
      ensures dftModeSet == old(dftModeSet) && requestingVga == old(requestingVga)
      ensures varMode == m && events == old(events) + [FbSetVar(m)]
      ensures PhyShutDown()
    {
      varMode := m;
      NotifyFb();
    }

    /** The PHY is shut down if it was enabled, and left alone otherwise. */
    twostate predicate PhyShutDown()
      reads this
    {
      if old(phyEnabled) then !phyEnabled && !overflowIrq && phyLog == old(phyLog) + [Phy.Shutdown]
      else PhyKept()
    }

    /**
     * The tail of mxc_hdmi_set_mode once a nearest mode was found: unblank,
     * then set up directly, notify with the saved mode, notify with the
     * nearest mode, or keep everything; finally report the cable as plugged.
     */
    method ApplyMode(status: EdidStatus, same: bool, nearest: Mode, o: Oracles, locked: (nat, nat) -> bool)
      returns (action: SetModeAction)
      requires Valid()
      modifies this, csc
      ensures Valid() && LinkKept() && EdidKept()
      ensures dftModeSet == old(dftModeSet) && requestingVga == old(requestingVga)
      ensures action == ModeAction(true, same, status)
      ensures events == old(events) + ModeEvents(action, nearest, old(previousNonVga))
      ensures varMode == ModeAfter(action, nearest, old(previousNonVga), old(varMode))
      ensures action == SetupOnly ==> SetUp(o, old(previousNonVga), old(phyLog), old(phyEnabled), old(out.avi))
      ensures action == NotifySameMode || action == NotifyNewMode ==> VideoKept() && PhyShutDown()
      ensures action == KeepMode ==> VideoKept() && PhyKept()
    {
      ghost var e0 := events;
      Report(FbBlank(FB_BLANK_UNBLANK));
      action := Act(status, same, nearest, o, locked);
      Report(CableState(true));
      AppendThree(e0, [FbBlank(FB_BLANK_UNBLANK)], Notification(action, nearest, old(previousNonVga)), [CableState(true)]);
    }

    /** The four branches of mxc_hdmi_set_mode between the unblank and the cable report. */
    method Act(status: EdidStatus, same: bool, nearest: Mode, o: Oracles, locked: (nat, nat) -> bool)
      returns (action: SetModeAction)
      requires Valid()
      modifies this, csc
      ensures Valid() && LinkKept() && EdidKept()
      ensures dftModeSet == old(dftModeSet) && requestingVga == old(requestingVga)
      ensures action == ModeAction(true, same, status)
      ensures events == old(events) + Notification(action, nearest, old(previousNonVga))
      ensures varMode == ModeAfter(action, nearest, old(previousNonVga), old(varMode))
      ensures action == SetupOnly ==> SetUp(o, old(previousNonVga), old(phyLog), old(phyEnabled), old(out.avi))
      ensures action == NotifySameMode || action == NotifyNewMode ==> VideoKept() && PhyShutDown()
      ensures action == KeepMode ==> VideoKept() && PhyKept()
    {
      if same && status == Same {
        SetupPrevious(o, locked);
        action := SetupOnly;
      } else if same && status != Same {
        NotifyMode(previousNonVga);
        action := NotifySameMode;
      } else if status != Same {
        NotifyMode(nearest);
        action := NotifyNewMode;
      } else {
        action := KeepMode;
      }
    }

    /** A request to the framebuffer core or the audio side is recorded, and nothing else changes. */
    method Report(e: Event)
      modifies this`events
      ensures events == old(events) + [e]
    {
      events := events + [e];
    }

    /**
     * mxc_hdmi_set_mode: the first call asks for the default mode (and stops
     * requesting VGA), later calls for the last non-VGA mode; nothing happens
     * when the mode list has no nearest mode.
     */
    method SetMode(status: EdidStatus, o: Oracles, locked: (nat, nat) -> bool) returns (action: SetModeAction)
      requires Valid()
      modifies this, csc
      ensures Valid() && LinkKept() && EdidKept() && dftModeSet
      ensures requestingVga == (old(dftModeSet) && old(requestingVga))
      ensures var found := o.nearestMxc(Requested(old(dftModeSet), old(previousNonVga), defaultMode), fbi.modelist);
              && action == ModeAction(found.Some?, found.Some? && o.sameMode(Requested(old(dftModeSet), old(previousNonVga), defaultMode), found.value), status)
              && (found.Some? ==> events == old(events) + ModeEvents(action, found.value, old(previousNonVga))
                                  && varMode == ModeAfter(action, found.value, old(previousNonVga), old(varMode)))
      ensures action == NoMode ==> events == old(events) && varMode == old(varMode) && VideoKept() && PhyKept()
      ensures action == SetupOnly ==> SetUp(o, old(previousNonVga), old(phyLog), old(phyEnabled), old(out.avi))
      ensures action == NotifySameMode || action == NotifyNewMode ==> VideoKept() && PhyShutDown()
      ensures action == KeepMode ==> VideoKept() && PhyKept()
    {
      var m: Mode;
      if !dftModeSet {
        m := defaultMode;
        dftModeSet := true;
        requestingVga := false;
      } else {
        m := previousNonVga;
      }
      var mode := o.nearestMxc(m, fbi.modelist);
      if mode.None? {
        return NoMode;
      }
      action := ApplyMode(status, o.sameMode(m, mode.value), mode.value, o, locked);
    }

    /** mxc_hdmi_read_edid over one read: the bytes, the configuration and the mode database are replaced. */
    method ReadEdid(r: RawRead) returns (status: EdidStatus)
      modifies this, fbi
      ensures status == Classify(old(edid), r)
      ensures edid == r.edid && edidCfg == ReadCfg(r)
      ensures fresh(fbi.modedb) && fbi.modedb[..] == r.modedb && fbi.modelist == old(fbi.modelist)
      ensures LinkKept() && ModeKept() && VideoKept() && PhyKept() && events == old(events)
    {
      var previous := edid;
      edid := r.edid;
      edidCfg := ReadCfg(r);
      fbi.modedb := new Mode[|r.modedb|](i requires 0 <= i < |r.modedb| => r.modedb[i]);
      status := Classify(previous, r);
    }

    /** Step C of the cable-connected worker: the read, or Fail when EDID is ignored, and the single retry. */
    method ReadPhase(ignoreEdid: bool, first: RawRead, retry: RawRead) returns (status: EdidStatus)
      modifies this, fbi
      ensures status == WorkerStatus(ignoreEdid, old(edid), first, retry)
      ensures edidCfg == ReadsCfg(ignoreEdid, old(edidCfg), old(edid), first, retry)
      ensures edid == ReadsEdid(ignoreEdid, old(edid), first, retry)
      ensures status == Success ==>
                fresh(fbi.modedb)
                && fbi.modedb[..] == (if Retries(false, Classify(old(edid), first)) then retry.modedb else first.modedb)
      ensures fbi.modedb == old(fbi.modedb) || fresh(fbi.modedb)
      ensures fbi.modelist == old(fbi.modelist)
      ensures LinkKept() && ModeKept() && VideoKept() && PhyKept() && events == old(events)
    {
      if ignoreEdid {
        status := Fail;
      } else {
        status := ReadEdid(first);
      }
      if !ignoreEdid && (status == NoModes || status == Fail) {
        var retryStatus := ReadEdid(retry);
        if retryStatus != Same {
          status := retryStatus;
        }
      }
    }

    /** Steps D to F of the cable-connected worker: rebuild, keep, or default the mode list. */
    method Dispatch(status: EdidStatus, o: Oracles)
      requires ValidOracles(o)
      modifies this, fbi, fbi.modedb
      ensures edidCfg == DispatchCfg(status, old(edidCfg))
      ensures status == Success ==>
                fbi.modelist == Rebuild(old(fbi.modedb[..]), BuildEnv(edidCfg, enable3d, enableFract, o.toVic, o.cea)).list
      ensures status == Same ==> fbi.modelist == old(fbi.modelist)
      ensures status == Fail || status == NoModes ==> fbi.modelist == [varMode] + StandardCeaModes(o.cea)
      ensures LinkKept() && ModeKept() && VideoKept() && PhyKept() && events == old(events) && edid == old(edid)
    {
      match status {
        case Success =>
          RebuildModelist(fbi, BuildEnv(edidCfg, enable3d, enableFract, o.toVic, o.cea));
        case Same =>
        case Fail =>
          edidCfg := edidCfg.(hdmiCap := true);
          DefaultModelist(fbi, varMode, o.cea);
        case NoModes =>
          DefaultModelist(fbi, varMode, o.cea);
      }
    }

    /**
     * mxc_hdmi_cable_connected_worker: read (or ignore) the EDID, read once
     * more after Fail or NoModes, rebuild or default the mode list, settle the
     * link state on the HDMI capability, then set the mode.
     */
    method ConnectedWorker(ignoreEdid: bool, first: RawRead, retry: RawRead, o: Oracles, locked: (nat, nat) -> bool)
      returns (status: EdidStatus, action: SetModeAction)
      requires Valid() && ValidOracles(o)
      modifies this, csc, fbi, fbi.modedb
      ensures Valid() && dftModeSet
      ensures status == WorkerStatus(ignoreEdid, old(edid), first, retry)
      ensures edidCfg == DispatchCfg(status, ReadsCfg(ignoreEdid, old(edidCfg), old(edid), first, retry))
      ensures edid == ReadsEdid(ignoreEdid, old(edid), first, retry)
      ensures hpState == (if edidCfg.hdmiCap then ConnectedHdmi else ConnectedDvi)
      ensures plugEvent == (if edidCfg.hdmiCap then HDMI_IH_PHY_STAT0_HPD else HDMI_DVI_IH_STAT)
      ensures plugMask == (if edidCfg.hdmiCap then HDMI_PHY_HPD else HDMI_DVI_STAT)
      ensures status == Fail ==> hpState == ConnectedHdmi
      ensures status == Same ==> fbi.modelist == old(fbi.modelist)
      ensures status == Fail || status == NoModes ==> fbi.modelist == [old(varMode)] + StandardCeaModes(o.cea)
      ensures status == Success ==>
                fbi.modelist == Rebuild(if Retries(false, Classify(old(edid), first)) then retry.modedb else first.modedb,
                                        BuildEnv(edidCfg, enable3d, enableFract, o.toVic, o.cea)).list
      ensures var found := o.nearestMxc(Requested(old(dftModeSet), old(previousNonVga), defaultMode), fbi.modelist);
              && action == ModeAction(found.Some?, found.Some? && o.sameMode(Requested(old(dftModeSet), old(previousNonVga), defaultMode), found.value), status)
              && (found.Some? ==> events == old(events) + ModeEvents(action, found.value, old(previousNonVga))
                                  && varMode == ModeAfter(action, found.value, old(previousNonVga), old(varMode)))
      ensures requestingVga == (old(dftModeSet) && old(requestingVga))
      ensures fbReg == old(fbReg) && blank == old(blank) && hpd == old(hpd)
      ensures action == NoMode ==> events == old(events) && varMode == old(varMode) && VideoKept() && PhyKept()
      ensures action == SetupOnly ==> SetUp(o, old(previousNonVga), old(phyLog), old(phyEnabled), old(out.avi))
      ensures action == NotifySameMode || action == NotifyNewMode ==> VideoKept() && PhyShutDown()
      ensures action == KeepMode ==> VideoKept() && PhyKept()
    {
      status := Connect(ignoreEdid, first, retry, o);
      action := SetMode(status, o, locked);
    }

    /** Steps C to F of the cable-connected worker: the reads, then the mode list. */
    method ReadAndDispatch(ignoreEdid: bool, first: RawRead, retry: RawRead, o: Oracles) returns (status: EdidStatus)
      requires ValidOracles(o)
      modifies this, fbi, fbi.modedb
      ensures status == WorkerStatus(ignoreEdid, old(edid), first, retry)
      ensures edidCfg == DispatchCfg(status, ReadsCfg(ignoreEdid, old(edidCfg), old(edid), first, retry))
      ensures edid == ReadsEdid(ignoreEdid, old(edid), first, retry)
      ensures status == Same ==> fbi.modelist == old(fbi.modelist)
      ensures status == Fail || status == NoModes ==> fbi.modelist == [old(varMode)] + StandardCeaModes(o.cea)
      ensures status == Success ==>
                fbi.modelist == Rebuild(if Retries(false, Classify(old(edid), first)) then retry.modedb else first.modedb,
                                        BuildEnv(edidCfg, enable3d, enableFract, o.toVic, o.cea)).list
      ensures LinkKept() && ModeKept() && VideoKept() && PhyKept() && events == old(events)
    {
      status := ReadPhase(ignoreEdid, first, retry);
      Dispatch(status, o);
    }

    /** Steps C to G of the cable-connected worker: read, dispatch, then the link state follows hdmi_cap. */
    method Connect(ignoreEdid: bool, first: RawRead, retry: RawRead, o: Oracles) returns (status: EdidStatus)
      requires ValidOracles(o)
      modifies this, fbi, fbi.modedb
      ensures status == WorkerStatus(ignoreEdid, old(edid), first, retry)
      ensures edidCfg == DispatchCfg(status, ReadsCfg(ignoreEdid, old(edidCfg), old(edid), first, retry))
      ensures edid == ReadsEdid(ignoreEdid, old(edid), first, retry)
      ensures hpState == (if edidCfg.hdmiCap then ConnectedHdmi else ConnectedDvi)
      ensures plugEvent == (if edidCfg.hdmiCap then HDMI_IH_PHY_STAT0_HPD else HDMI_DVI_IH_STAT)
      ensures plugMask == (if edidCfg.hdmiCap then HDMI_PHY_HPD else HDMI_DVI_STAT)
      ensures status == Same ==> fbi.modelist == old(fbi.modelist)
      ensures status == Fail || status == NoModes ==> fbi.modelist == [old(varMode)] + StandardCeaModes(o.cea)
      ensures status == Success ==>
                fbi.modelist == Rebuild(if Retries(false, Classify(old(edid), first)) then retry.modedb else first.modedb,
                                        BuildEnv(edidCfg, enable3d, enableFract, o.toVic, o.cea)).list
      ensures fbReg == old(fbReg) && blank == old(blank) && hpd == old(hpd)
      ensures ModeKept() && VideoKept() && PhyKept() && events == old(events)
    {
      status := ReadAndDispatch(ignoreEdid, first, retry, o);
      FollowCap();
    }

    /** Step G of the cable-connected worker: the link state and the HPD bits listened for follow hdmi_cap. */
    method FollowCap()
      modifies this`hpState, this`plugEvent, this`plugMask
      ensures hpState == (if edidCfg.hdmiCap then ConnectedHdmi else ConnectedDvi)
      ensures plugEvent == (if edidCfg.hdmiCap then HDMI_IH_PHY_STAT0_HPD else HDMI_DVI_IH_STAT)
      ensures plugMask == (if edidCfg.hdmiCap then HDMI_PHY_HPD else HDMI_DVI_STAT)
    {
      hpState := if edidCfg.hdmiCap then ConnectedHdmi else ConnectedDvi;
      plugEvent := if edidCfg.hdmiCap then HDMI_IH_PHY_STAT0_HPD else HDMI_DVI_IH_STAT;
      plugMask := if edidCfg.hdmiCap then HDMI_PHY_HPD else HDMI_DVI_STAT;
    }

    /**
     * The hotplug half of mxc_hdmi_hotplug: a status with one of the
     * listened-for event bits mutes the event, masks the HPD bits and, once
     * the driver is initialised, arms the jitter timer with the debounce
     * delay; any other status changes nothing.
     */
    method HotplugIrq(intrStat: bv8, inited: bool) returns (delayMs: Option<nat>)
      modifies this`hpd
      ensures intrStat & plugEvent == 0 ==> hpd == old(hpd) && delayMs == None
      ensures intrStat & plugEvent != 0 ==>
                hpd == Muted(old(hpd), plugMask, plugEvent)
                && delayMs == (if inited then Some(DebounceMs(dftModeSet)) else None)
    {
      delayMs := None;
      if intrStat & plugEvent != 0 {
        hpd := Muted(hpd, plugMask, plugEvent);
        if inited {
          delayMs := Some(if !dftModeSet then 100 else 1000);
        }
      }
    }

    /**
     * mxc_hdmi_fb_registered (FB_EVENT_FB_REGISTERED): the first time only,
     * the display is powered down, the HPD bits are unmasked and the event
     * unmuted, and the framebuffer counts as registered.
     */
    method FbRegistered()
      modifies this
      ensures old(fbReg) ==> hpd == old(hpd) && events == old(events)
      ensures !old(fbReg) ==> hpd == old(hpd).(mask0 := !plugMask, mute0 := !plugEvent)
                              && events == old(events) + [FbBlank(FB_BLANK_POWERDOWN)]
      ensures fbReg && hpState == old(hpState) && plugEvent == old(plugEvent) && plugMask == old(plugMask) && blank == old(blank)
      ensures EdidKept() && ModeKept() && VideoKept() && PhyKept()
    {
      if fbReg {
        return;
      }
      events := events + [FbBlank(FB_BLANK_POWERDOWN)];
      hpd := hpd.(mask0 := !plugMask, mute0 := !plugEvent);
      fbReg := true;
    }

    /** FB_EVENT_FB_UNREGISTERED: the framebuffer no longer counts as registered. */
    method FbUnregistered()
      modifies this`fbReg
      ensures !fbReg
    {
      fbReg := false;
    }

    /** FB_EVENT_MODE_CHANGE: the new mode is set up, but only once the framebuffer is registered. */
    method FbModeChange(o: Oracles, locked: (nat, nat) -> bool)
      requires Valid()
      modifies this, csc
      ensures Valid() && LinkKept() && EdidKept() && ModeKept() && events == old(events)
      ensures old(fbReg) ==> SetUp(o, old(previousNonVga), old(phyLog), old(phyEnabled), old(out.avi))
      ensures !old(fbReg) ==> VideoKept() && PhyKept()
    {
      if fbReg {
        Setup(o, locked);
      }
    }

    /**
     * FB_EVENT_BLANK of mxc_hdmi_fb_event: ignored while unregistered or
     * unplugged and when the level does not change. Unblanking re-arms the
     * HPD interrupt and, when the HDMI core reports a usable state
     * (`stateOk`, check_hdmi_state), sets the mode up again; any other new
     * level shuts the PHY down and, for a DVI sink, mutes the HPD interrupt
     * and selects DVI mode (hdmi_set_dvi_mode(1)).
     */
    method FbBlankEvent(level: int, stateOk: bool, o: Oracles, locked: (nat, nat) -> bool)
      requires Valid()
      modifies this, csc
      ensures Valid() && hpState == old(hpState) && plugEvent == old(plugEvent) && plugMask == old(plugMask) && fbReg == old(fbReg)
      ensures EdidKept() && ModeKept() && events == old(events)
      ensures !BlankChanges(old(fbReg), old(hpState), old(blank), level) ==>
                blank == old(blank) && hpd == old(hpd) && VideoKept() && PhyKept()
      ensures BlankChanges(old(fbReg), old(hpState), old(blank), level) && level == FB_BLANK_UNBLANK ==>
                blank == level && hpd == Rearmed(old(hpd), plugMask, plugEvent)
                && (stateOk ==> SetUp(o, old(previousNonVga), old(phyLog), old(phyEnabled), old(out.avi)))
                && (!stateOk ==> VideoKept() && PhyKept())
      ensures BlankChanges(old(fbReg), old(hpState), old(blank), level) && level != FB_BLANK_UNBLANK ==>
                blank == level && PhyShutDown()
                && vic == old(vic) && previousNonVga == old(previousNonVga) && hdmiData == old(hdmiData)
                && out == old(out).(dviMode := hpState == ConnectedDvi || old(out.dviMode))
                && hpd == (if hpState == ConnectedDvi then Muted(old(hpd), plugMask, plugEvent) else old(hpd))
    {
      if !fbReg || hpState == Disconnected || level == blank {
        return;
      }
      if level == FB_BLANK_UNBLANK {
        Unblank(stateOk, o, locked);
      } else {
        BlankOff(level);
      }
    }

    /** The unblank branch of FB_EVENT_BLANK. */
    method Unblank(stateOk: bool, o: Oracles, locked: (nat, nat) -> bool)
      requires Valid()
      modifies this, csc
      ensures Valid() && hpState == old(hpState) && plugEvent == old(plugEvent) && plugMask == old(plugMask) && fbReg == old(fbReg)
      ensures EdidKept() && ModeKept() && events == old(events)
      ensures blank == FB_BLANK_UNBLANK && hpd == Rearmed(old(hpd), plugMask, plugEvent)
      ensures stateOk ==> SetUp(o, old(previousNonVga), old(phyLog), old(phyEnabled), old(out.avi))
      ensures !stateOk ==> VideoKept() && PhyKept()
    {
      Rearm(FB_BLANK_UNBLANK);
      if stateOk {
        Setup(o, locked);
      }
    }

    /** The new level is recorded and the HPD interrupt re-armed. */
    method Rearm(level: int)
      modifies this`blank, this`hpd
      ensures blank == level && hpd == Rearmed(old(hpd), plugMask, plugEvent)
    {
      blank := level;
      hpd := Rearmed(hpd, plugMask, plugEvent);
    }

    /** The blank branch of FB_EVENT_BLANK: for a DVI sink the HPD interrupt is muted and DVI mode selected. */
    method BlankOff(level: int)
      modifies this
      ensures hpState == old(hpState) && plugEvent == old(plugEvent) && plugMask == old(plugMask) && fbReg == old(fbReg)
      ensures EdidKept() && ModeKept() && PhyShutDown() && events == old(events)
      ensures vic == old(vic) && previousNonVga == old(previousNonVga) && hdmiData == old(hdmiData)
      ensures out == old(out).(dviMode := hpState == ConnectedDvi || old(out.dviMode))
      ensures blank == level
      ensures hpd == (if hpState == ConnectedDvi then Muted(old(hpd), plugMask, plugEvent) else old(hpd))
    {
      PhyDisable();
      if hpState == ConnectedDvi {
        hpd := Muted(hpd, plugMask, plugEvent);
        out := out.(dviMode := true);
      }
      blank := level;
    }

    /** mxc_hdmi_cable_connected: the worker is scheduled unless an EDID file is pending after the default mode was set. */
    method CableConnected(hasExtEdid: bool) returns (scheduleWorker: bool)
      modifies this
      ensures hpState == ConnectedNoEdid
      ensures scheduleWorker <==> !hasExtEdid || !dftModeSet
      ensures plugEvent == old(plugEvent) && plugMask == old(plugMask) && fbReg == old(fbReg) && blank == old(blank) && hpd == old(hpd)
      ensures EdidKept() && ModeKept() && VideoKept() && PhyKept() && events == old(events)
    {
      hpState := ConnectedNoEdid;
      scheduleWorker := !hasExtEdid || !dftModeSet;
    }

    /** mxc_hdmi_cable_disconnected: PHY off, overflow interrupts off, display powered down, state Disconnected. */
    method CableDisconnected()
      modifies this
      ensures hpState == Disconnected && !overflowIrq
      ensures old(phyEnabled) ==> !phyEnabled && phyLog == old(phyLog) + [Phy.Shutdown]
      ensures !old(phyEnabled) ==> phyEnabled == old(phyEnabled) && phyLog == old(phyLog)
      ensures events == old(events) + [FbBlank(FB_BLANK_POWERDOWN)]
      ensures plugEvent == old(plugEvent) && plugMask == old(plugMask) && fbReg == old(fbReg) && blank == old(blank) && hpd == old(hpd)
      ensures EdidKept() && ModeKept() && VideoKept()
    {
      PhyDisable();
      overflowIrq := false;
      events := events + [FbBlank(FB_BLANK_POWERDOWN)];
      hpState := Disconnected;
    }

    /**
     * hotplug_worker: flip the polarity, handle the plug-in or plug-out, then
     * unmask the HPD interrupt and unmute its event.
     */
    method HotplugWorker(hasExtEdid: bool) returns (plugin: bool, scheduleWorker: bool)
      modifies this
      ensures plugin <==> PlugIn(old(hpd.pol0), plugMask)
      ensures hpd == Rearmed(old(hpd).(pol0 := FlipPolarity(plugMask, old(hpd.pol0))), plugMask, plugEvent)
      ensures plugEvent == old(plugEvent) && plugMask == old(plugMask)
      ensures plugin ==> hpState == ConnectedNoEdid && (scheduleWorker <==> !hasExtEdid || !dftModeSet)
                         && events == old(events) && PhyKept()
      ensures !plugin ==> hpState == Disconnected && !scheduleWorker && !overflowIrq
                          && events == old(events) + [CableState(false), FbBlank(FB_BLANK_POWERDOWN)]
      ensures !plugin && old(phyEnabled) ==> !phyEnabled && phyLog == old(phyLog) + [Phy.Shutdown]
      ensures !plugin && !old(phyEnabled) ==> phyEnabled == old(phyEnabled) && phyLog == old(phyLog)
      ensures fbReg == old(fbReg) && blank == old(blank)
      ensures EdidKept() && ModeKept() && VideoKept()
    {
      var pol0 := hpd.pol0;
      hpd := hpd.(pol0 := FlipPolarity(plugMask, pol0));
      ghost var flipped := hpd;
      plugin := PlugIn(pol0, plugMask);
      if plugin {
        scheduleWorker := CableConnected(hasExtEdid);
      } else {
        events := events + [CableState(false)];
        CableDisconnected();
        scheduleWorker := false;
      }
      assert hpd == flipped;
      hpd := Rearmed(hpd, plugMask, plugEvent);
    }
  }
}
