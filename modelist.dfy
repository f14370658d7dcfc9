/**
 * The mode-list builder of mxc_hdmi_edid_rebuild_modelist: four passes over
 * the EDID mode database, each filtered by a flag mask, that normalise each
 * admitted entry in place, drop duplicates and append the rest, each new
 * entry followed by its fractional-refresh and stereoscopic copies.
 *
 * The rebuild is specified by Visit / BuildUpTo / Rebuild on values, and
 * RebuildModelist is the imperative loop nest over the FbInfo object proved
 * to produce exactly that list and that rewritten database.
 */
module ModeList {
  import opened FbMode
  import opened Edid

  /** Entries in mxc_cea_mode, indexed by CEA-861 VIC. */
  const MXC_CEA_MODES: nat := 64

  /** One row of stereo_mandatory_modes: a 2D VIC and the 3D layout HDMI 1.4 makes mandatory for it. */
  datatype StereoMandatory = StereoMandatory(vic: nat, vmode: bv32)

  const StereoMandatoryModes: seq<StereoMandatory> := [
    StereoMandatory(4, FB_VMODE_3D_TOP_BOTTOM),
    StereoMandatory(32, FB_VMODE_3D_TOP_BOTTOM),
    StereoMandatory(4, FB_VMODE_3D_FRAME_PACK),
    StereoMandatory(32, FB_VMODE_3D_FRAME_PACK),
    StereoMandatory(5, FB_VMODE_3D_SBS_HALF),
    StereoMandatory(19, FB_VMODE_3D_TOP_BOTTOM),
    StereoMandatory(19, FB_VMODE_3D_FRAME_PACK),
    StereoMandatory(20, FB_VMODE_3D_SBS_HALF)
  ]

  /** The pass mask that admits every entry (~0). */
  const ALL_MODES: bv32 := 0xFFFF_FFFF

  /** The flag masks of the passes, terminated by a 0 sentinel. */
  const PassMasks: seq<bv32> := [
    FB_MODE_IS_FIRST,
    !(FB_MODE_IS_DETAILED | FB_MODE_IS_FIRST),
    FB_MODE_IS_DETAILED,
    ALL_MODES,
    0
  ]

  /**
   * What the rebuild reads besides the mode database: the sink's EDID
   * configuration, the driver's enable_3d / enable_fract settings, the VIC
   * lookup mxc_edid_mode_to_vic (not part of this model, hence a parameter)
   * and the mxc_cea_mode table.
   */
  datatype BuildEnv = BuildEnv(cfg: EdidCfg, enable3d: bool, enableFract: bool, toVic: Mode -> nat, cea: seq<Mode>)

  predicate ValidEnv(env: BuildEnv)
  {
    |env.cea| == MXC_CEA_MODES
  }

  /** Bit i of a non-negative integer. */
  predicate TestBit(x: nat, i: nat)
    decreases i
  {
    if i == 0 then x % 2 == 1 else TestBit(x / 2, i - 1)
  }

  // ---------------------------------------------------------------------
  // Filters of one pass
  // ---------------------------------------------------------------------

  /** For an HDMI sink, an entry without any of the pass's flag bits waits for another pass; the ~0 pass takes all. */
  predicate FailsPassMask(hdmiCap: bool, mask: bv32, flag: bv32)
  {
    hdmiCap && mask != ALL_MODES && flag & mask == 0
  }

  /**
   * For an HDMI sink, an entry is dropped when it has no VIC and a non-zero
   * flag without FB_MODE_IS_DETAILED, or when it is a VESA mode.
   */
  predicate RejectedForHdmi(hdmiCap: bool, flag: bv32, vic: nat)
  {
    hdmiCap && ((!(HasBits(flag, FB_MODE_IS_DETAILED) || flag == 0) && vic == 0) || HasBits(flag, FB_MODE_IS_VESA))
  }

  /** Entries without a width or a refresh rate are dropped for every sink. */
  predicate Blank(m: Mode)
  {
    m.xres == 0 || m.refresh == 0
  }

  /** Some entry of the list has the deduplication key of m. */
  predicate InList(list: seq<Mode>, m: Mode)
  {
    exists j :: 0 <= j < |list| && SameKey(list[j], m)
  }

  // ---------------------------------------------------------------------
  // Copies appended after a new entry
  // ---------------------------------------------------------------------

  /** A stereoscopic copy: flag FB_MODE_IS_3D, the layout or-ed into vmode. */
  function Copy3d(src: Mode, layout: bv32): Mode
  {
    WithFlags(src, FB_MODE_IS_3D, layout)
  }

  /** The fractional-refresh copy of a new entry, when it has a VIC and refresh 24, 30 or 60. */
  function FractCopies(n: Mode, vic: nat, env: BuildEnv): seq<Mode>
  {
    if vic != 0 && env.enableFract && (n.refresh == 24 || n.refresh == 30 || n.refresh == 60)
    then [WithFlags(n, n.flag, FB_VMODE_FRACTIONAL)]
    else []
  }

  /** The mandatory copies the rows of `table` give VIC `vic`, built from mxc_cea_mode[vic]. */
  function MandatoryCopies(table: seq<StereoMandatory>, vic: nat, cea: seq<Mode>): seq<Mode>
    requires forall j :: 0 <= j < |table| ==> table[j].vic < |cea|
  {
    if table == [] then []
    else MandatoryCopies(table[..|table| - 1], vic, cea) + RowCopies(table[|table| - 1], vic, cea)
  }

  /** The copy one table row gives VIC `vic`: mxc_cea_mode[vic] in the row's layout, when the row is for that VIC. */
  function RowCopies(row: StereoMandatory, vic: nat, cea: seq<Mode>): seq<Mode>
    requires row.vic < |cea|
  {
    if row.vic == vic then [Copy3d(cea[vic], row.vmode)] else []
  }

  /**
   * Whether the sink's 3D_Structure_ALL applies to the nvic-th VIC:
   * 3D_Multi_present 2 selects VICs through 3D_MASK_ALL (bit nvic - 1), 1
   * selects the first sixteen.
   */
  predicate MultiApplies(cfg: EdidCfg, nvic: nat)
  {
    (cfg.hdmi3dMultiPresent == 2 && nvic >= 1 && TestBit(cfg.hdmi3dMaskAll, nvic - 1)) ||
    (cfg.hdmi3dMultiPresent == 1 && nvic <= 16)
  }

  /** A copy of n in the given layout when the condition holds. */
  function CopyIf(c: bool, n: Mode, layout: bv32): seq<Mode>
  {
    if c then [Copy3d(n, layout)] else []
  }

  /**
   * The copies the 3D_Structure_ALL tests of the rebuild make as written:
   * bit 0 frame packing, bits 1-2 (mask 0x6) side-by-side full, bit 6
   * top-and-bottom, bit 8 side-by-side half. In 3D_Structure_ALL (HDMI 1.4a
   * section 8.3.2) bits 1 and 2 are field and line alternative and
   * side-by-side full is bit 3, the bit of the structure code 3 that the
   * per-VIC list maps to side-by-side full.
   */
  function StructAllCopiesAsWritten(n: Mode, structAll: nat): seq<Mode>
  {
    CopyIf(TestBit(structAll, 0), n, FB_VMODE_3D_FRAME_PACK) +
    CopyIf(TestBit(structAll, 1) || TestBit(structAll, 2), n, FB_VMODE_3D_SBS_FULL) +
    CopyIf(TestBit(structAll, 6), n, FB_VMODE_3D_TOP_BOTTOM) +
    CopyIf(TestBit(structAll, 8), n, FB_VMODE_3D_SBS_HALF)
  }

  /**
   * The copies 3D_Structure_ALL asks for, with side-by-side full tested at
   * bit 3: bit s gives the layout the per-VIC list gives structure code s.
   */
  function StructAllCopies(n: Mode, structAll: nat): seq<Mode>
  {
    CopyIf(TestBit(structAll, 0), n, FB_VMODE_3D_FRAME_PACK) +
    CopyIf(TestBit(structAll, 3), n, FB_VMODE_3D_SBS_FULL) +
    CopyIf(TestBit(structAll, 6), n, FB_VMODE_3D_TOP_BOTTOM) +
    CopyIf(TestBit(structAll, 8), n, FB_VMODE_3D_SBS_HALF)
  }

  /** The 3D layout a 3D_Structure code of the VSDB 3D list names, if the builder knows it. */
  function LayoutFor(struct3d: nat): (r: bv32)
  {
    if struct3d == 0 then FB_VMODE_3D_FRAME_PACK
    else if struct3d == 3 then FB_VMODE_3D_SBS_FULL
    else if struct3d == 6 then FB_VMODE_3D_TOP_BOTTOM
    else if struct3d == 8 then FB_VMODE_3D_SBS_HALF
    else 0
  }

  predicate KnownStructure(struct3d: nat)
  {
    struct3d == 0 || struct3d == 3 || struct3d == 6 || struct3d == 8
  }

  /** The copies the VSDB 3D list asks for the nvic-th VIC. */
  function FormatCopies(n: Mode, formats: seq<Format3d>, nvic: nat): seq<Mode>
  {
    if formats == [] then []
    else
      var f := formats[|formats| - 1];
      FormatCopies(n, formats[..|formats| - 1], nvic) +
        (if f.vicOrder2d == nvic - 1 && KnownStructure(f.struct3d) then [Copy3d(n, LayoutFor(f.struct3d))] else [])
  }

  /** All stereoscopic copies of a new entry; none unless enable_3d and hdmi_3d_present. */
  function Copies3d(n: Mode, vic: nat, nvic: nat, env: BuildEnv): seq<Mode>
    requires ValidEnv(env)
  {
    if !env.enable3d || !env.cfg.hdmi3dPresent then []
    else
      StereoVicsInRange();
      MandatoryCopies(StereoMandatoryModes, vic, env.cea) +
      (if MultiApplies(env.cfg, nvic) then StructAllCopies(n, env.cfg.hdmi3dStructAll) else []) +
      FormatCopies(n, env.cfg.hdmi3dFormats, nvic)
  }

  function Extras(n: Mode, vic: nat, nvic: nat, env: BuildEnv): seq<Mode>
    requires ValidEnv(env)
  {
    FractCopies(n, vic, env) + Copies3d(n, vic, nvic, env)
  }

  lemma StereoVicsInRange()
    ensures forall j :: 0 <= j < |StereoMandatoryModes| ==> StereoMandatoryModes[j].vic < MXC_CEA_MODES
  {
  }

  // ---------------------------------------------------------------------
  // The rebuild, on values
  // ---------------------------------------------------------------------

  /** The state of the rebuild: the list so far, the (partly rewritten) mode database, the VIC count. */
  datatype Build = Build(list: seq<Mode>, db: seq<Mode>, nvic: nat)

  /** One iteration of the inner loop: entry i of the database in pass k. */
  function Visit(b: Build, k: nat, i: nat, env: BuildEnv): (r: Build)
    requires ValidEnv(env) && k < 4 && i < |b.db|
    ensures |r.db| == |b.db|
  {
    var m := b.db[i];
    if FailsPassMask(env.cfg.hdmiCap, PassMasks[k], m.flag) then b
    else
      var vic := env.toVic(m);
      var nvic := if vic != 0 then b.nvic + 1 else b.nvic;
      if RejectedForHdmi(env.cfg.hdmiCap, m.flag, vic) || Blank(m) then b.(nvic := nvic)
      else
        var n := Normalise(m);
        var db := b.db[i := n];
        if InList(b.list, n) then Build(b.list, db, nvic)
        else Build(b.list + [n] + Extras(n, vic, nvic, env), db, nvic)
  }

  /** The state after pass k has visited entries 0 .. i-1. */
  function BuildUpTo(db0: seq<Mode>, env: BuildEnv, k: nat, i: nat): (b: Build)
    requires ValidEnv(env) && k < 4 && i <= |db0|
    ensures |b.db| == |db0|
    decreases k, i
  {
    if i == 0 then
      if k == 0 then Build([VgaMode], db0, 0) else BuildUpTo(db0, env, k - 1, |db0|)
    else
      Visit(BuildUpTo(db0, env, k, i - 1), k, i - 1, env)
  }

  /** The list and database after all four passes. */
  function Rebuild(db0: seq<Mode>, env: BuildEnv): Build
    requires ValidEnv(env)
  {
    BuildUpTo(db0, env, 3, |db0|)
  }

  // ---------------------------------------------------------------------
  // The rebuild, in place
  // ---------------------------------------------------------------------

  /** The framebuffer's mode list and the EDID mode database it is rebuilt from. */
  class FbInfo {
    var modelist: seq<Mode>
    var modedb: array<Mode>

    constructor (db: seq<Mode>)
      ensures modelist == [] && modedb[..] == db && fresh(modedb)
    {
      modelist := [];
      modedb := new Mode[|db|](i requires 0 <= i < |db| => db[i]);
    }
  }

  /** mxc_fb_add_videomode: append a copy of src with a new flag and extra vmode bits. */
  method AddVideomode(fbi: FbInfo, src: Mode, newFlag: bv32, modVmode: bv32)
    modifies fbi
    ensures fbi.modedb == old(fbi.modedb)
    ensures fbi.modelist == old(fbi.modelist) + [WithFlags(src, newFlag, modVmode)]
  {
    var mode := src;
    mode := mode.(flag := newFlag, vmode := mode.vmode | modVmode);
    fbi.modelist := fbi.modelist + [mode];
  }

  /** mxc_fb_check_existing: walk the list for an entry with m's key. */
  method CheckExisting(m: Mode, list: seq<Mode>) returns (found: bool)
    ensures found <==> InList(list, m)
  {
    var p := 0;
    while p < |list|
      invariant 0 <= p <= |list|
      invariant forall j :: 0 <= j < p ==> !SameKey(list[j], m)
    {
      if SameKey(list[p], m) {
        return true;
      }
      p := p + 1;
    }
    return false;
  }

  /** The loop over stereo_mandatory_modes for one VIC. */
  method AddMandatory3d(fbi: FbInfo, vic: nat, cea: seq<Mode>)
    requires |cea| == MXC_CEA_MODES
    modifies fbi
    ensures fbi.modedb == old(fbi.modedb)
    ensures fbi.modelist == old(fbi.modelist) + MandatoryCopies(StereoMandatoryModes, vic, cea)
  {
    StereoVicsInRange();
    for j := 0 to |StereoMandatoryModes|
      invariant fbi.modedb == old(fbi.modedb)
      invariant fbi.modelist == old(fbi.modelist) + MandatoryCopies(StereoMandatoryModes[..j], vic, cea)
    {
      ghost var before := fbi.modelist;
      MandatoryCopiesStep(StereoMandatoryModes, j, vic, cea);
      if StereoMandatoryModes[j].vic == vic {
        AddVideomode(fbi, cea[vic], FB_MODE_IS_3D, StereoMandatoryModes[j].vmode);
      }
      assert fbi.modelist == before + RowCopies(StereoMandatoryModes[j], vic, cea);
      AppendTwo(old(fbi.modelist), MandatoryCopies(StereoMandatoryModes[..j], vic, cea),
                RowCopies(StereoMandatoryModes[j], vic, cea));
    }
    assert StereoMandatoryModes[..|StereoMandatoryModes|] == StereoMandatoryModes;
  }

  /** The loop over the VSDB 3D list for the nvic-th VIC. */
  method AddFormat3d(fbi: FbInfo, mode: Mode, formats: seq<Format3d>, nvic: nat)
    modifies fbi
    ensures fbi.modedb == old(fbi.modedb)
    ensures fbi.modelist == old(fbi.modelist) + FormatCopies(mode, formats, nvic)
  {
    for j := 0 to |formats|
      invariant fbi.modedb == old(fbi.modedb)
      invariant fbi.modelist == old(fbi.modelist) + FormatCopies(mode, formats[..j], nvic)
    {
      assert formats[..j + 1][..j] == formats[..j];
      if formats[j].vicOrder2d == nvic - 1 {
        var s := formats[j].struct3d;
        if s == 0 {
          AddVideomode(fbi, mode, FB_MODE_IS_3D, FB_VMODE_3D_FRAME_PACK);
        }
        if s == 3 {
          AddVideomode(fbi, mode, FB_MODE_IS_3D, FB_VMODE_3D_SBS_FULL);
        }
        if s == 6 {
          AddVideomode(fbi, mode, FB_MODE_IS_3D, FB_VMODE_3D_TOP_BOTTOM);
        }
        if s == 8 {
          AddVideomode(fbi, mode, FB_MODE_IS_3D, FB_VMODE_3D_SBS_HALF);
        }
      }
    }
    assert formats[..|formats|] == formats;
  }

  /** The stereoscopic copies of a newly appended entry. */
  method Add3dCopies(fbi: FbInfo, mode: Mode, vic: nat, nvic: nat, env: BuildEnv)
    requires ValidEnv(env) && env.enable3d && env.cfg.hdmi3dPresent
    modifies fbi
    ensures fbi.modedb == old(fbi.modedb)
    ensures fbi.modelist == old(fbi.modelist) + Copies3d(mode, vic, nvic, env)
  {
    ghost var a := MandatoryCopies(StereoMandatoryModes, vic, env.cea);
    ghost var b := if MultiApplies(env.cfg, nvic) then StructAllCopies(mode, env.cfg.hdmi3dStructAll) else [];
    ghost var c := FormatCopies(mode, env.cfg.hdmi3dFormats, nvic);
    ghost var l0 := fbi.modelist;
    AddMandatory3d(fbi, vic, env.cea);
    if MultiApplies(env.cfg, nvic) {
      AddStructAll3d(fbi, mode, env.cfg.hdmi3dStructAll);
    }
    AddFormat3d(fbi, mode, env.cfg.hdmi3dFormats, nvic);
    assert fbi.modelist == l0 + a + b + c;
    AppendThree(l0, a, b, c);
  }

  /** Appending piece by piece is appending the pieces joined. */
  lemma AppendTwo<T>(l: seq<T>, a: seq<T>, b: seq<T>)
    ensures l + a + b == l + (a + b)
  {
  }

  lemma AppendThree<T>(l: seq<T>, a: seq<T>, b: seq<T>, c: seq<T>)
    ensures l + a + b + c == l + (a + b + c)
  {
  }

  lemma AppendFour<T>(l: seq<T>, a: seq<T>, b: seq<T>, c: seq<T>, d: seq<T>)
    ensures l + a + b + c + d == l + (a + b + c + d)
  {
  }

  /**
   * The copies 3D_Structure_ALL asks for, appended in bit order, with
   * side-by-side full tested at bit 3 where the driver tests mask 0x6
   * (StructAllCopiesAsWritten).
   */
  method AddStructAll3d(fbi: FbInfo, mode: Mode, s: nat)
    modifies fbi
    ensures fbi.modedb == old(fbi.modedb)
    ensures fbi.modelist == old(fbi.modelist) + StructAllCopies(mode, s)
  {
    ghost var l0 := fbi.modelist;
    ghost var c0 := CopyIf(TestBit(s, 0), mode, FB_VMODE_3D_FRAME_PACK);
    ghost var c1 := CopyIf(TestBit(s, 3), mode, FB_VMODE_3D_SBS_FULL);
    ghost var c2 := CopyIf(TestBit(s, 6), mode, FB_VMODE_3D_TOP_BOTTOM);
    ghost var c3 := CopyIf(TestBit(s, 8), mode, FB_VMODE_3D_SBS_HALF);
    if TestBit(s, 0) {
      AddVideomode(fbi, mode, FB_MODE_IS_3D, FB_VMODE_3D_FRAME_PACK);
    }
    if TestBit(s, 3) {
      AddVideomode(fbi, mode, FB_MODE_IS_3D, FB_VMODE_3D_SBS_FULL);
    }
    if TestBit(s, 6) {
      AddVideomode(fbi, mode, FB_MODE_IS_3D, FB_VMODE_3D_TOP_BOTTOM);
    }
    if TestBit(s, 8) {
      AddVideomode(fbi, mode, FB_MODE_IS_3D, FB_VMODE_3D_SBS_HALF);
    }
    assert fbi.modelist == l0 + c0 + c1 + c2 + c3;
    AppendFour(l0, c0, c1, c2, c3);
  }

  /** One iteration of the inner loop of mxc_hdmi_edid_rebuild_modelist. */
  method VisitEntry(fbi: FbInfo, k: nat, i: nat, nvic: nat, env: BuildEnv) returns (nvic': nat)
    requires ValidEnv(env) && k < 4 && i < fbi.modedb.Length
    modifies fbi, fbi.modedb
    ensures fbi.modedb == old(fbi.modedb)
    ensures Build(fbi.modelist, fbi.modedb[..], nvic') ==
            Visit(Build(old(fbi.modelist), old(fbi.modedb[..]), nvic), k, i, env)
  {
    ghost var b := Build(fbi.modelist, fbi.modedb[..], nvic);
    var mode := fbi.modedb[i];
    nvic' := nvic;
    if FailsPassMask(env.cfg.hdmiCap, PassMasks[k], mode.flag) {
      assert Visit(b, k, i, env) == b;
      return;
    }
    var vic := env.toVic(mode);
    if vic != 0 {
      nvic' := nvic + 1;
    }
    if RejectedForHdmi(env.cfg.hdmiCap, mode.flag, vic) || Blank(mode) {
      assert Visit(b, k, i, env) == b.(nvic := nvic');
      return;
    }
    VisitAdmitted(b, k, i, env);
    mode := Normalise(mode);
    fbi.modedb[i] := mode;
    assert fbi.modedb[..] == b.db[i := mode];
    AddNewEntry(fbi, mode, vic, nvic', env);
  }

  /** Visit of an entry that passes the filters, with the list's two outcomes spelled out. */
  lemma VisitAdmitted(b: Build, k: nat, i: nat, env: BuildEnv)
    requires ValidEnv(env) && k < 4 && i < |b.db|
    requires Admitted(b.db[i], k, env.toVic(b.db[i]), env.cfg)
    ensures var vic := env.toVic(b.db[i]);
            var n := Normalise(b.db[i]);
            var nvic := if vic != 0 then b.nvic + 1 else b.nvic;
            Visit(b, k, i, env) ==
              Build(if InList(b.list, n) then b.list else b.list + [n] + Extras(n, vic, nvic, env), b.db[i := n], nvic)
  {
  }

  /**
   * The tail of one iteration: a normalised entry whose key is not yet in the
   * list is appended, followed by its fractional and stereoscopic copies.
   */
  method AddNewEntry(fbi: FbInfo, mode: Mode, vic: nat, nvic: nat, env: BuildEnv)
    requires ValidEnv(env)
    modifies fbi
    ensures fbi.modedb == old(fbi.modedb)
    ensures fbi.modelist == if InList(old(fbi.modelist), mode) then old(fbi.modelist)
                            else old(fbi.modelist) + [mode] + Extras(mode, vic, nvic, env)
  {
    ghost var l0 := fbi.modelist;
    var existing := CheckExisting(mode, fbi.modelist);
    if existing {
      return;
    }
    fbi.modelist := fbi.modelist + [mode];
    if vic != 0 && env.enableFract && (mode.refresh == 24 || mode.refresh == 30 || mode.refresh == 60) {
      AddVideomode(fbi, mode, mode.flag, FB_VMODE_FRACTIONAL);
    }
    assert fbi.modelist == l0 + [mode] + FractCopies(mode, vic, env);
    if !env.enable3d || !env.cfg.hdmi3dPresent {
      AppendTwo(l0 + [mode], FractCopies(mode, vic, env), []);
      return;
    }
    Add3dCopies(fbi, mode, vic, nvic, env);
    AppendTwo(l0 + [mode], FractCopies(mode, vic, env), Copies3d(mode, vic, nvic, env));
  }

  /** mxc_hdmi_edid_rebuild_modelist. */
  method RebuildModelist(fbi: FbInfo, env: BuildEnv)
    requires ValidEnv(env)
    modifies fbi, fbi.modedb
    ensures fbi.modedb == old(fbi.modedb)
    ensures fbi.modelist == Rebuild(old(fbi.modedb[..]), env).list
    ensures fbi.modedb[..] == Rebuild(old(fbi.modedb[..]), env).db
  {
    ghost var db0 := fbi.modedb[..];
    fbi.modelist := [];
    fbi.modelist := fbi.modelist + [VgaMode];
    var nvic: nat := 0;
    var k := 0;
    PassMasksSentinel();
    while PassMasks[k] != 0
      invariant 0 <= k <= 4
      invariant fbi.modedb == old(fbi.modedb)
      invariant k == 0 ==> Build(fbi.modelist, fbi.modedb[..], nvic) == Build([VgaMode], db0, 0)
      invariant k > 0 ==> Build(fbi.modelist, fbi.modedb[..], nvic) == BuildUpTo(db0, env, k - 1, |db0|)
      decreases 4 - k
    {
      assert k < 4;
      assert Build(fbi.modelist, fbi.modedb[..], nvic) == BuildUpTo(db0, env, k, 0);
      nvic := RunPass(fbi, k, nvic, env, db0);
      k := k + 1;
    }
    assert k == 4;
  }

  /** One pass of mxc_hdmi_edid_rebuild_modelist: the inner loop over the mode database. */
  method RunPass(fbi: FbInfo, k: nat, nvic: nat, env: BuildEnv, ghost db0: seq<Mode>) returns (nvic': nat)
    requires ValidEnv(env) && k < 4 && fbi.modedb.Length == |db0|
    requires Build(fbi.modelist, fbi.modedb[..], nvic) == BuildUpTo(db0, env, k, 0)
    modifies fbi, fbi.modedb
    ensures fbi.modedb == old(fbi.modedb)
    ensures Build(fbi.modelist, fbi.modedb[..], nvic') == BuildUpTo(db0, env, k, |db0|)
  {
    nvic' := nvic;
    var i := 0;
    while i < fbi.modedb.Length
      invariant 0 <= i <= fbi.modedb.Length == |db0|
      invariant fbi.modedb == old(fbi.modedb)
      invariant Build(fbi.modelist, fbi.modedb[..], nvic') == BuildUpTo(db0, env, k, i)
    {
      nvic' := VisitEntry(fbi, k, i, nvic', env);
      BuildUpToNext(db0, env, k, i);
      i := i + 1;
    }
  }

  lemma BuildUpToNext(db0: seq<Mode>, env: BuildEnv, k: nat, i: nat)
    requires ValidEnv(env) && k < 4 && i < |db0|
    ensures BuildUpTo(db0, env, k, i + 1) == Visit(BuildUpTo(db0, env, k, i), k, i, env)
  {
  }

  /** Four passes: masks 0 .. 3 are non-zero and mask 4 is the sentinel. */
  lemma PassMasksSentinel()
    ensures |PassMasks| == 5 && PassMasks[4] == 0
    ensures forall k :: 0 <= k < 4 ==> PassMasks[k] != 0
  {
  }

  // ---------------------------------------------------------------------
  // The default list
  // ---------------------------------------------------------------------

  /** Every mxc_cea_mode entry with a width, marked FB_MODE_IS_STANDARD, in table order. */
  function StandardCeaModes(cea: seq<Mode>): seq<Mode>
  {
    if cea == [] then []
    else
      var m := cea[|cea| - 1];
      StandardCeaModes(cea[..|cea| - 1]) + (if m.xres != 0 then [Standard(m)] else [])
  }

  /** A CEA mode as the default list holds it: flag FB_MODE_IS_STANDARD added. */
  function Standard(m: Mode): Mode
  {
    m.(flag := m.flag | FB_MODE_IS_STANDARD)
  }

  lemma StandardHasBit(m: Mode)
    ensures Standard(m).xres == m.xres && HasBits(Standard(m).flag, FB_MODE_IS_STANDARD)
  {
    OrKeepsBits(m.flag, FB_MODE_IS_STANDARD);
  }

  /**
   * mxc_hdmi_default_modelist: the mode of the current var (converted by
   * fb_var_to_videomode, not part of this model) then the CEA modes.
   */
  method DefaultModelist(fbi: FbInfo, current: Mode, cea: seq<Mode>)
    modifies fbi
    ensures fbi.modedb == old(fbi.modedb)
    ensures fbi.modelist == [current] + StandardCeaModes(cea)
  {
    fbi.modelist := [];
    fbi.modelist := fbi.modelist + [current];
    for i := 0 to |cea|
      invariant fbi.modedb == old(fbi.modedb)
      invariant fbi.modelist == [current] + StandardCeaModes(cea[..i])
    {
      assert cea[..i + 1][..i] == cea[..i];
      var mode := cea[i];
      if mode.xres != 0 {
        mode := Standard(mode);
        fbi.modelist := fbi.modelist + [mode];
      }
    }
    assert cea[..|cea|] == cea;
  }

  /** The positions of the mxc_cea_mode entries with a width, in increasing order. */
  function WidthIndices(cea: seq<Mode>): seq<nat>
  {
    if cea == [] then []
    else WidthIndices(cea[..|cea| - 1]) + (if cea[|cea| - 1].xres != 0 then [|cea| - 1] else [])
  }

  /** The positions with a width are in range, increasing, and include every CEA mode with a width. */
  lemma {:induction false} WidthIndicesSpec(cea: seq<Mode>)
    ensures var w := WidthIndices(cea);
            && |w| <= |cea|
            && (forall p :: 0 <= p < |w| ==> w[p] < |cea| && cea[w[p]].xres != 0)
            && (forall p, q :: 0 <= p < q < |w| ==> w[p] < w[q])
            && (forall j :: 0 <= j < |cea| && cea[j].xres != 0 ==> j in w)
  {
    if cea != [] {
      var pre := cea[..|cea| - 1];
      WidthIndicesSpec(pre);
      var w := WidthIndices(cea);
      assert w == WidthIndices(pre) + (if cea[|cea| - 1].xres != 0 then [|cea| - 1] else []);
      forall p | 0 <= p < |WidthIndices(pre)|
        ensures cea[w[p]].xres != 0
      {
        assert cea[w[p]] == pre[w[p]];
      }
      forall j | 0 <= j < |cea| - 1 && cea[j].xres != 0
        ensures j in w
      {
        assert cea[j] == pre[j];
      }
    }
  }

  /**
   * The default entries are the CEA modes with a width, marked standard, in
   * table order: the p-th entry is Standard of the CEA mode at the p-th
   * position with a width, those positions increase, and every CEA mode with
   * a width has one.
   */
  lemma {:induction false} StandardCeaModesSpec(cea: seq<Mode>)
    ensures var l, w := StandardCeaModes(cea), WidthIndices(cea);
            && |l| == |w| <= |cea|
            && (forall p :: 0 <= p < |w| ==> w[p] < |cea| && cea[w[p]].xres != 0 && l[p] == Standard(cea[w[p]]))
            && (forall p, q :: 0 <= p < q < |w| ==> w[p] < w[q])
            && (forall j :: 0 <= j < |cea| && cea[j].xres != 0 ==> j in w)
    ensures forall p :: 0 <= p < |StandardCeaModes(cea)| ==>
              StandardCeaModes(cea)[p].xres != 0 && HasBits(StandardCeaModes(cea)[p].flag, FB_MODE_IS_STANDARD)
  {
    WidthIndicesSpec(cea);
    StandardCeaModesAt(cea);
    var l, w := StandardCeaModes(cea), WidthIndices(cea);
    forall p | 0 <= p < |l|
      ensures l[p].xres != 0 && HasBits(l[p].flag, FB_MODE_IS_STANDARD)
    {
      StandardHasBit(cea[w[p]]);
    }
  }

  /** The p-th default entry is Standard of the CEA mode at the p-th position with a width. */
  lemma {:induction false} StandardCeaModesAt(cea: seq<Mode>)
    ensures |StandardCeaModes(cea)| == |WidthIndices(cea)|
    ensures forall p :: 0 <= p < |WidthIndices(cea)| ==>
              WidthIndices(cea)[p] < |cea| && StandardCeaModes(cea)[p] == Standard(cea[WidthIndices(cea)[p]])
  {
    if cea != [] {
      var pre := cea[..|cea| - 1];
      var m := cea[|cea| - 1];
      StandardCeaModesAt(pre);
      var l, w := StandardCeaModes(cea), WidthIndices(cea);
      assert l == StandardCeaModes(pre) + (if m.xres != 0 then [Standard(m)] else []);
      assert w == WidthIndices(pre) + (if m.xres != 0 then [|cea| - 1] else []);
      forall p | 0 <= p < |WidthIndices(pre)|
        ensures l[p] == Standard(cea[w[p]])
      {
        assert cea[w[p]] == pre[w[p]];
      }
    }
  }

  // ---------------------------------------------------------------------
  // Properties of the rebuild
  // ---------------------------------------------------------------------

  /** Whether entry m is taken in pass k, given its VIC. */
  predicate Admitted(m: Mode, k: nat, vic: nat, cfg: EdidCfg)
    requires k < |PassMasks|
  {
    !FailsPassMask(cfg.hdmiCap, PassMasks[k], m.flag) && !RejectedForHdmi(cfg.hdmiCap, m.flag, vic) && !Blank(m)
  }

  /**
   * The filters of one pass in plain terms: no sink gets an entry without a
   * width or a refresh rate; a DVI sink takes every other entry in every
   * pass; an HDMI sink takes FIRST entries in pass 0, entries with some flag
   * bit other than FIRST and DETAILED in pass 1, DETAILED ones in pass 2,
   * anything in pass 3, and never a VESA entry or a non-detailed flagged
   * entry without a VIC.
   */
  lemma {:induction false} AdmissionRules(m: Mode, k: nat, vic: nat, cfg: EdidCfg)
    requires k < 4
    ensures m.xres == 0 || m.refresh == 0 ==> !Admitted(m, k, vic, cfg)
    ensures !cfg.hdmiCap ==> (Admitted(m, k, vic, cfg) <==> m.xres != 0 && m.refresh != 0)
    ensures cfg.hdmiCap && HasBits(m.flag, FB_MODE_IS_VESA) ==> !Admitted(m, k, vic, cfg)
    ensures cfg.hdmiCap && vic == 0 && m.flag != 0 && !HasBits(m.flag, FB_MODE_IS_DETAILED) ==> !Admitted(m, k, vic, cfg)
    ensures k == 3 ==> !FailsPassMask(cfg.hdmiCap, PassMasks[k], m.flag)
    ensures k == 0 && cfg.hdmiCap ==> (FailsPassMask(cfg.hdmiCap, PassMasks[k], m.flag) <==> !HasBits(m.flag, FB_MODE_IS_FIRST))
    ensures k == 2 && cfg.hdmiCap ==> (FailsPassMask(cfg.hdmiCap, PassMasks[k], m.flag) <==> !HasBits(m.flag, FB_MODE_IS_DETAILED))
    ensures k == 1 && cfg.hdmiCap ==>
              (FailsPassMask(cfg.hdmiCap, PassMasks[k], m.flag) <==> m.flag == 0 || m.flag == FB_MODE_IS_DETAILED || m.flag == FB_MODE_IS_FIRST || m.flag == FB_MODE_IS_DETAILED | FB_MODE_IS_FIRST)
  {
    if k == 1 && cfg.hdmiCap {
      PassOneMask(m.flag);
    }
  }

  lemma PassOneMask(flag: bv32)
    ensures flag & !(FB_MODE_IS_DETAILED | FB_MODE_IS_FIRST) == 0 <==>
            flag == 0 || flag == FB_MODE_IS_DETAILED || flag == FB_MODE_IS_FIRST || flag == FB_MODE_IS_DETAILED | FB_MODE_IS_FIRST
  {
  }

  /** The table gives VIC 4, 19 and 32 top-and-bottom then frame packing, VIC 5 and 20 side-by-side half, others nothing. */
  lemma {:induction false} MandatoryCopiesTable(vic: nat, cea: seq<Mode>)
    requires |cea| == MXC_CEA_MODES
    ensures MandatoryCopies(StereoMandatoryModes, vic, cea) ==
      if vic == 4 || vic == 19 || vic == 32 then
        [Copy3d(cea[vic], FB_VMODE_3D_TOP_BOTTOM), Copy3d(cea[vic], FB_VMODE_3D_FRAME_PACK)]
      else if vic == 5 || vic == 20 then
        [Copy3d(cea[vic], FB_VMODE_3D_SBS_HALF)]
      else []
  {
    MandatoryCopiesRows(vic, cea);
  }

  /** The table's copies are the eight rows' copies in table order. */
  lemma MandatoryCopiesRows(vic: nat, cea: seq<Mode>)
    requires |cea| == MXC_CEA_MODES
    ensures var t := StereoMandatoryModes;
      MandatoryCopies(t, vic, cea) ==
        RowCopies(t[0], vic, cea) + RowCopies(t[1], vic, cea) + RowCopies(t[2], vic, cea) + RowCopies(t[3], vic, cea) +
        RowCopies(t[4], vic, cea) + RowCopies(t[5], vic, cea) + RowCopies(t[6], vic, cea) + RowCopies(t[7], vic, cea)
  {
    var t := StereoMandatoryModes;
    StereoVicsInRange();
    forall j | 0 <= j < 8
      ensures MandatoryCopies(t[..j + 1], vic, cea) == MandatoryCopies(t[..j], vic, cea) + RowCopies(t[j], vic, cea)
    {
      MandatoryCopiesStep(t, j, vic, cea);
    }
    assert t[..0] == [] && t[..8] == t;
  }

  lemma MandatoryCopiesStep(table: seq<StereoMandatory>, j: nat, vic: nat, cea: seq<Mode>)
    requires j < |table|
    requires forall i :: 0 <= i < |table| ==> table[i].vic < |cea|
    ensures MandatoryCopies(table[..j + 1], vic, cea) == MandatoryCopies(table[..j], vic, cea) + RowCopies(table[j], vic, cea)
  {
    assert table[..j + 1][..j] == table[..j];
  }

  /** A fractional copy made under enable_fract, with its refresh among 24, 30 and 60. */
  predicate FractionalCopy(e: Mode, env: BuildEnv)
  {
    env.enableFract && (e.refresh == 24 || e.refresh == 30 || e.refresh == 60) && HasBits(e.vmode, FB_VMODE_FRACTIONAL)
  }

  /** A stereoscopic copy made under enable_3d for a sink with hdmi_3d_present. */
  predicate StereoCopy(e: Mode, env: BuildEnv)
  {
    env.enable3d && env.cfg.hdmi3dPresent && e.flag == FB_MODE_IS_3D
  }

  lemma {:induction false} MandatoryCopiesAre3d(table: seq<StereoMandatory>, vic: nat, cea: seq<Mode>)
    requires forall j :: 0 <= j < |table| ==> table[j].vic < |cea|
    ensures forall p :: 0 <= p < |MandatoryCopies(table, vic, cea)| ==> MandatoryCopies(table, vic, cea)[p].flag == FB_MODE_IS_3D
  {
    if table != [] {
      MandatoryCopiesAre3d(table[..|table| - 1], vic, cea);
    }
  }

  lemma {:induction false} FormatCopiesAre3d(n: Mode, formats: seq<Format3d>, nvic: nat)
    ensures forall p :: 0 <= p < |FormatCopies(n, formats, nvic)| ==> FormatCopies(n, formats, nvic)[p].flag == FB_MODE_IS_3D
  {
    if formats != [] {
      FormatCopiesAre3d(n, formats[..|formats| - 1], nvic);
    }
  }

  /** 2 to the power s: the 3D_Structure_ALL value announcing structure s alone. */
  function Pow2(s: nat): (r: nat)
    ensures r >= 1
  {
    if s == 0 then 1 else 2 * Pow2(s - 1)
  }

  lemma {:induction false} TestBitZero(i: nat)
    ensures !TestBit(0, i)
  {
    if i > 0 {
      TestBitZero(i - 1);
    }
  }

  /** 2^s has bit s and no other. */
  lemma {:induction false} TestBitPow2(s: nat, i: nat)
    ensures TestBit(Pow2(s), i) <==> i == s
  {
    if i > 0 {
      if s == 0 {
        TestBitZero(i - 1);
      } else {
        assert Pow2(s) / 2 == Pow2(s - 1);
        TestBitPow2(s - 1, i - 1);
      }
    } else if s > 0 {
      assert Pow2(s) % 2 == 0;
    }
  }

  /**
   * A sink whose 3D_Structure_ALL announces one known structure s alone gets
   * exactly the copy a per-VIC entry with structure code s gives.
   */
  lemma StructAllSingle(n: Mode, s: nat, nvic: nat)
    requires KnownStructure(s) && nvic >= 1
    ensures StructAllCopies(n, Pow2(s)) == [Copy3d(n, LayoutFor(s))]
    ensures StructAllCopies(n, Pow2(s)) == FormatCopies(n, [Format3d(nvic - 1, s)], nvic)
  {
    TestBitPow2(s, 0);
    TestBitPow2(s, 3);
    TestBitPow2(s, 6);
    TestBitPow2(s, 8);
    assert [Format3d(nvic - 1, s)][..0] == [];
  }

  /**
   * As written, a sink announcing side-by-side full alone (bit 3, 0x8) gets
   * no side-by-side-full copy, and one announcing field alternative alone
   * (bit 1, 0x2) gets one.
   */
  lemma StructAllAsWrittenMissesSbsFull(n: Mode)
    ensures StructAllCopiesAsWritten(n, 8) == []
    ensures StructAllCopies(n, 8) == [Copy3d(n, FB_VMODE_3D_SBS_FULL)]
    ensures StructAllCopiesAsWritten(n, 2) == [Copy3d(n, FB_VMODE_3D_SBS_FULL)]
    ensures StructAllCopies(n, 2) == []
  {
    TestBitPow2(3, 0);
    TestBitPow2(3, 1);
    TestBitPow2(3, 2);
    TestBitPow2(3, 3);
    TestBitPow2(3, 6);
    TestBitPow2(3, 8);
    TestBitPow2(1, 0);
    TestBitPow2(1, 1);
    TestBitPow2(1, 3);
    TestBitPow2(1, 6);
    TestBitPow2(1, 8);
  }

  lemma StructAllCopiesAre3d(n: Mode, structAll: nat)
    ensures forall p :: 0 <= p < |StructAllCopies(n, structAll)| ==> StructAllCopies(n, structAll)[p].flag == FB_MODE_IS_3D
  {
  }

  /** Every stereoscopic copy carries FB_MODE_IS_3D, and there are none unless enable_3d and hdmi_3d_present. */
  lemma {:induction false} Copies3dAre3d(n: Mode, vic: nat, nvic: nat, env: BuildEnv)
    requires ValidEnv(env)
    ensures forall p :: 0 <= p < |Copies3d(n, vic, nvic, env)| ==> StereoCopy(Copies3d(n, vic, nvic, env)[p], env)
  {
    if env.enable3d && env.cfg.hdmi3dPresent {
      MandatoryCopiesAre3d(StereoMandatoryModes, vic, env.cea);
      FormatCopiesAre3d(n, env.cfg.hdmi3dFormats, nvic);
      StructAllCopiesAre3d(n, env.cfg.hdmi3dStructAll);
      var a := MandatoryCopies(StereoMandatoryModes, vic, env.cea);
      var b := if MultiApplies(env.cfg, nvic) then StructAllCopies(n, env.cfg.hdmi3dStructAll) else [];
      var d := FormatCopies(n, env.cfg.hdmi3dFormats, nvic);
      var c := Copies3d(n, vic, nvic, env);
      assert c == a + b + d;
      forall p | 0 <= p < |c| ensures c[p].flag == FB_MODE_IS_3D {
        if p < |a| {
          assert c[p] == a[p];
        } else if p < |a| + |b| {
          assert c[p] == b[p - |a|];
        } else {
          assert c[p] == d[p - |a| - |b|];
        }
      }
    }
  }

  /** The fractional copy keeps refresh and flag, gains FB_VMODE_FRACTIONAL, and needs a VIC and enable_fract. */
  lemma FractCopiesShape(n: Mode, vic: nat, env: BuildEnv)
    ensures |FractCopies(n, vic, env)| <= 1
    ensures forall p :: 0 <= p < |FractCopies(n, vic, env)| ==>
              vic != 0 && FractionalCopy(FractCopies(n, vic, env)[p], env) &&
              FractCopies(n, vic, env)[p].refresh == n.refresh && FractCopies(n, vic, env)[p].flag == n.flag
  {
    OrKeepsBits(n.vmode, FB_VMODE_FRACTIONAL);
  }

  /**
   * What follows a new entry: at most one fractional copy, made only when the
   * entry has a VIC, enable_fract is set and its refresh is 24, 30 or 60, and
   * then stereoscopic copies, made only under enable_3d for a 3D sink.
   */
  lemma {:induction false} ExtrasShape(n: Mode, vic: nat, nvic: nat, env: BuildEnv)
    requires ValidEnv(env)
    ensures forall p :: 0 <= p < |Extras(n, vic, nvic, env)| ==>
              (p == 0 && vic != 0 && FractionalCopy(Extras(n, vic, nvic, env)[p], env) &&
               Extras(n, vic, nvic, env)[p].refresh == n.refresh && Extras(n, vic, nvic, env)[p].flag == n.flag) ||
              StereoCopy(Extras(n, vic, nvic, env)[p], env)
  {
    var f := FractCopies(n, vic, env);
    var c := Copies3d(n, vic, nvic, env);
    var x := Extras(n, vic, nvic, env);
    FractCopiesShape(n, vic, env);
    Copies3dAre3d(n, vic, nvic, env);
    assert x == f + c;
    forall p | 0 <= p < |x|
      ensures (p == 0 && vic != 0 && FractionalCopy(x[p], env) && x[p].refresh == n.refresh && x[p].flag == n.flag) ||
              StereoCopy(x[p], env)
    {
      if p < |f| {
        assert x[p] == f[p];
      } else {
        assert x[p] == c[p - |f|];
      }
    }
  }

  /**
   * One visit of entry i in pass k: the list only grows at its end; it grows
   * exactly when the entry is admitted and no entry already present has the
   * normalised entry's key, and then the normalised entry comes first, its
   * copies after it. An admitted entry is rewritten in place, others are
   * left alone, and the VIC counter counts every entry past the pass mask
   * that has a VIC.
   */
  lemma {:induction false} VisitSpec(b: Build, k: nat, i: nat, env: BuildEnv)
    requires ValidEnv(env) && k < 4 && i < |b.db|
    ensures var r := Visit(b, k, i, env);
            var m := b.db[i];
            var vic := env.toVic(m);
            && b.list <= r.list
            && r.nvic == (if !FailsPassMask(env.cfg.hdmiCap, PassMasks[k], m.flag) && vic != 0 then b.nvic + 1 else b.nvic)
            && r.db == (if Admitted(m, k, vic, env.cfg) then b.db[i := Normalise(m)] else b.db)
            && (|r.list| > |b.list| <==> Admitted(m, k, vic, env.cfg) && !InList(b.list, Normalise(m)))
            && (|r.list| > |b.list| ==>
                  r.list[|b.list|] == Normalise(m) &&
                  forall p :: |b.list| < p < |r.list| ==> FractionalCopy(r.list[p], env) || StereoCopy(r.list[p], env))
  {
    var r := Visit(b, k, i, env);
    var m := b.db[i];
    var vic := env.toVic(m);
    if Admitted(m, k, vic, env.cfg) && !InList(b.list, Normalise(m)) {
      var nvic := if vic != 0 then b.nvic + 1 else b.nvic;
      var x := Extras(Normalise(m), vic, nvic, env);
      ExtrasShape(Normalise(m), vic, nvic, env);
      assert r.list == b.list + [Normalise(m)] + x;
      forall p | |b.list| < p < |r.list|
        ensures FractionalCopy(r.list[p], env) || StereoCopy(r.list[p], env)
      {
        assert r.list[p] == x[p - |b.list| - 1];
      }
    }
  }

  /** e is the normalised form of some entry of the EDID mode database. */
  predicate FromDatabase(e: Mode, db0: seq<Mode>)
  {
    exists j :: 0 <= j < |db0| && e == Normalise(db0[j])
  }

  /** Position p holds a normalised database entry whose key no earlier entry has. */
  predicate NewBase(list: seq<Mode>, p: nat, db0: seq<Mode>)
    requires p < |list|
  {
    FromDatabase(list[p], db0) && forall q :: 0 <= q < p ==> !SameKey(list[q], list[p])
  }

  /** Every entry after the first is a new base entry or one of the two kinds of copy. */
  predicate Origins(list: seq<Mode>, db0: seq<Mode>, env: BuildEnv)
  {
    forall p :: 1 <= p < |list| ==> NewBase(list, p, db0) || FractionalCopy(list[p], env) || StereoCopy(list[p], env)
  }

  /** The invariant of the rebuild: VGA first, every database entry original or normalised, all later entries accounted for. */
  predicate Invariant(b: Build, db0: seq<Mode>, env: BuildEnv)
  {
    |b.list| >= 1 && b.list[0] == VgaMode && |b.db| == |db0| &&
    (forall j :: 0 <= j < |db0| ==> b.db[j] == db0[j] || b.db[j] == Normalise(db0[j])) &&
    Origins(b.list, db0, env)
  }

  lemma {:induction false} VisitKeepsInvariant(b: Build, k: nat, i: nat, env: BuildEnv, db0: seq<Mode>)
    requires ValidEnv(env) && k < 4 && i < |b.db|
    requires Invariant(b, db0, env)
    ensures Invariant(Visit(b, k, i, env), db0, env)
  {
    var r := Visit(b, k, i, env);
    var m := b.db[i];
    var n := Normalise(m);
    var vic := env.toVic(m);
    VisitSpec(b, k, i, env);
    NormaliseIdempotent(db0[i]);
    assert n == Normalise(db0[i]);
    assert r.list[..|b.list|] == b.list;
    forall p | 1 <= p < |r.list|
      ensures NewBase(r.list, p, db0) || FractionalCopy(r.list[p], env) || StereoCopy(r.list[p], env)
    {
      if p < |b.list| {
        assert r.list[p] == b.list[p];
        if NewBase(b.list, p, db0) {
          var j :| 0 <= j < |db0| && b.list[p] == Normalise(db0[j]);
          forall q | 0 <= q < p ensures !SameKey(r.list[q], r.list[p]) {
            assert r.list[q] == b.list[q];
          }
          assert r.list[p] == Normalise(db0[j]);
        }
      } else if p == |b.list| {
        assert r.list[p] == Normalise(db0[i]);
        forall q | 0 <= q < p ensures !SameKey(r.list[q], r.list[p]) {
          assert r.list[q] == b.list[q];
        }
      }
    }
  }

  lemma {:induction false} BuildUpToInvariant(db0: seq<Mode>, env: BuildEnv, k: nat, i: nat)
    requires ValidEnv(env) && k < 4 && i <= |db0|
    ensures Invariant(BuildUpTo(db0, env, k, i), db0, env)
    decreases k, i
  {
    if i == 0 {
      if k > 0 {
        BuildUpToInvariant(db0, env, k - 1, |db0|);
      }
    } else {
      BuildUpToInvariant(db0, env, k, i - 1);
      VisitKeepsInvariant(BuildUpTo(db0, env, k, i - 1), k, i - 1, env, db0);
      BuildUpToNext(db0, env, k, i - 1);
    }
  }

  /**
   * The rebuilt list starts with the VGA mode; every later entry is either a
   * normalised EDID entry whose key no earlier entry has, or a fractional
   * copy made under enable_fract at 24, 30 or 60 Hz, or a 3D copy made under
   * enable_3d for a 3D sink. The database ends up holding each entry either
   * untouched or normalised.
   */
  lemma RebuildShape(db0: seq<Mode>, env: BuildEnv)
    requires ValidEnv(env)
    ensures var b := Rebuild(db0, env);
            && |b.list| >= 1 && b.list[0] == VgaMode
            && |b.db| == |db0|
            && (forall j :: 0 <= j < |db0| ==> b.db[j] == db0[j] || b.db[j] == Normalise(db0[j]))
            && forall p :: 1 <= p < |b.list| ==>
                 NewBase(b.list, p, db0) || FractionalCopy(b.list[p], env) || StereoCopy(b.list[p], env)
  {
    BuildUpToInvariant(db0, env, 3, |db0|);
  }

  /** An entry that is neither marked fractional nor 3D is a normalised EDID entry whose key came first. */
  lemma RebuildBasesAreDeduplicated(db0: seq<Mode>, env: BuildEnv, p: nat)
    requires ValidEnv(env)
    requires 1 <= p < |Rebuild(db0, env).list|
    requires !HasBits(Rebuild(db0, env).list[p].vmode, FB_VMODE_FRACTIONAL)
    requires Rebuild(db0, env).list[p].flag != FB_MODE_IS_3D
    ensures NewBase(Rebuild(db0, env).list, p, db0)
  {
    RebuildShape(db0, env);
  }

  /**
   * With neither fractional nor 3D copies enabled, no two entries of the
   * rebuilt list share a key, and every entry after VGA comes from the EDID.
   */
  lemma RebuildWithoutCopiesIsDistinct(db0: seq<Mode>, env: BuildEnv)
    requires ValidEnv(env) && !env.enableFract && !env.enable3d
    ensures var l := Rebuild(db0, env).list;
            && (forall q, p :: 0 <= q < p < |l| ==> !SameKey(l[q], l[p]))
            && forall p :: 1 <= p < |l| ==> FromDatabase(l[p], db0)
  {
    RebuildShape(db0, env);
    var l := Rebuild(db0, env).list;
    forall p | 1 <= p < |l|
      ensures FromDatabase(l[p], db0) && forall q :: 0 <= q < p ==> !SameKey(l[q], l[p])
    {
      assert !FractionalCopy(l[p], env) && !StereoCopy(l[p], env);
      assert NewBase(l, p, db0);
    }
  }
}
