/**
 * The frame-buffer video mode record (struct fb_videomode) as the HDMI
 * transmitter driver uses it: its flag and vmode bits, the 640x480 VGA
 * fallback mode, the helpers that normalise an EDID mode before it is put
 * in the mode list (aspect-ratio inference and ALIGN2), the key on which the
 * list is deduplicated, and the refresh-rate text used when a mode is logged.
 *
 * All fields of fb_videomode are 32-bit unsigned in C; arithmetic that can
 * wrap in C is written out modulo 2^32 here.
 */
module FbMode {

  const U32: int := 0x1_0000_0000
  type u32 = x: int | 0 <= x < 0x1_0000_0000

  // fb_videomode.flag bits (FB_MODE_IS_*)
  const FB_MODE_IS_DETAILED: bv32 := 1
  const FB_MODE_IS_STANDARD: bv32 := 2
  const FB_MODE_IS_VESA: bv32 := 4
  const FB_MODE_IS_FIRST: bv32 := 16
  const FB_MODE_IS_3D: bv32 := 64

  // fb_videomode.vmode bits (FB_VMODE_*)
  const FB_VMODE_NONINTERLACED: bv32 := 0
  const FB_VMODE_INTERLACED: bv32 := 0x1
  const FB_VMODE_ASPECT_4_3: bv32 := 0x10
  const FB_VMODE_ASPECT_16_9: bv32 := 0x20
  const FB_VMODE_ASPECT_1: bv32 := 0x40
  const FB_VMODE_ASPECT_5_4: bv32 := 0x80
  const FB_VMODE_ASPECT_16_10: bv32 := 0x100
  const FB_VMODE_ASPECT_MASK: bv32 := 0x1F0
  const FB_VMODE_FRACTIONAL: bv32 := 0x200
  const FB_VMODE_3D_SBS_HALF: bv32 := 0x400
  const FB_VMODE_3D_SBS_FULL: bv32 := 0x800
  const FB_VMODE_3D_TOP_BOTTOM: bv32 := 0x1000
  const FB_VMODE_3D_FRAME_PACK: bv32 := 0x2000
  const FB_VMODE_3D_MASK: bv32 := 0x3C00
  const FB_VMODE_MASK: bv32 := 0x3FFF

  // fb_videomode.sync bits
  const FB_SYNC_HOR_HIGH_ACT: bv32 := 1
  const FB_SYNC_VERT_HIGH_ACT: bv32 := 2

  /** struct fb_videomode without its name. */
  datatype Mode = Mode(
    refresh: u32, xres: u32, yres: u32, pixclock: u32,
    leftMargin: u32, rightMargin: u32, upperMargin: u32, lowerMargin: u32,
    hsyncLen: u32, vsyncLen: u32, sync: bv32, vmode: bv32, flag: bv32)

  /** The 640x480@60 VESA mode every rebuilt list starts with. */
  const VgaMode: Mode := Mode(60, 640, 480, 39721, 48, 16, 33, 10, 96, 2, 0,
                              FB_VMODE_NONINTERLACED | FB_VMODE_ASPECT_4_3, FB_MODE_IS_VESA)

  predicate HasBits(v: bv32, bits: bv32) { v & bits != 0 }

  /** mxc_fb_add_videomode: a copy of src with a new flag and extra vmode bits. */
  function WithFlags(src: Mode, newFlag: bv32, modVmode: bv32): Mode
  {
    src.(flag := newFlag, vmode := src.vmode | modVmode)
  }

  /** Or-ing bits into a vmode keeps the old bits and sets the new ones. */
  lemma OrKeepsBits(v: bv32, bits: bv32)
    ensures (v | bits) & v == v
    ensures (v | bits) & bits == bits
  {
  }

  /** ALIGN(x, 8) on a 32-bit unsigned value: round up, wrapping at 2^32. */
  function AlignUp8(x: u32): u32
  {
    var s := (x + 7) % U32;
    s - s % 8
  }

  /**
   * ALIGN2(x, 8): ALIGN(x, 8) when that is x, else ALIGN(x, 8) - 8, all in
   * 32-bit unsigned arithmetic. Even where the round-up wraps past 2^32 the
   * result is the largest multiple of 8 not above x.
   */
  function Align2(x: u32): (r: u32)
    ensures r == x - x % 8
    ensures r % 8 == 0 && r <= x < r + 8
  {
    Align2Cases(x);
    var up := AlignUp8(x);
    if up != x then (up - 8) % U32 else x
  }

  lemma Align2Cases(x: u32)
    ensures var up := AlignUp8(x);
      (if up != x then (up - 8) % U32 else x) == x - x % 8
  {
    var q, r := x / 8, x % 8;
    assert x == 8 * q + r;
    if r == 0 {
      assert x + 7 < U32;
      assert (x + 7) % 8 == 7;
      assert AlignUp8(x) == x;
    } else if x + 7 < U32 {
      assert x + 7 == 8 * (q + 1) + (r - 1);
      assert (x + 7) % 8 == r - 1;
      assert AlignUp8(x) == 8 * (q + 1);
    } else {
      assert q == U32 / 8 - 1;
      assert (x + 7) % U32 == r - 1;
      assert AlignUp8(x) == 0;
    }
  }

  lemma Align2Idempotent(x: u32)
    ensures Align2(Align2(x)) == Align2(x)
    ensures Align2(x) == x <==> x % 8 == 0
  {
    var r := Align2(x);
    assert r % 8 == 0;
    assert Align2(r) == r - r % 8 == r;
  }

  /** The aspect ratio inferred for an entry that has none: 4:3 when
   * yres == (xres * 3) / 4 in 32-bit arithmetic, 16:9 otherwise. */
  function AspectFor(m: Mode): bv32
  {
    if m.yres == ((m.xres * 3) % U32) / 4 then FB_VMODE_ASPECT_4_3 else FB_VMODE_ASPECT_16_9
  }

  /**
   * Aspect-ratio inference: an entry without aspect bits gets the inferred one.
   */
  function InferAspect(m: Mode): Mode
  {
    if HasBits(m.vmode, FB_VMODE_ASPECT_MASK) then m else m.(vmode := m.vmode | AspectFor(m))
  }

  /** The in-place rewrite of an EDID entry: aspect inference, then ALIGN2 of xres and yres. */
  function Normalise(m: Mode): Mode
  {
    var a := InferAspect(m);
    a.(xres := Align2(a.xres), yres := Align2(a.yres))
  }

  /**
   * Normalisation rounds width and height down to multiples of 8, by less
   * than 8, and keeps the refresh rate, the flag and the pixel clock.
   */
  lemma NormaliseAligns(m: Mode)
    ensures Normalise(m).xres % 8 == 0 && Normalise(m).xres <= m.xres < Normalise(m).xres + 8
    ensures Normalise(m).yres % 8 == 0 && Normalise(m).yres <= m.yres < Normalise(m).yres + 8
    ensures Normalise(m).refresh == m.refresh && Normalise(m).flag == m.flag && Normalise(m).pixclock == m.pixclock
  {
  }

  /** Setting an aspect bit leaves every non-aspect vmode bit as it was. */
  lemma AspectBitOnly(v: bv32, aspect: bv32)
    requires aspect == FB_VMODE_ASPECT_4_3 || aspect == FB_VMODE_ASPECT_16_9
    ensures HasBits(v | aspect, FB_VMODE_ASPECT_MASK)
    ensures (v | aspect) & !FB_VMODE_ASPECT_MASK == v & !FB_VMODE_ASPECT_MASK
  {
  }

  /**
   * After normalisation the entry carries an aspect ratio: the one it had, or
   * 4:3 exactly when yres == (xres * 3) / 4, else 16:9.
   */
  lemma NormaliseVmode(m: Mode)
    ensures Normalise(m).vmode ==
      if HasBits(m.vmode, FB_VMODE_ASPECT_MASK) then m.vmode else m.vmode | AspectFor(m)
  {
    assert Normalise(m).vmode == InferAspect(m).vmode;
  }

  /** ... and no vmode bit outside the aspect bits changes. */
  lemma {:induction false} NormaliseKeepsOtherBits(m: Mode)
    ensures HasBits(Normalise(m).vmode, FB_VMODE_ASPECT_MASK)
    ensures Normalise(m).vmode & !FB_VMODE_ASPECT_MASK == m.vmode & !FB_VMODE_ASPECT_MASK
  {
    NormaliseVmode(m);
    if !HasBits(m.vmode, FB_VMODE_ASPECT_MASK) {
      AspectBitOnly(m.vmode, AspectFor(m));
    }
  }

  lemma {:induction false} NormaliseIdempotent(m: Mode)
    ensures Normalise(Normalise(m)) == Normalise(m)
  {
    var n := Normalise(m);
    Align2Idempotent(InferAspect(m).xres);
    Align2Idempotent(InferAspect(m).yres);
    assert InferAspect(n) == n;
  }

  /** The vmode bits mxc_fb_check_existing compares: FB_VMODE_MASK without the aspect bits. */
  function KeyVmode(v: bv32): bv32
  {
    v & (FB_VMODE_MASK ^ FB_VMODE_ASPECT_MASK)
  }

  /** The deduplication key of mxc_fb_check_existing. */
  predicate SameKey(a: Mode, b: Mode)
  {
    a.xres == b.xres && a.yres == b.yres && a.refresh == b.refresh &&
    KeyVmode(a.vmode) == KeyVmode(b.vmode)
  }

  /**
   * Aspect bits do not enter the key; the fractional bit does. The second
   * clause depends on the stand-in bit values: it needs FB_VMODE_FRACTIONAL
   * inside FB_VMODE_MASK and outside FB_VMODE_ASPECT_MASK.
   */
  lemma KeyIgnoresAspect(v: bv32, aspect: bv32)
    requires aspect & !FB_VMODE_ASPECT_MASK == 0
    ensures KeyVmode(v | aspect) == KeyVmode(v)
    ensures KeyVmode(v | FB_VMODE_FRACTIONAL) != KeyVmode(v & !FB_VMODE_FRACTIONAL)
  {
  }

  /**
   * get_refresh_str's two numbers: the integer part (refresh - 1 for a
   * fractional mode) and the part after the point (refresh * 999 % 1000 for a
   * fractional mode, refresh * 1000 % 1000 otherwise), in 32-bit arithmetic.
   */
  function RefreshParts(m: Mode): (u32, u32)
  {
    var frac := HasBits(m.vmode, FB_VMODE_FRACTIONAL);
    var whole := (m.refresh - (if frac then 1 else 0)) % U32;
    var milli := ((m.refresh * (if frac then 999 else 1000)) % U32) % 1000;
    (whole, milli)
  }

  /**
   * For rates up to 1000 Hz the two numbers of a fractional mode make up
   * refresh * 0.999: the integer part is refresh - 1 and the thousandths are
   * 1000 - refresh. The text reads as that decimal only while the thousandths
   * have three digits: "%u" does not pad, so from 901 Hz on the second number
   * has fewer digits (995 Hz prints "994.5Hz" for 994.005).
   */
  lemma RefreshPartsFractional(m: Mode)
    requires HasBits(m.vmode, FB_VMODE_FRACTIONAL) && 1 <= m.refresh <= 1000
    ensures RefreshParts(m).0 * 1000 + RefreshParts(m).1 == m.refresh * 999
    ensures RefreshParts(m).1 == 1000 - m.refresh
  {
    var r := m.refresh;
    assert r * 999 == (r - 1) * 1000 + (1000 - r);
    assert (r * 999) % U32 == r * 999;
  }

  /** A whole-rate mode prints its refresh with ".0". */
  lemma RefreshPartsWhole(m: Mode)
    requires !HasBits(m.vmode, FB_VMODE_FRACTIONAL) && m.refresh < 4294967
    ensures RefreshParts(m) == (m.refresh, 0)
  {
    var r := m.refresh;
    assert (r * 1000) % U32 == r * 1000;
  }

  function DigitChar(d: nat): char
    requires d < 10
  {
    "0123456789"[d]
  }

  predicate IsDigits(s: string)
  {
    forall i :: 0 <= i < |s| ==> '0' <= s[i] <= '9'
  }

  /** The number a string of decimal digits spells, most significant digit first. */
  function DigitsValue(s: string): nat
    requires IsDigits(s)
  {
    if |s| == 0 then 0 else DigitsValue(s[..|s| - 1]) * 10 + (s[|s| - 1] as int - '0' as int)
  }

  /** "%u": the digits of n, most significant first, without leading zeros. */
  function Decimal(n: nat): (s: string)
    ensures 1 <= |s| && IsDigits(s)
    ensures DigitsValue(s) == n
    ensures s[0] == '0' ==> s == "0"
  {
    if n < 10 then [DigitChar(n)]
    else
      var p := Decimal(n / 10);
      var s := p + [DigitChar(n % 10)];
      assert s[..|s| - 1] == p;
      s
  }

  /** get_refresh_str: "%u.%uHz" written by snprintf into a 10-byte buffer (at most 9 characters). */
  function RefreshStr(m: Mode): (s: string)
    ensures |s| <= 9
  {
    var (whole, milli) := RefreshParts(m);
    var full := Decimal(whole) + "." + Decimal(milli) + "Hz";
    if |full| <= 9 then full else full[..9]
  }

  /** The string for given printed parts, when it fits the buffer. */
  lemma RefreshStrIs(m: Mode, whole: nat, milli: nat, w: string, f: string)
    requires RefreshParts(m) == (whole, milli)
    requires Decimal(whole) == w && Decimal(milli) == f && |w| + |f| <= 6
    ensures RefreshStr(m) == w + "." + f + "Hz"
  {
  }

  /**
   * When the text fits the buffer it reads back as the two numbers: the
   * digits before the point spell the integer part, the digits between the
   * point and "Hz" spell the part after the point.
   */
  lemma RefreshStrReadsBack(m: Mode)
    requires |Decimal(RefreshParts(m).0)| + |Decimal(RefreshParts(m).1)| <= 6
    ensures var k := |Decimal(RefreshParts(m).0)|;
            var s := RefreshStr(m);
            && |s| == k + |Decimal(RefreshParts(m).1)| + 3 && s[k] == '.' && s[|s| - 2..] == "Hz"
            && IsDigits(s[..k]) && DigitsValue(s[..k]) == RefreshParts(m).0
            && IsDigits(s[k + 1..|s| - 2]) && DigitsValue(s[k + 1..|s| - 2]) == RefreshParts(m).1
  {
    var w := Decimal(RefreshParts(m).0);
    var f := Decimal(RefreshParts(m).1);
    var s := RefreshStr(m);
    assert s == w + "." + f + "Hz";
    assert s[..|w|] == w;
    assert s[|w| + 1..|s| - 2] == f;
  }

  /** The three NTSC-family rates print as 23.976, 29.970 and 59.940 Hz. */
  lemma RefreshStr24(m: Mode)
    requires HasBits(m.vmode, FB_VMODE_FRACTIONAL) && m.refresh == 24
    ensures RefreshStr(m) == "23.976Hz"
  {
    RefreshStrIs(m, 23, 976, "23", "976");
  }

  lemma RefreshStr30(m: Mode)
    requires HasBits(m.vmode, FB_VMODE_FRACTIONAL) && m.refresh == 30
    ensures RefreshStr(m) == "29.970Hz"
  {
    RefreshStrIs(m, 29, 970, "29", "970");
  }

  lemma RefreshStr60(m: Mode)
    requires HasBits(m.vmode, FB_VMODE_FRACTIONAL) && m.refresh == 60
    ensures RefreshStr(m) == "59.940Hz"
  {
    RefreshStrIs(m, 59, 940, "59", "940");
  }
}
