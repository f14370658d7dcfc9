/**
 * The video-path decisions of the transmitter: RGB quantisation range,
 * colour-space conversion, decimation and interpolation, the CSC
 * coefficient tables, the input data map, the packetiser selector, the
 * colorimetry / output format / pixel repetition chosen in mxc_hdmi_setup,
 * the AVI InfoFrame fields (CEA-861-D section 6.4), the HDMI 3D_Structure
 * code of a framebuffer layout, and the timings the frame composer is
 * programmed with.
 */
module Video {
  import opened FbMode
  import opened Edid
  import ModeList

  datatype Option<T> = None | Some(value: T)

  /** enc_in_format / enc_out_format: RGB 0, YCBCR444 1, YCBCR422_16BITS 2, YCBCR422_8BITS 3, XVYCC444 4. */
  datatype EncFormat = RGB | YCbCr444 | YCbCr422_16 | YCbCr422_8 | XvYCC444

  datatype Colorimetry = ITU601 | ITU709

  /** rgb_quant_range: the three CEA-861 ranges, or the whole mask, which means "decide from the EDID". */
  datatype QuantRange = QuantDefault | QuantLimited | QuantFull | QuantAuto

  // ---------------------------------------------------------------------
  // Quantisation range and colour-space conversion
  // ---------------------------------------------------------------------

  /**
   * getRGBQuantRange: an explicit setting wins; in automatic mode the range
   * is full when the sink declares the RGB range selectable, default
   * otherwise.
   */
  function GetRgbQuantRange(setting: QuantRange, rangeSelectable: bool): (r: QuantRange)
    ensures r != QuantAuto
    ensures setting != QuantAuto ==> r == setting
    ensures setting == QuantAuto ==> (r == QuantFull <==> rangeSelectable) && (r == QuantDefault <==> !rangeSelectable)
  {
    if setting != QuantAuto then setting
    else if rangeSelectable then QuantFull else QuantDefault
  }

  /**
   * isColorSpaceConversion: the formats differ, or RGB goes out in limited
   * range, or in default range for any VIC above 1 (VIC 1 is 640x480, the
   * only CEA format whose default RGB range is full).
   */
  predicate IsColorSpaceConversion(inF: EncFormat, outF: EncFormat, range: QuantRange, vic: int)
  {
    inF != outF || (outF == RGB && (range == QuantLimited || (range == QuantDefault && vic > 1)))
  }

  /** isColorSpaceDecimation: 4:4:4 in, 4:2:2 out. */
  predicate IsColorSpaceDecimation(inF: EncFormat, outF: EncFormat)
  {
    outF == YCbCr422_8 && (inF == RGB || inF == YCbCr444)
  }

  /** isColorSpaceInterpolation: 4:2:2 in, 4:4:4 out. */
  predicate IsColorSpaceInterpolation(inF: EncFormat, outF: EncFormat)
  {
    inF == YCbCr422_8 && (outF == RGB || outF == YCbCr444)
  }

  /**
   * Decimation and interpolation never both apply, and either one is a
   * change of format, hence a conversion; a same-format RGB path converts
   * exactly when it narrows the range.
   */
  lemma ConversionRelations(inF: EncFormat, outF: EncFormat, range: QuantRange, vic: int)
    ensures !(IsColorSpaceDecimation(inF, outF) && IsColorSpaceInterpolation(inF, outF))
    ensures IsColorSpaceDecimation(inF, outF) || IsColorSpaceInterpolation(inF, outF) ==>
              IsColorSpaceConversion(inF, outF, range, vic)
    ensures inF == outF && outF != RGB ==> !IsColorSpaceConversion(inF, outF, range, vic)
    ensures inF == RGB && outF == RGB ==>
              (IsColorSpaceConversion(inF, outF, range, vic) <==> range == QuantLimited || (range == QuantDefault && vic > 1))
  {
  }

  /**
   * In automatic mode on an RGB-to-RGB path, the range conversion is left
   * out exactly when the sink declares its range selectable or the VIC is
   * 0 or 1.
   */
  lemma {:induction false} AutoRangeConversion(rangeSelectable: bool, vic: int)
    ensures IsColorSpaceConversion(RGB, RGB, GetRgbQuantRange(QuantAuto, rangeSelectable), vic) <==>
            !rangeSelectable && vic > 1
  {
    var r := GetRgbQuantRange(QuantAuto, rangeSelectable);
    assert r == (if rangeSelectable then QuantFull else QuantDefault);
  }

  // ---------------------------------------------------------------------
  // CSC coefficients (update_csc_coeffs)
  // ---------------------------------------------------------------------

  /** The matrices update_csc_coeffs can load. */
  datatype CscKind = RgbLimited | Ycc601ToRgb | Ycc709ToRgb | Rgb601ToYcc | Rgb709ToYcc | Identity

  /** The choice of update_csc_coeffs; when no table is selected the identity is loaded. */
  function CscChoice(inF: EncFormat, outF: EncFormat, colorimetry: Colorimetry, convert: bool): CscKind
  {
    if !convert then Identity
    else if outF == RGB then
      if inF == RGB then RgbLimited
      else if colorimetry == ITU601 then Ycc601ToRgb
      else Ycc709ToRgb
    else if inF == RGB then
      if colorimetry == ITU601 then Rgb601ToYcc else Rgb709ToYcc
    else Identity
  }

  /** The 3x4 coefficient matrix of each kind, rows A, B, C, the fourth column the offset. */
  function CoeffTable(kind: CscKind): (t: seq<seq<int>>)
    ensures |t| == 3 && forall r :: 0 <= r < 3 ==> |t[r]| == 4
  {
    match kind
    case RgbLimited => [[0x1b80, 0x0000, 0x0000, 0x0020],
                        [0x0000, 0x1b80, 0x0000, 0x0020],
                        [0x0000, 0x0000, 0x1b80, 0x0020]]
    case Ycc601ToRgb => [[0x2000, 0x6926, 0x74fd, 0x010e],
                         [0x2000, 0x2cdd, 0x0000, 0x7e9a],
                         [0x2000, 0x0000, 0x38b4, 0x7e3b]]
    case Ycc709ToRgb => [[0x2000, 0x7106, 0x7a02, 0x00a7],
                         [0x2000, 0x3264, 0x0000, 0x7e6d],
                         [0x2000, 0x0000, 0x3b61, 0x7e25]]
    case Rgb601ToYcc => [[0x2591, 0x1322, 0x074b, 0x0000],
                         [0x6535, 0x2000, 0x7acc, 0x0200],
                         [0x6acd, 0x7534, 0x2000, 0x0200]]
    case Rgb709ToYcc => [[0x2dc5, 0x0d9b, 0x049e, 0x0000],
                         [0x62f0, 0x2000, 0x7d11, 0x0200],
                         [0x6756, 0x78ab, 0x2000, 0x0200]]
    case Identity => [[0x2000, 0x0000, 0x0000, 0x0000],
                      [0x0000, 0x2000, 0x0000, 0x0000],
                      [0x0000, 0x0000, 0x2000, 0x0000]]
  }

  /** csc_scale: 0 for the RGB-to-YCbCr tables, 1 otherwise. */
  function CscScale(kind: CscKind): nat
  {
    if kind == Rgb601ToYcc || kind == Rgb709ToYcc then 0 else 1
  }

  /**
   * Which table is loaded: the identity exactly when no conversion is needed
   * or neither side is RGB; the range-compression table exactly for an
   * RGB-to-RGB conversion; otherwise the table of the colorimetry, in the
   * direction of the conversion.
   */
  lemma {:induction false} CscChoiceCases(inF: EncFormat, outF: EncFormat, colorimetry: Colorimetry, convert: bool)
    ensures var k := CscChoice(inF, outF, colorimetry, convert);
            && (k == Identity <==> !convert || (inF != RGB && outF != RGB))
            && (k == RgbLimited <==> convert && inF == RGB && outF == RGB)
            && (k == Ycc601ToRgb <==> convert && outF == RGB && inF != RGB && colorimetry == ITU601)
            && (k == Ycc709ToRgb <==> convert && outF == RGB && inF != RGB && colorimetry == ITU709)
            && (k == Rgb601ToYcc <==> convert && inF == RGB && outF != RGB && colorimetry == ITU601)
            && (k == Rgb709ToYcc <==> convert && inF == RGB && outF != RGB && colorimetry == ITU709)
            && (CscScale(k) == 0 <==> convert && inF == RGB && outF != RGB)
  {
    var k := CscChoice(inF, outF, colorimetry, convert);
    if convert && outF == RGB && inF != RGB {
      assert k == (if colorimetry == ITU601 then Ycc601ToRgb else Ycc709ToRgb);
    }
  }

  /** The identity fallback: 0x2000 (unity) on the diagonal, zero elsewhere and zero offsets, scale 1. */
  lemma IdentityTable(r: nat, c: nat)
    requires r < 3 && c < 4
    ensures CoeffTable(Identity)[r][c] == (if r == c then 0x2000 else 0)
    ensures CscScale(Identity) == 1
  {
  }

  /** Every coefficient fits the 16-bit registers, which take it as a low and a high byte. */
  function CoeffLsb(c: int): int { c % 256 }
  function CoeffMsb(c: int): int { c / 256 }

  /** The 24 bytes written to HDMI_CSC_COEF_A1_LSB .. C4_MSB, in register order. */
  function CscRegisterBytes(t: seq<seq<int>>): (b: seq<int>)
    requires |t| == 3 && forall r :: 0 <= r < 3 ==> |t[r]| == 4
    ensures |b| == 24
  {
    seq(24, i requires 0 <= i < 24 =>
      var c := t[i / 8][(i % 8) / 2];
      if i % 2 == 0 then CoeffLsb(c) else CoeffMsb(c))
  }

  /** The bytes written decode back to the table: each coefficient is LSB + 256 * MSB. */
  lemma {:induction false} CscRegisterBytesDecode(kind: CscKind, r: nat, c: nat)
    requires r < 3 && c < 4
    ensures var t := CoeffTable(kind);
            var b := CscRegisterBytes(t);
            && 0 <= t[r][c] < 0x10000
            && 0 <= b[8 * r + 2 * c] < 256 && 0 <= b[8 * r + 2 * c + 1] < 256
            && b[8 * r + 2 * c] + 256 * b[8 * r + 2 * c + 1] == t[r][c]
  {
    var t := CoeffTable(kind);
    var b := CscRegisterBytes(t);
    var i := 8 * r + 2 * c;
    assert i / 8 == r && (i % 8) / 2 == c && i % 2 == 0;
    assert (i + 1) / 8 == r && ((i + 1) % 8) / 2 == c && (i + 1) % 2 == 1;
    assert 0 <= t[r][c] < 0x10000 by {
      match kind
      case RgbLimited =>
      case Ycc601ToRgb =>
      case Ycc709ToRgb =>
      case Rgb601ToYcc =>
      case Rgb709ToYcc =>
      case Identity =>
    }
  }

  /** Writes one row of the coefficient matrix. */
  method SetRow(csc: array2<int>, r: nat, a: int, b: int, c: int, d: int)
    requires csc.Length0 == 3 && csc.Length1 == 4 && r < 3
    modifies csc
    ensures forall i, j :: 0 <= i < 3 && 0 <= j < 4 ==>
              csc[i, j] == (if i != r then old(csc[i, j]) else [a, b, c, d][j])
  {
    csc[r, 0] := a;
    csc[r, 1] := b;
    csc[r, 2] := c;
    csc[r, 3] := d;
  }

  /**
   * update_csc_coeffs: fill the 3x4 matrix for the current formats,
   * colorimetry and range, and return the scale.
   */
  method UpdateCscCoeffs(csc: array2<int>, inF: EncFormat, outF: EncFormat, colorimetry: Colorimetry,
                         range: QuantRange, vic: int) returns (scale: nat)
    requires csc.Length0 == 3 && csc.Length1 == 4
    modifies csc
    ensures var k := CscChoice(inF, outF, colorimetry, IsColorSpaceConversion(inF, outF, range, vic));
            && scale == CscScale(k)
            && forall i, j :: 0 <= i < 3 && 0 <= j < 4 ==> csc[i, j] == CoeffTable(k)[i][j]
  {
    scale := 1;
    var selected := false;
    if IsColorSpaceConversion(inF, outF, range, vic) {
      if outF == RGB {
        if inF == RGB {
          SetRow(csc, 0, 0x1b80, 0x0000, 0x0000, 0x0020);
          SetRow(csc, 1, 0x0000, 0x1b80, 0x0000, 0x0020);
          SetRow(csc, 2, 0x0000, 0x0000, 0x1b80, 0x0020);
          scale := 1;
          selected := true;
        } else if colorimetry == ITU601 {
          SetRow(csc, 0, 0x2000, 0x6926, 0x74fd, 0x010e);
          SetRow(csc, 1, 0x2000, 0x2cdd, 0x0000, 0x7e9a);
          SetRow(csc, 2, 0x2000, 0x0000, 0x38b4, 0x7e3b);
          scale := 1;
          selected := true;
        } else {
          SetRow(csc, 0, 0x2000, 0x7106, 0x7a02, 0x00a7);
          SetRow(csc, 1, 0x2000, 0x3264, 0x0000, 0x7e6d);
          SetRow(csc, 2, 0x2000, 0x0000, 0x3b61, 0x7e25);
          scale := 1;
          selected := true;
        }
      } else if inF == RGB {
        if colorimetry == ITU601 {
          SetRow(csc, 0, 0x2591, 0x1322, 0x074b, 0x0000);
          SetRow(csc, 1, 0x6535, 0x2000, 0x7acc, 0x0200);
          SetRow(csc, 2, 0x6acd, 0x7534, 0x2000, 0x0200);
          scale := 0;
          selected := true;
        } else {
          SetRow(csc, 0, 0x2dc5, 0x0d9b, 0x049e, 0x0000);
          SetRow(csc, 1, 0x62f0, 0x2000, 0x7d11, 0x0200);
          SetRow(csc, 2, 0x6756, 0x78ab, 0x2000, 0x0200);
          scale := 0;
          selected := true;
        }
      }
    }
    if !selected {
      SetRow(csc, 0, 0x2000, 0x0000, 0x0000, 0x0000);
      SetRow(csc, 1, 0x0000, 0x2000, 0x0000, 0x0000);
      SetRow(csc, 2, 0x0000, 0x0000, 0x2000, 0x0000);
      scale := 1;
    }
  }

  /** HDMI_CSC_CFG and the colour-depth field of HDMI_CSC_SCALE, as hdmi_video_csc computes them. */
  datatype CscConfig = CscConfig(interpolate: bool, decimate: bool, bitsPerPixel: nat)

  /** hdmi_video_csc: nothing is configured (not even the coefficients) for a depth other than 8, 10, 12 or 16. */
  function VideoCsc(inF: EncFormat, outF: EncFormat, depth: nat): (r: Option<CscConfig>)
    ensures r.Some? <==> depth == 8 || depth == 10 || depth == 12 || depth == 16
    ensures r.Some? ==> r.value.bitsPerPixel == 3 * depth
    ensures r.Some? ==> !(r.value.interpolate && r.value.decimate)
    ensures r.Some? ==> (r.value.interpolate <==> IsColorSpaceInterpolation(inF, outF))
    ensures r.Some? ==> (r.value.decimate <==> IsColorSpaceDecimation(inF, outF))
  {
    var interp := IsColorSpaceInterpolation(inF, outF);
    var decim := !interp && IsColorSpaceDecimation(inF, outF);
    if depth == 8 then Some(CscConfig(interp, decim, 24))
    else if depth == 10 then Some(CscConfig(interp, decim, 30))
    else if depth == 12 then Some(CscConfig(interp, decim, 36))
    else if depth == 16 then Some(CscConfig(interp, decim, 48))
    else None
  }

  // ---------------------------------------------------------------------
  // Video sampler data map and packetiser
  // ---------------------------------------------------------------------

  /**
   * hdmi_video_sample: the enum hdmi_datamap code for the input format and
   * depth; None (no register written) for an unsupported depth; 0 for an
   * input format the function does not list.
   */
  function DataMap(inF: EncFormat, depth: nat): Option<int>
  {
    match inF
    case RGB =>
      if depth == 8 then Some(0x01) else if depth == 10 then Some(0x03)
      else if depth == 12 then Some(0x05) else if depth == 16 then Some(0x07) else None
    case YCbCr444 =>
      if depth == 8 then Some(0x09) else if depth == 10 then Some(0x0B)
      else if depth == 12 then Some(0x0D) else if depth == 16 then Some(0x0F) else None
    case YCbCr422_8 =>
      if depth == 8 then Some(0x16) else if depth == 10 then Some(0x14)
      else if depth == 12 then Some(0x12) else None
    case _ => Some(0)
  }

  /**
   * The data map is a code: a non-zero code names exactly one input format
   * and depth. For 4:4:4 inputs, bit 3 tells YCbCr from RGB and bits 1-2
   * count the depth up from 8 in steps (8, 10, 12, 16).
   */
  lemma {:induction false} DataMapInjective(f1: EncFormat, d1: nat, f2: EncFormat, d2: nat)
    requires DataMap(f1, d1).Some? && DataMap(f1, d1) == DataMap(f2, d2) && DataMap(f1, d1).value != 0
    ensures f1 == f2 && d1 == d2
  {
    assert f1 == RGB || f1 == YCbCr444 || f1 == YCbCr422_8;
    assert f2 == RGB || f2 == YCbCr444 || f2 == YCbCr422_8;
  }

  lemma DataMapFields(inF: EncFormat, depth: nat)
    requires inF == RGB || inF == YCbCr444
    requires DataMap(inF, depth).Some?
    ensures var c := DataMap(inF, depth).value;
            && c % 2 == 1
            && ((c / 8) % 2 == 1 <==> inF == YCbCr444)
            && (c / 2) % 4 == (if depth == 8 then 0 else if depth == 10 then 1 else if depth == 12 then 2 else 3)
  {
  }

  datatype OutputSelector = PixelPacker | YCC422 | Bypass
  datatype Remap = Remap16 | Remap20 | Remap24

  /**
   * What hdmi_video_packetize programs: the output selector, the YCC422
   * remap size, and the colour depth written to HDMI_VP_PR_CD.
   */
  datatype PacketizerConfig = PacketizerConfig(select: OutputSelector, remap: Remap, colorDepth: nat)

  function VideoPacketize(outF: EncFormat, depth: nat): Option<PacketizerConfig>
  {
    if outF == RGB || outF == YCbCr444 then
      if depth == 0 || depth == 8 then Some(PacketizerConfig(Bypass, Remap16, 0))
      else if depth == 10 || depth == 12 || depth == 16 then Some(PacketizerConfig(PixelPacker, Remap16, 0))
      else None
    else if outF == YCbCr422_8 then
      if depth == 0 || depth == 8 then Some(PacketizerConfig(YCC422, Remap16, 0))
      else if depth == 10 then Some(PacketizerConfig(YCC422, Remap20, 0))
      else if depth == 12 then Some(PacketizerConfig(YCC422, Remap24, 0))
      else None
    else None
  }

  /**
   * The packetiser never enables deep colour (the depth written is always 0),
   * bypasses at 8 bits, uses the 4:2:2 path exactly for 4:2:2 output, and
   * programs nothing for the 16-bit 4:2:2 and xvYCC output formats.
   */
  lemma {:induction false} PacketizerRules(outF: EncFormat, depth: nat)
    ensures VideoPacketize(outF, depth).Some? ==> VideoPacketize(outF, depth).value.colorDepth == 0
    ensures VideoPacketize(outF, depth).Some? ==> (VideoPacketize(outF, depth).value.select == YCC422 <==> outF == YCbCr422_8)
    ensures (outF == RGB || outF == YCbCr444) && depth == 8 ==> VideoPacketize(outF, depth) == Some(PacketizerConfig(Bypass, Remap16, 0))
    ensures outF == YCbCr422_16 || outF == XvYCC444 ==> VideoPacketize(outF, depth).None?
    ensures VideoPacketize(outF, depth).Some? ==> VideoPacketize(outF, depth).value.remap != Remap16 ==> outF == YCbCr422_8
  {
    if outF == YCbCr422_8 {
      assert VideoPacketize(outF, depth).Some? ==> VideoPacketize(outF, depth).value.select == YCC422;
    }
  }

  // ---------------------------------------------------------------------
  // The choices of mxc_hdmi_setup
  // ---------------------------------------------------------------------

  /** The CEA-861 VICs mxc_hdmi_setup gives ITU-R BT.601 colorimetry: the 720x480 and 720x576 formats. */
  function SetupColorimetry(vic: int): Colorimetry
  {
    if vic in {2, 3, 6, 7, 17, 18, 21, 22} then ITU601 else ITU709
  }

  /** The VICs sent with pixel repetition: the 2880- and 1440-wide formats. */
  function SetupPixelRepetitionOutput(vic: int): nat
  {
    if vic in {10, 11, 12, 13, 14, 15, 25, 26, 27, 28, 29, 30, 35, 36, 37, 38} then 1 else 0
  }

  /** The output format: YCbCr only towards an HDMI sink that declares it and when RGB output is not forced. */
  function SetupOutputFormat(hdmiConnected: bool, rgbOutEnable: bool, cfg: EdidCfg): EncFormat
  {
    if hdmiConnected && !rgbOutEnable then
      if cfg.ceaYcbcr444 then YCbCr444 else if cfg.ceaYcbcr422 then YCbCr422_8 else RGB
    else RGB
  }

  /** The video parameters mxc_hdmi_setup fixes before it programs the pipeline. */
  datatype VideoParams = VideoParams(
    vic: int, colorimetry: Colorimetry, prOutput: nat, prInput: nat,
    inFormat: EncFormat, outFormat: EncFormat, colorDepth: nat, pixRepetFactor: nat, dePolarity: bool)

  function SetupParams(vic: int, hdmiConnected: bool, rgbOutEnable: bool, cfg: EdidCfg): VideoParams
  {
    VideoParams(vic, SetupColorimetry(vic), SetupPixelRepetitionOutput(vic), 0,
                RGB, SetupOutputFormat(hdmiConnected, rgbOutEnable, cfg), 8, 0, true)
  }

  /**
   * What setup's choices mean for the rest of the pipeline: the input is
   * 8-bit RGB, so the sampler map is RGB444_8B and every stage is
   * programmed; YCbCr goes out only to an HDMI sink that declares it; a
   * YCbCr output is converted with the RGB-to-YCbCr table of the VIC's
   * colorimetry (scale 0), and an RGB output is range-compressed or passed
   * through unchanged.
   */
  lemma {:induction false} SetupPipeline(vic: int, hdmiConnected: bool, rgbOutEnable: bool, cfg: EdidCfg, setting: QuantRange)
    ensures var p := SetupParams(vic, hdmiConnected, rgbOutEnable, cfg);
            var range := GetRgbQuantRange(setting, cfg.ceaRgbRangeSelectable);
            var k := CscChoice(p.inFormat, p.outFormat, p.colorimetry, IsColorSpaceConversion(p.inFormat, p.outFormat, range, vic));
            && DataMap(p.inFormat, p.colorDepth) == Some(0x01)
            && VideoCsc(p.inFormat, p.outFormat, p.colorDepth).Some?
            && VideoPacketize(p.outFormat, p.colorDepth).Some?
            && (p.outFormat != RGB ==> hdmiConnected && !rgbOutEnable && (cfg.ceaYcbcr444 || cfg.ceaYcbcr422))
            && (p.outFormat == RGB || p.outFormat == YCbCr444 || p.outFormat == YCbCr422_8)
            && (p.outFormat != RGB ==> k == (if SetupColorimetry(vic) == ITU601 then Rgb601ToYcc else Rgb709ToYcc) && CscScale(k) == 0)
            && (p.outFormat == RGB ==> (k == RgbLimited || k == Identity))
  {
    var p := SetupParams(vic, hdmiConnected, rgbOutEnable, cfg);
    var range := GetRgbQuantRange(setting, cfg.ceaRgbRangeSelectable);
    CscChoiceCases(p.inFormat, p.outFormat, p.colorimetry, IsColorSpaceConversion(p.inFormat, p.outFormat, range, vic));
  }

  // ---------------------------------------------------------------------
  // AVI InfoFrame (hdmi_config_AVI), in CEA-861-D field codes
  // ---------------------------------------------------------------------

  /**
   * The AVI InfoFrame fields the driver writes: Y (pixel encoding), S (scan
   * information), C and EC (colorimetry), M (coded aspect), R (active
   * format aspect), Q (RGB quantisation), the VIC and the pixel repetition
   * factors.
   */
  datatype Avi = Avi(y: nat, s: nat, c: nat, ec: nat, m: nat, r: nat, q: nat, vic: int, inputPr: nat, outputPr: nat)

  function QuantCode(q: QuantRange): nat
  {
    match q
    case QuantDefault => 0
    case QuantLimited => 1
    case QuantFull => 2
    case QuantAuto => 3
  }

  /**
   * The aspect ratio the driver reports: 16:9 when the modelist is not
   * empty and the mode fb_find_nearest_mode picks from it (not part of this
   * model, hence its vmode is a parameter) is flagged 16:9.
   */
  predicate AviAspect16_9(nearest: Option<bv32>)
  {
    nearest.Some? && HasBits(nearest.value, FB_VMODE_ASPECT_16_9)
  }

  function ConfigAvi(p: VideoParams, underscan: bool, nearest: Option<bv32>, range: QuantRange): Avi
  {
    var y := if p.outFormat == YCbCr444 then 2 else if p.outFormat == YCbCr422_8 then 1 else 0;
    var s := if underscan then 2 else 0;
    var wide := AviAspect16_9(nearest);
    var c := if p.outFormat == XvYCC444 then 3
             else if p.outFormat != RGB then (if p.colorimetry == ITU601 then 1 else 2)
             else 0;
    var ec := if p.outFormat == XvYCC444 && p.colorimetry == ITU709 then 1 else 0;
    Avi(y, s, c, ec, if wide then 2 else 1, if wide then 10 else 9, QuantCode(range), p.vic,
        p.prInput + 1, p.prOutput)
  }

  /**
   * The fields can be read back: Y names 4:4:4 and 4:2:2 YCbCr (anything else
   * is signalled as RGB), C is "no data" exactly for RGB and "extended"
   * exactly for xvYCC, the colorimetry is recovered from C and EC for every
   * non-RGB output, and M and R agree on the aspect.
   */
  lemma {:induction false} AviDecodes(p: VideoParams, underscan: bool, nearest: Option<bv32>, range: QuantRange)
    ensures var a := ConfigAvi(p, underscan, nearest, range);
            && (a.y == 2 <==> p.outFormat == YCbCr444)
            && (a.y == 1 <==> p.outFormat == YCbCr422_8)
            && (a.c == 0 <==> p.outFormat == RGB)
            && (a.c == 3 <==> p.outFormat == XvYCC444)
            && (p.outFormat != RGB ==> (p.colorimetry == ITU601 <==> a.c == 1 || (a.c == 3 && a.ec == 0)))
            && (a.m == 2 <==> a.r == 10) && (a.m == 2 <==> AviAspect16_9(nearest))
            && (a.s == 2 <==> underscan)
            && a.inputPr == p.prInput + 1
  {
    var a := ConfigAvi(p, underscan, nearest, range);
    if p.outFormat != RGB && p.outFormat != XvYCC444 {
      assert a.c == (if p.colorimetry == ITU601 then 1 else 2);
    }
  }

  // ---------------------------------------------------------------------
  // HDMI 3D_Structure of a layout (mxc_3d_structure_infoframe)
  // ---------------------------------------------------------------------

  /** The 3D_Structure code of a framebuffer 3D layout (section 8.2.3 of HDMI 1.4a); -1 is invalid. */
  function Structure3d(layout: bv32): int
  {
    if layout == FB_VMODE_3D_SBS_HALF then 8
    else if layout == FB_VMODE_3D_SBS_FULL then 3
    else if layout == FB_VMODE_3D_TOP_BOTTOM then 6
    else if layout == FB_VMODE_3D_FRAME_PACK then 0
    else -1
  }

  /**
   * The vendor InfoFrame code and the VSDB 3D list agree: the layout the
   * mode-list builder picks for a 3D_Structure code is reported back with
   * that code, and each of the four layouts round-trips.
   */
  lemma {:induction false} Structure3dRoundTrip(s: nat, layout: bv32)
    ensures ModeList.KnownStructure(s) ==> Structure3d(ModeList.LayoutFor(s)) == s
    ensures !ModeList.KnownStructure(s) ==> Structure3d(ModeList.LayoutFor(s)) == -1
    ensures Structure3d(layout) >= 0 ==> ModeList.LayoutFor(Structure3d(layout)) == layout
  {
    if Structure3d(layout) >= 0 {
      assert layout == FB_VMODE_3D_SBS_HALF || layout == FB_VMODE_3D_SBS_FULL ||
             layout == FB_VMODE_3D_TOP_BOTTOM || layout == FB_VMODE_3D_FRAME_PACK;
    }
  }

  // ---------------------------------------------------------------------
  // Frame composer timings (hdmi_av_composer)
  // ---------------------------------------------------------------------

  /** The timings the frame composer is programmed with, before they are split into register bytes. */
  datatype Composer = Composer(
    hSyncHigh: bool, vSyncHigh: bool, interlaced: bool, rVBlankHigh: bool, dviMode: bool,
    hActive: int, vActive: int, hBlank: int, vBlank: int,
    hSyncDelay: int, vSyncDelay: int, hSyncWidth: int, vSyncWidth: int)

  /**
   * hdmi_av_composer for the current mode; `dviMode` is whether the link
   * state is CONNECTED_DVI. Vertical quantities are halved for interlaced
   * modes.
   */
  function AvComposer(m: Mode, dviMode: bool): Composer
  {
    var interlaced := HasBits(m.vmode, FB_VMODE_INTERLACED);
    var vblank := m.upperMargin + m.lowerMargin + m.vsyncLen;
    Composer(
      HasBits(m.sync, FB_SYNC_HOR_HIGH_ACT), HasBits(m.sync, FB_SYNC_VERT_HIGH_ACT), interlaced,
      HasBits(m.vmode, FB_VMODE_FRACTIONAL) || interlaced, dviMode,
      m.xres, if interlaced then m.yres / 2 else m.yres,
      m.leftMargin + m.rightMargin + m.hsyncLen,
      if interlaced then vblank / 2 else vblank,
      m.rightMargin, if interlaced then m.lowerMargin / 2 else m.lowerMargin,
      m.hsyncLen, if interlaced then m.vsyncLen / 2 else m.vsyncLen)
  }

  /**
   * Active plus blanking is the full line; for a progressive mode also the
   * full frame, and for an interlaced one each field carries half the
   * active lines and (rounded down) half the blanking. The horizontal sync
   * lies inside the blanking.
   */
  lemma {:induction false} ComposerTotals(m: Mode, dviMode: bool)
    ensures var a := AvComposer(m, dviMode);
            && a.hActive + a.hBlank == m.xres + m.leftMargin + m.rightMargin + m.hsyncLen
            && a.hSyncDelay + a.hSyncWidth <= a.hBlank
            && (!a.interlaced ==> a.vActive + a.vBlank == m.yres + m.upperMargin + m.lowerMargin + m.vsyncLen)
            && (a.interlaced ==> 2 * a.vActive <= m.yres < 2 * a.vActive + 2)
            && (a.interlaced ==> 2 * a.vBlank <= m.upperMargin + m.lowerMargin + m.vsyncLen < 2 * a.vBlank + 2)
            && (a.rVBlankHigh <==> a.interlaced || HasBits(m.vmode, FB_VMODE_FRACTIONAL))
  {
    var a := AvComposer(m, dviMode);
    if a.interlaced {
      assert a.vActive == m.yres / 2;
      assert a.vBlank == (m.upperMargin + m.lowerMargin + m.vsyncLen) / 2;
    }
  }

  /** A 16-bit register pair: the low byte and the high byte. */
  function Split16(v: int): (int, int)
  {
    (v % 256, (v / 256) % 256)
  }

  /** Values below 65536 survive the two-byte registers. */
  lemma {:induction false} Split16RoundTrip(v: int)
    requires 0 <= v < 0x10000
    ensures Split16(v).0 + 256 * Split16(v).1 == v
    ensures 0 <= Split16(v).0 < 256 && 0 <= Split16(v).1 < 256
  {
    assert v / 256 < 256;
  }
}
